# AAC two-level mappings, in Dafny

A model of the store behind an assistive-communication (AAC) board. The store has two levels:

- Top level: categories, each keyed by the image location that stands for it and carrying a display name.
- Inside each category: image locations mapped to the text to speak.

It covers the two Java classes and the line-based file format they read and write:

- `Categories.AACCategory` (`src/AACCategory.java`) is a class with a constant name and an `items` field. `items` is an ordered sequence of (image location, text) pairs, and `addItem` reassigns it.
- `Mappings.AACMappings` (`src/AACMappings.java`) is a class holding:
  - `categoryMappings`, an ordered sequence of (key, `AACCategory` object) pairs;
  - the navigation state `currentCategory` (nullable) and `currentCategoryName`.

  Its methods `Select`, `Reset` and `AddItem` change these fields in place. `GetImageLocs`, `GetCategory` and `HasImage` are read-only functions over them.
- `LineFormat` holds the file format as pure functions over a file's lines:
  - `Parse` is what the constructor's loop computes;
  - `Print` is what `writeToFile` emits;
  - the lemmas relate the two both ways: parsing a printed store gives it back, and printing a parsed file in canonical form gives back its lines.

  `AACMappings.Load` (the constructor) and `AACMappings.WriteToFile` are loops proved against `Parse` and `Print`.
- `Sequences` holds the one linear search that both the array's key lookups and the splitting of lines use.
- `AssociativeArray` models `edu.grinnell.csc207.util.AssociativeArray`, whose source is not part of this model. Its behaviour is assumed:
  - entries are key/value pairs searched linearly;
  - `set` overwrites in place when the key is present and appends otherwise;
  - `keys()` lists the keys in order;
  - `get` on a missing key fails;
  - only a `null` key is rejected by `set`.

Java's `null` is modelled as `None` for the `imageLoc` argument of the two `addItem` methods. A thrown `NoSuchElementException` becomes `Err(CategoryNotFound(loc))` or `Err(ImageNotFound(loc))`. The `ArrayIndexOutOfBoundsException` that a line without a space raises in the constructor becomes `Err(MissingSpace(line))`.

The abstract value of an `AACMappings` is `Model()`. It lists each key with the `CategoryRecord(name, items)` of its category object. The object invariant `Valid()` states four things:

- keys are distinct;
- every category object is stored once and has distinct image keys;
- `currentCategory == null` implies `currentCategoryName == ""`;
- a non-null `currentCategory` is the object stored under `currentCategoryName`.

The class tests for "top level" in two ways:

- `select`, `getImageLocs` and `getCategory` test `currentCategoryName.isEmpty()`;
- `addItem` and `hasImage` test `currentCategory == null`.

Both fields are modelled, so the model keeps this difference. `TopLevelTestsAgree` proves the two tests agree while no category is keyed by `""`.

When a category is keyed by `""`, selecting it sets `currentCategory` but leaves the name empty. From then on:

- `getImageLocs` and `select` still act at top level, and `getCategory` returns `""`;
- `addItem` and `hasImage` act inside that category.

The client method `Mappings.EmptyKeySession` walks through this case. `Mappings.ExampleSession` and `Mappings.BrowseExample` replay the example file of the class comment: open "food", speak "french fries", reset.

Two behaviours of the code worth noting:

- A line with no space (after the `>` of an item line) crashes the constructor, unless it is an item line read before any category line, which is skipped. The exception is not caught, so no object is built.
- `addItem` rejects only a `null` location. An empty location `""` is accepted like any other key.

## Model

| member | source | states |
|---|---|---|
| AssociativeArray.HasKey | src/AACCategory.java:78-80 | `hasKey(k)` holds exactly when some entry has key `k` (assumed array semantics) |
| AssociativeArray.Get | src/AACCategory.java:65-70 | `get(k)` succeeds exactly when `k` is a key, and what it returns is the value stored with `k` |
| AssociativeArray.Keys | src/AACCategory.java:46-48 | `keys()` lists one key per entry; `HasKey` and `SetKeys` give which keys and in what order |
| AssociativeArray.Set | src/AACCategory.java:35 | after `set(k, v)` the array holds `(k, v)`, and it grows by one entry exactly when `k` was not a key |
| AssociativeArray.SetEntries | src/AACCategory.java:35 | `set(k, v)` writes no entry but `(k, v)`: every other position keeps the entry it had |
| AssociativeArray.SetKeys | src/AACCategory.java:35 | `set(k, v)` leaves the key order unchanged when `k` is present and appends `k` otherwise |
| AssociativeArray.SetDistinct | src/AACCategory.java:35 | `set` never creates a duplicate key |
| AssociativeArray.GetSetSame | src/AACCategory.java:35 | last write wins: after `set(k, v)`, `get(k)` is `v` |
| AssociativeArray.GetSetOther | src/AACCategory.java:35 | `set(k, v)` leaves what `get` finds under every other key unchanged |
| AssociativeArray.GetAt | src/AACMappings.java:155-160 | with distinct keys, looking up a listed key finds the value stored beside it, as `writeToFile`'s lookups rely on |
| Categories.AACCategory.constructor | src/AACCategory.java:23-26 | a new category has the given name, no images, and `hasImage` is false for every location |
| Categories.AACCategory.AddItem | src/AACCategory.java:33-39 | a non-null location is added or overwritten: afterwards `hasImage` holds and `select` gives the new text; every other location's text is unchanged; the key order is unchanged for a present key and extended for a new one; a null location changes nothing |
| Categories.AACCategory.GetImageLocs | src/AACCategory.java:46-48 | lists exactly the locations `hasImage` accepts, each once, in insertion order (empty for a new category) |
| Categories.AACCategory.GetCategory | src/AACCategory.java:54-56 | the name given at construction (a `const` field, so no `addItem` changes it) |
| Categories.AACCategory.GetCurrentCategory | src/AACCategory.java:82-84 | the same constructor name as `getCategory` |
| Categories.AACCategory.Select | src/AACCategory.java:65-71 | succeeds exactly when `hasImage` holds, with the text stored for that location; otherwise `NoSuchElementException` ("Image not found") |
| Categories.AACCategory.HasImage | src/AACCategory.java:78-80 | true exactly when some item is stored under the location |
| LineFormat.SplitFirst | src/AACMappings.java:58 | `split(" ", 2)` yields two parts exactly when the line has a space; the first part has no space and the parts joined by one space give the line back |
| LineFormat.SplitJoin | src/AACMappings.java:63 | splitting `loc + " " + text` gives back `loc` and `text` when `loc` has no space |
| LineFormat.AddToCategory | src/AACMappings.java:62-64 | adding an item to the category under `k` keeps the keys and every other category, and sets the item in that category's items |
| LineFormat.Run | src/AACMappings.java:55-67 | the constructor's loop keeps keys distinct at both levels and keeps `category` pointing at a stored key |
| LineFormat.Parse | src/AACMappings.java:52-67 | a successful parse yields a store with distinct keys at both levels |
| LineFormat.Step | src/AACMappings.java:56-66 | one pass of the loop throws, with that line, exactly on a line that does not split, unless it is an item line read while `category` is null; an item line keeps `category`, and one read while it is null changes nothing; a category line that splits makes a space-free key current, whose new empty category spells the line back with that key |
| LineFormat.RunConcat | src/AACMappings.java:55-67 | the loop reads a file line by line: reading two runs of lines one after the other is reading them joined, and an exception in the first ends the read |
| LineFormat.RunNext | src/AACMappings.java:55-56 | reading one more line is one more pass of the loop |
| LineFormat.RunStops | src/AACMappings.java:55-59 | once a line throws, the lines after it are not read: the whole file fails as its prefix through that line does |
| LineFormat.AddToCategoryEntries | src/AACMappings.java:62-64 | `category.addItem` keeps the number of categories and changes at most their items, each by that one `set` |
| LineFormat.StepPrintable | src/AACMappings.java:56-66 | a pass of the loop stores no key with a space and no category key starting with `>` |
| LineFormat.RunPrintable | src/AACMappings.java:55-67 | every store the constructor loads is one `writeToFile` can print and load back |
| LineFormat.RunCurrent | src/AACMappings.java:54-62 | `category` is still null exactly while every line read so far was an item line |
| LineFormat.OrphanItemsIgnored | src/AACMappings.java:61-65 | item lines before the first category line are ignored, even ones without a space |
| LineFormat.StepThrows | src/AACMappings.java:56-66 | the next line throws exactly when it is a category line without a space, or an item line without a space after `>` once a category has been read |
| LineFormat.ParseFailsAt | src/AACMappings.java:58-64 | the parse fails with the first line on which the constructor throws |
| LineFormat.ParseSucceeds | src/AACMappings.java:55-67 | the parse succeeds when no line throws |
| LineFormat.ParseOkNoThrow | src/AACMappings.java:55-67 | a successful parse read no line that throws |
| LineFormat.ParseFailure | src/AACMappings.java:56-68 | the parse fails exactly when some line throws, and it fails with the first such line |
| LineFormat.ItemLines | src/AACMappings.java:159-160 | one item line per image of the category |
| LineFormat.ItemLinesAppend | src/AACMappings.java:159-160 | item lines follow the order of the images: one more item adds `>loc text` after the others |
| LineFormat.ItemLinesSplit | src/AACMappings.java:160 | every item line written starts with `>` and has a space after the `>` |
| LineFormat.CategoryLines | src/AACMappings.java:157-161 | a category's lines are its category line followed by exactly its item lines |
| LineFormat.CategoryLinesSplit | src/AACMappings.java:157-161 | every line written for a category splits; the category line reads back as a category line exactly when its key does not start with `>`, and the others read back as item lines |
| LineFormat.Print | src/AACMappings.java:154-162 | at least one line per category |
| LineFormat.PrintSplits | src/AACMappings.java:152-162 | every line `writeToFile` emits splits, so none makes the constructor throw |
| LineFormat.RunItems | src/AACMappings.java:159-160 | the item lines printed for a category, parsed right after its category line, rebuild its items in order |
| LineFormat.RunCategory | src/AACMappings.java:157-161 | the lines printed for one category, parsed after the categories before it, append that category and make it current |
| LineFormat.RunPrint | src/AACMappings.java:154-162 | parsing the printed store gives the store back, with its last category current |
| LineFormat.ParsePrint | src/AACMappings.java:152-162 | load after save: parsing what `writeToFile` prints reproduces the same category keys, names, item keys and texts, in the same order, when no key has a space and no category key starts with `>` |
| LineFormat.ParsePrintParse | src/AACMappings.java:152-162 | load, save, load: loading what `writeToFile` prints from a loaded store gives that store again |
| LineFormat.CanonicalRun | src/AACMappings.java:55-67 | a file in canonical form loads, and the loop ends with the file rebuilt: printing the store gives the lines read, the last category is current, and every key comes from a line of the file |
| LineFormat.PrintParse | src/AACMappings.java:152-162 | save after load: a file in canonical form (opening with a category line, every line split, no category key repeated, no image repeated under one category) loads, and `writeToFile` prints back exactly its lines |
| Mappings.AACMappings.constructor | src/AACMappings.java:48-50 | the fields start empty and at top level: `currentCategory` null and `currentCategoryName` empty |
| Mappings.AACMappings.Load | src/AACMappings.java:47-71 | the constructor fails exactly when `Parse` does, with the same line; otherwise it yields a valid object at top level whose store is what `Parse` gives |
| Mappings.AACMappings.ReadLine | src/AACMappings.java:56-66 | one pass over the objects does to the store's value exactly what `Step` does, keeps the invariant, and leaves `category` as the object stored under the current key |
| Mappings.AACMappings.AddCategory | src/AACMappings.java:59-60 | storing a new category object under a key sets that key's record in the store's value and keeps the invariant |
| Mappings.AACMappings.AddToStored | src/AACMappings.java:64 | `category.addItem` on a stored category object changes the store's value exactly as `AddToCategory` says |
| Mappings.AACMappings.Select | src/AACMappings.java:87-107 | at top level, an unknown key throws "Category not found" and changes nothing. A known key returns "" and enters that category; for a non-empty key, `getImageLocs` then lists that category's images and `getCategory` gives its name. Inside a category, `select` returns that category's text for a known image and throws "Image not found" for an unknown one; the state is unchanged |
| Mappings.AACMappings.GetImageLocs | src/AACMappings.java:114-120 | all category keys at top level, else the current category's images; no duplicates; exactly the locations `hasImage` accepts whenever the two top-level tests agree |
| Mappings.AACMappings.Reset | src/AACMappings.java:126-129 | from any state: top level, `getCategory` is "" and `getImageLocs` lists all category keys; the store is unchanged |
| Mappings.AACMappings.AddItem | src/AACMappings.java:174-184 | with no current category, a non-null location gets a fresh empty category named `text`, replacing any category under it; inside a category, only that category's item is added or overwritten; a null location changes nothing; the navigation state is unchanged |
| Mappings.AACMappings.GetCategory | src/AACMappings.java:192-194 | "" at top level, else the name of the category stored under the current key |
| Mappings.AACMappings.HasImage | src/AACMappings.java:204-209 | with no current category, whether the location is a category key; else whether it is an image of the current category |
| Mappings.AACMappings.WriteToFile | src/AACMappings.java:152-166 | emits exactly `Print` of the store: each category line, then its item lines, in store order |
| Mappings.AACMappings.WriteCategory | src/AACMappings.java:157-161 | the inner loop emits the category line followed by one `>loc text` line per image, in order |
| Mappings.AACMappings.TopLevelTestsAgree | src/AACMappings.java:175 | while no category is keyed by "", `currentCategory == null` (the condition at lines 175 and 205) agrees with `currentCategoryName.isEmpty()` (the condition at lines 88, 115 and 193) |
| Mappings.SaveAndReload | src/AACMappings.java:152-162 | saving a printable store and loading the lines back gives an object, at top level, with the same store |
| Mappings.FoodLines | src/AACMappings.java:36-38 | the lines `writeToFile` prints for "food" are the first three lines of the example file |
| Mappings.ClothingLines | src/AACMappings.java:39-40 | the lines `writeToFile` prints for "clothing" are the last two lines of the example file |
| Mappings.ExamplePrinted | src/AACMappings.java:35-44 | `writeToFile` on the example store prints the example file |
| Mappings.ExampleParses | src/AACMappings.java:35-44 | the example file of the class comment parses to two categories, "food" with two images and "clothing" with one |

## Left out

- File I/O is not modelled. The constructor receives the file's lines and `writeToFile` returns the lines it would print. An unreadable file, which yields an empty store, and an `IOException` part-way through reading are out of scope.
- Splitting a file into lines is not modelled. So the model cannot express the round trip's condition that no name or text holds a line break.
- Logging (`printStackTrace`, `System.err.println`) is a no-op.
- Unreachable `catch` blocks are not modelled:
  - the `KeyNotFoundException` after a successful `hasKey` in `select`;
  - the `KeyNotFoundException` in `writeToFile`;
  - the `NullKeyException` in the constructor, whose keys come from a split and are never null.
- Exception messages are modelled only by their subject (category or image and the location), not as strings.
- `null` values are not modelled except for the location passed to `addItem`. This leaves out null texts and null locations passed to `select` or `hasImage`, since the array's behaviour on them is outside this model.
- `getImageLocs` returns a fresh Java array. The model returns a sequence, so aliasing of that array is not modelled.
- The `AACPage` interface and the GUI, audio and command-line code that call these classes are not part of this model.
- LineFormat.PrintParse: states that the canonical form (`Canonical`) is enough for a file to be printed back line for line; the converse, that every other file is normalised on printing, is not proved.
