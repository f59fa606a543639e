/**
 * `AACMappings`: all categories, keyed by the image location that stands for
 * each one, plus the navigation state `currentCategory` / `currentCategoryName`.
 */
module Mappings {
  import opened Wrappers
  import opened Sequences
  import opened AssociativeArray
  import opened Categories
  import opened LineFormat

  class AACMappings {
    var categoryMappings: Entries<AACCategory>
    /** `null` at top level, else the object stored under `currentCategoryName`. */
    var currentCategory: AACCategory?
    var currentCategoryName: string

    /** The category objects the store holds. */
    ghost function Stored(): set<AACCategory>
      reads this
    {
      set i | 0 <= i < |categoryMappings| :: categoryMappings[i].1
    }

    /**
     * Keys are distinct, every category is stored once and is itself valid,
     * and `currentCategory` is `null` with an empty name, or is the category
     * stored under `currentCategoryName`.
     */
    ghost predicate Valid()
      reads this, Stored()
    {
      DistinctKeys(categoryMappings) &&
      (forall i, j :: 0 <= i < j < |categoryMappings| ==> categoryMappings[i].1 != categoryMappings[j].1) &&
      (forall c | c in Stored() :: c.Valid()) &&
      (currentCategory == null ==> currentCategoryName == "") &&
      (currentCategory != null ==>
        currentCategory in Stored() && Get(categoryMappings, currentCategoryName) == Some(currentCategory))
    }

    /** The store as a value: each key with the name and items of its category. */
    ghost function Model(): (b: Board)
      reads this, Stored()
      ensures |b| == |categoryMappings| && Keys(b) == Keys(categoryMappings)
    {
      var cm, objs := categoryMappings, Stored();
      seq(|cm|, i requires 0 <= i < |cm| reads objs => (cm[i].0, cm[i].1.Record()))
    }

    /** The fields as the constructor first sets them: no categories, at top level. */
    constructor ()
      ensures Valid() && Model() == [] && currentCategory == null && currentCategoryName == ""
      ensures Stored() == {}
    {
      categoryMappings := [];
      currentCategory := null;
      currentCategoryName := "";
    }

    /** What `get` finds in the store's value is the record of the object `get` finds in the store. */
    lemma ModelGet(k: string)
      requires Valid()
      ensures Get(Model(), k) == match Get(categoryMappings, k) case None => None case Some(c) => Some(c.Record())
    {
    }

    /**
     * The constructor `AACMappings(filename)`, with the file given as its
     * lines: the categories and items the lines describe, at top level; or
     * the `ArrayIndexOutOfBoundsException` a line without a space raises,
     * which the constructor does not catch.
     */
    static method Load(lines: seq<string>) returns (r: Result<AACMappings, ParseError>)
      ensures r.Err? <==> Parse(lines).Err?
      ensures r.Err? ==> r.error == Parse(lines).error
      ensures r.Ok? ==>
        fresh(r.value) && r.value.Valid() && r.value.Model() == Parse(lines).value &&
        r.value.currentCategory == null && r.value.currentCategoryName == ""
    {
      var m := new AACMappings();
      var category: AACCategory? := null;
      ghost var key := "";
      for i := 0 to |lines|
        invariant m.Valid() && fresh(m) && m.currentCategory == null && m.currentCategoryName == ""
        invariant forall c | c in m.Stored() :: fresh(c)
        invariant category != null ==> fresh(category)
        invariant category != null ==> Get(m.categoryMappings, key) == Some(category)
        invariant Run(Init, lines[..i]) == Ok(ParseState(m.Model(), if category == null then None else Some(key)))
      {
        RunNext(lines, i);
        var next;
        next, key := m.ReadLine(lines[i], category, key);
        if next.Err? {
          RunStops(lines, i);
          return Err(next.error);
        }
        category := next.value;
      }
      assert lines[..|lines|] == lines;
      return Ok(m);
    }

    /**
     * One pass of the constructor's loop over `line`, with `category` the
     * object stored under `key`, or `null`: a category line stores a new
     * category and makes it current, an item line goes to the current
     * category or is ignored, and a line without the space the split needs
     * throws. Exactly the step `Step` takes on the store's value.
     */
    method ReadLine(line: string, category: AACCategory?, ghost key: string)
      returns (r: Result<AACCategory?, ParseError>, ghost key': string)
      requires Valid() && currentCategory == null && currentCategoryName == ""
      requires category != null ==> Get(categoryMappings, key) == Some(category)
      modifies this`categoryMappings, category
      ensures Valid() && currentCategory == null && currentCategoryName == ""
      ensures forall c | c in Stored() :: c in old(Stored()) || fresh(c)
      ensures r.Ok? && r.value != null ==> (r.value == category || fresh(r.value)) && Get(categoryMappings, key') == Some(r.value)
      ensures Step(ParseState(old(Model()), if category == null then None else Some(key)), line) ==
        match r case Err(e) => Err(e) case Ok(c) => Ok(ParseState(Model(), if c == null then None else Some(key')))
    {
      ModelGet(key);
      key' := key;
      if !IsItemLine(line) {
        var parts := SplitFirst(line);
        if parts.None? {
          return Err(MissingSpace(line)), key';
        }
        var added := new AACCategory(parts.value.1);
        AddCategory(parts.value.0, added);
        return Ok(added), parts.value.0;
      } else if category != null {
        var item := SplitFirst(line[1..]);
        if item.None? {
          return Err(MissingSpace(line)), key';
        }
        AddToStored(key, category, item.value.0, item.value.1);
      }
      r := Ok(category);
    }

    /** `categoryMappings.set(key, category)` with a new category object. */
    method AddCategory(key: string, category: AACCategory)
      requires Valid() && category.Valid() && category !in Stored() && currentCategory == null
      modifies this`categoryMappings
      ensures Valid()
      ensures Model() == Set(old(Model()), key, category.Record())
      ensures Get(categoryMappings, key) == Some(category)
      ensures Stored() <= old(Stored()) + {category}
    {
      ghost var before := categoryMappings;
      ghost var oldModel := Model();
      categoryMappings := Set(categoryMappings, key, category);
      SetDistinct(before, key, category);
      GetSetSame(before, key, category);
      var i := IndexOf(Keys(before), key);
      assert IndexOf(Keys(oldModel), key) == i;
      forall j | 0 <= j < |categoryMappings|
        ensures Model()[j] == Set(oldModel, key, category.Record())[j]
      {
        if j != i && j < |before| {
          assert categoryMappings[j] == before[j];
        }
      }
    }

    /** `category.addItem(loc, text)` on the category object stored under `key`. */
    method AddToStored(ghost key: string, category: AACCategory, loc: string, text: string)
      requires Valid() && Get(categoryMappings, key) == Some(category)
      modifies category
      ensures Valid()
      ensures Model() == AddToCategory(old(Model()), key, loc, text)
    {
      ghost var oldModel := Model();
      ghost var i := IndexOf(Keys(categoryMappings), key);
      assert categoryMappings[i].1 == category && oldModel[i] == (key, category.Record());
      ghost var updated := (key, CategoryRecord(category.categoryName, Set(category.items, loc, text)));
      assert AddToCategory(oldModel, key, loc, text) == oldModel[i := updated];
      category.AddItem(Some(loc), text);
      forall j | 0 <= j < |categoryMappings|
        ensures Model()[j] == oldModel[i := updated][j]
      {
        if j != i {
          assert categoryMappings[j].1 != category;
        }
      }
    }

    /**
     * `select`. At top level (empty `currentCategoryName`) a known category key
     * enters that category and returns ""; an unknown one throws
     * `NoSuchElementException` ("Category not found") and changes nothing.
     * Inside a category it returns that category's text for the image, or
     * throws ("Image not found"), and the state stays as it is.
     */
    method Select(imageLoc: string) returns (r: Result<string, NoSuchElement>)
      requires Valid()
      modifies this`currentCategory, this`currentCategoryName
      ensures Valid() && Model() == old(Model())
      ensures old(currentCategoryName) == "" && imageLoc !in Keys(Model()) ==>
        r == Err(CategoryNotFound(imageLoc)) &&
        currentCategory == old(currentCategory) && currentCategoryName == old(currentCategoryName)
      ensures old(currentCategoryName) == "" && imageLoc in Keys(Model()) ==>
        r == Ok("") && currentCategoryName == imageLoc && currentCategory != null &&
        Get(Model(), imageLoc) == Some(currentCategory.Record())
      ensures old(currentCategoryName) == "" && imageLoc in Keys(Model()) && imageLoc != "" ==>
        GetImageLocs() == Keys(Get(Model(), imageLoc).value.items) &&
        GetCategory() == Get(Model(), imageLoc).value.name
      ensures old(currentCategoryName) != "" ==>
        currentCategory == old(currentCategory) && currentCategoryName == old(currentCategoryName) &&
        Get(Model(), currentCategoryName).Some? &&
        var items := Get(Model(), currentCategoryName).value.items;
        (r.Ok? <==> imageLoc in Keys(items)) &&
        (r.Ok? ==> Get(items, imageLoc) == Some(r.value)) &&
        (r.Err? ==> r.error == ImageNotFound(imageLoc))
    {
      ModelGet(imageLoc);
      ModelGet(currentCategoryName);
      if currentCategoryName == "" {
        if !HasKey(categoryMappings, imageLoc) {
          return Err(CategoryNotFound(imageLoc));
        }
        currentCategoryName := imageLoc;
        currentCategory := Get(categoryMappings, imageLoc).value;
        ModelGet(imageLoc);
        return Ok("");
      } else {
        if !currentCategory.HasImage(imageLoc) {
          return Err(ImageNotFound(imageLoc));
        }
        r := currentCategory.Select(imageLoc);
      }
    }

    /** `getImageLocs`: the category keys at top level, else the current category's images. */
    function GetImageLocs(): (r: seq<string>)
      reads this, Stored()
      requires Valid()
      ensures currentCategoryName == "" ==> r == Keys(Model())
      ensures currentCategoryName != "" ==>
        Get(Model(), currentCategoryName).Some? && r == Keys(Get(Model(), currentCategoryName).value.items)
      ensures forall i, j :: 0 <= i < j < |r| ==> r[i] != r[j]
      ensures (currentCategory == null <==> currentCategoryName == "") ==> forall loc :: loc in r <==> HasImage(loc)
    {
      ModelGet(currentCategoryName);
      if currentCategoryName == "" then Keys(categoryMappings) else currentCategory.GetImageLocs()
    }

    /** `reset`: back to top level from any state; the categories stay as they are. */
    method Reset()
      requires Valid()
      modifies this`currentCategory, this`currentCategoryName
      ensures Valid() && Model() == old(Model())
      ensures currentCategory == null && currentCategoryName == ""
      ensures GetCategory() == "" && GetImageLocs() == Keys(Model())
    {
      currentCategoryName := "";
      currentCategory := null;
    }

    /**
     * `addItem`. With no current category it stores a new, empty category
     * named `text` under `imageLoc`, replacing any category already there;
     * inside a category it adds or overwrites `imageLoc` in that category.
     * A null location (`None`) is only logged and changes nothing.
     */
    method AddItem(imageLoc: Option<string>, text: string)
      requires Valid()
      modifies this`categoryMappings, currentCategory
      ensures Valid() && fresh(Stored() - old(Stored()))
      ensures currentCategory == old(currentCategory) && currentCategoryName == old(currentCategoryName)
      ensures old(currentCategory) == null ==>
        Model() == if imageLoc.None? then old(Model()) else Set(old(Model()), imageLoc.value, CategoryRecord(text, []))
      ensures old(currentCategory) != null ==>
        Model() == if imageLoc.None? then old(Model()) else AddToCategory(old(Model()), currentCategoryName, imageLoc.value, text)
    {
      if currentCategory == null {
        if imageLoc.Some? {
          var category := new AACCategory(text);
          AddCategory(imageLoc.value, category);
        }
      } else if imageLoc.Some? {
        AddToStored(currentCategoryName, currentCategory, imageLoc.value, text);
      }
    }

    /** `getCategory`: "" at top level, else the current category's name. */
    function GetCategory(): (r: string)
      reads this, Stored()
      requires Valid()
      ensures currentCategoryName == "" ==> r == ""
      ensures currentCategoryName != "" ==>
        Get(Model(), currentCategoryName).Some? && r == Get(Model(), currentCategoryName).value.name
    {
      ModelGet(currentCategoryName);
      if currentCategoryName == "" then "" else currentCategory.GetCategory()
    }

    /** `hasImage`: a category key with no current category, else an image of the current category. */
    function HasImage(imageLoc: string): (r: bool)
      reads this, Stored()
      requires Valid()
      ensures currentCategory == null ==> (r <==> imageLoc in Keys(Model()))
      ensures currentCategory != null ==>
        Get(Model(), currentCategoryName).Some? &&
        (r <==> imageLoc in Keys(Get(Model(), currentCategoryName).value.items))
    {
      ModelGet(currentCategoryName);
      if currentCategory == null then HasKey(categoryMappings, imageLoc) else currentCategory.HasImage(imageLoc)
    }

    /**
     * `writeToFile`, returning the lines it prints: each category line
     * followed by the item lines of that category, in store order.
     */
    method WriteToFile() returns (lines: seq<string>)
      requires Valid()
      ensures lines == Print(Model())
    {
      lines := [];
      ghost var model := Model();
      var categoryKeys := Keys(categoryMappings);
      for i := 0 to |categoryKeys|
        invariant lines == Print(model[..i])
      {
        var key := categoryKeys[i];
        GetAt(categoryMappings, i);
        var category := Get(categoryMappings, key).value;
        var categoryLines := WriteCategory(key, category);
        lines := lines + categoryLines;
        assert model[..i + 1][..i] == model[..i];
      }
      assert model[..|categoryKeys|] == model;
    }

    /** The inner loop of `writeToFile`: one category line, then one line per image. */
    static method WriteCategory(key: string, category: AACCategory) returns (lines: seq<string>)
      requires category.Valid()
      ensures lines == CategoryLines(key, category.Record())
    {
      lines := [key + " " + category.GetCategory()];
      var imageLocs := category.GetImageLocs();
      for j := 0 to |imageLocs|
        invariant lines == [key + " " + category.categoryName] + ItemLines(category.items[..j])
      {
        var img := imageLocs[j];
        GetAt(category.items, j);
        var text := category.Select(img).value;
        lines := lines + [">" + img + " " + text];
        assert category.items[..j + 1][..j] == category.items[..j];
      }
      assert category.items[..|imageLocs|] == category.items;
    }

    /** While no category is keyed by "", the two ways the class tests for top level agree. */
    lemma TopLevelTestsAgree()
      requires Valid() && "" !in Keys(Model())
      ensures currentCategory == null <==> currentCategoryName == ""
    {
      ModelGet(currentCategoryName);
    }
  }

  /**
   * `writeToFile` followed by the constructor on the file it wrote: the same
   * categories, names, images and texts in the same order, at top level.
   */
  method SaveAndReload(m: AACMappings) returns (r: Result<AACMappings, ParseError>)
    requires m.Valid() && Printable(m.Model())
    ensures r.Ok? && r.value.Valid() && r.value.Model() == m.Model()
    ensures r.value.currentCategory == null && r.value.currentCategoryName == ""
  {
    var lines := m.WriteToFile();
    ParsePrint(m.Model());
    r := AACMappings.Load(lines);
  }

  /** The example file of the class comment, as lines; each line is written as its location, a space and its text. */
  const ExampleFile: seq<string> := [
    "img/food/plate.png" + " " + "food",
    ">" + "img/food/icons8-french-fries-96.png" + " " + "french fries",
    ">" + "img/food/icons8-watermelon-96.png" + " " + "watermelon",
    "img/clothing/hanger.png" + " " + "clothing",
    ">" + "img/clothing/collaredshirt.png" + " " + "collared shirt"
  ]

  const Food := CategoryRecord("food", [("img/food/icons8-french-fries-96.png", "french fries"), ("img/food/icons8-watermelon-96.png", "watermelon")])
  const Clothing := CategoryRecord("clothing", [("img/clothing/collaredshirt.png", "collared shirt")])

  /** The store that file describes. */
  const ExampleBoard: Board := [("img/food/plate.png", Food), ("img/clothing/hanger.png", Clothing)]

  /** The lines `writeToFile` prints for "food" are the first three lines of the example file. */
  lemma FoodLines()
    ensures CategoryLines("img/food/plate.png", Food) == ExampleFile[..3]
  {
    var fries := Food.items[0];
    var noItems: Entries<string> := [];
    ItemLinesAppend(noItems, fries.0, fries.1);
    ItemLinesAppend([fries], Food.items[1].0, Food.items[1].1);
    assert noItems + [fries] == [fries] && [fries] + [Food.items[1]] == Food.items;
    assert ExampleFile[..3] == [ExampleFile[0], ExampleFile[1], ExampleFile[2]];
  }

  /** The lines `writeToFile` prints for "clothing" are the last two lines of the example file. */
  lemma ClothingLines()
    ensures CategoryLines("img/clothing/hanger.png", Clothing) == ExampleFile[3..]
  {
    var noItems: Entries<string> := [];
    ItemLinesAppend(noItems, Clothing.items[0].0, Clothing.items[0].1);
    assert noItems + [Clothing.items[0]] == Clothing.items;
    assert ExampleFile[3..] == [ExampleFile[3], ExampleFile[4]];
  }

  /** No key of the example store has a space, and no category key starts with `>`. */
  lemma ExamplePrintable()
    ensures Printable(ExampleBoard)
  {
    assert ' ' !in "img/food/plate.png" && ' ' !in "img/clothing/hanger.png";
    assert ' ' !in "img/food/icons8-french-fries-96.png" && ' ' !in "img/food/icons8-watermelon-96.png";
    assert ' ' !in "img/clothing/collaredshirt.png";
    assert DistinctKeys(Food.items) && DistinctKeys(Clothing.items) && DistinctKeys(ExampleBoard);
  }

  /** `writeToFile` on the example store prints the example file. */
  lemma ExamplePrinted()
    ensures Print(ExampleBoard) == ExampleFile
  {
    FoodLines();
    ClothingLines();
    var noCategories: Board := [];
    assert ExampleBoard[..1][..0] == noCategories && ExampleBoard[..1] == [ExampleBoard[0]];
    assert Print(ExampleBoard[..1]) == CategoryLines("img/food/plate.png", Food);
    assert ExampleFile[..3] + ExampleFile[3..] == ExampleFile;
  }

  /** The example file parses to the store it describes. */
  lemma ExampleParses()
    ensures Parse(ExampleFile) == Ok(ExampleBoard)
  {
    ExamplePrintable();
    ExamplePrinted();
    ParsePrint(ExampleBoard);
  }

  /** Loading the example file gives its store, at top level. */
  method ExampleSession()
  {
    ExampleParses();
    var r := AACMappings.Load(ExampleFile);
    BrowseExample(r.value);
  }

  /** The keys of the example store and of its "food" category, and what `get` finds under the first of each. */
  lemma ExampleLookups()
    ensures Keys(ExampleBoard) == ["img/food/plate.png", "img/clothing/hanger.png"]
    ensures Get(ExampleBoard, "img/food/plate.png") == Some(Food)
    ensures Get(Food.items, "img/food/icons8-french-fries-96.png") == Some("french fries")
  {
    ExamplePrintable();
    GetAt(ExampleBoard, 0);
    GetAt(Food.items, 0);
  }

  /** The example store browsed as a user would: open "food", speak "french fries", go back. */
  method BrowseExample(m: AACMappings)
    requires m.Valid() && m.Model() == ExampleBoard && m.currentCategoryName == ""
    modifies m`currentCategory, m`currentCategoryName
  {
    ExampleLookups();
    var said := m.Select("img/food/plate.png");
    assert said == Ok("") && m.GetImageLocs() == Keys(Food.items);
    said := m.Select("img/food/icons8-french-fries-96.png");
    assert said == Ok("french fries");
    m.Reset();
    assert m.GetImageLocs() == ["img/food/plate.png", "img/clothing/hanger.png"];
  }

  /**
   * A category keyed by "": selecting it sets `currentCategory` but leaves
   * `currentCategoryName` empty, so the methods that test the name still act
   * at top level while `addItem` and `hasImage`, which test the object, act
   * inside the category.
   */
  method EmptyKeySession()
  {
    var m := new AACMappings();
    m.AddItem(Some(""), "blank");
    GetSetSame([], "", CategoryRecord("blank", []));
    var said := m.Select("");
    assert said == Ok("") && m.currentCategory != null && m.currentCategoryName == "";
    m.AddItem(Some("a"), "apple");
    assert m.GetImageLocs() == [""];
    assert !m.HasImage("") && m.HasImage("a");
    assert m.GetCategory() == "";
    said := m.Select("a");
    assert said == Err(CategoryNotFound("a"));
  }
}
