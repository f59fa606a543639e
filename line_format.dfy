/**
 * The line-based text format that `AACMappings` reads in its constructor and
 * writes in `writeToFile`. A category line is `key SP name`; an item line is
 * `>loc SP text` and belongs to the most recent category; each line is split
 * on its first space only. A file is modelled as its sequence of lines.
 */
module LineFormat {
  import opened Wrappers
  import opened Sequences
  import opened AssociativeArray
  import opened Categories

  /** Category key -> category, in insertion order. */
  type Board = Entries<CategoryRecord>

  /** Keys distinct at both levels, as `set` keeps them. */
  predicate WellFormed(b: Board)
  {
    DistinctKeys(b) && forall i | 0 <= i < |b| :: DistinctKeys(b[i].1.items)
  }

  /**
   * `s.split(" ", 2)`: the text before and after the first space, or `None`
   * when there is no space and the split yields a single part.
   */
  function SplitFirst(s: string): (r: Option<(string, string)>)
    ensures r.None? <==> ' ' !in s
    ensures r.Some? ==> r.value.0 + " " + r.value.1 == s && ' ' !in r.value.0
  {
    var i := IndexOf(s, ' ');
    if i < 0 then None
    else
      assert s == s[..i] + " " + s[i + 1..];
      Some((s[..i], s[i + 1..]))
  }

  /** Splitting undoes joining, when the first part has no space. */
  lemma SplitJoin(a: string, b: string)
    requires ' ' !in a
    ensures SplitFirst(a + " " + b) == Some((a, b))
  {
    var s := a + " " + b;
    var i := IndexOf(s, ' ');
    assert s[|a|] == ' ';
    assert s[..|a|] == a;
    assert s[|a| + 1..] == b;
  }

  /** `line.startsWith(">")`. */
  predicate IsItemLine(line: string)
  {
    |line| > 0 && line[0] == '>'
  }

  /** A line whose split gives the two parts the constructor reads: a space after the `>` of an item line, anywhere in a category line. */
  predicate Splittable(line: string)
  {
    if IsItemLine(line) then ' ' in line[1..] else ' ' in line
  }

  /**
   * A line on which the parser throws `ArrayIndexOutOfBoundsException`
   * (the split gave one part); the constructor does not catch it.
   */
  datatype ParseError = MissingSpace(line: string)

  /** What the constructor's loop carries: the store so far and the key of `category` (`None` for `null`). */
  datatype ParseState = ParseState(board: Board, current: Option<string>)

  predicate StateOk(st: ParseState)
  {
    WellFormed(st.board) && (st.current.Some? ==> st.current.value in Keys(st.board))
  }

  /** `category.addItem(loc, text)` on the category stored under `k`. */
  function AddToCategory(b: Board, k: string, loc: string, text: string): (r: Board)
    ensures Keys(r) == Keys(b)
    ensures WellFormed(b) ==> WellFormed(r)
    ensures WellFormed(b) ==> forall k' :: k' != k ==> Get(r, k') == Get(b, k')
    ensures WellFormed(b) && Get(b, k).Some? ==>
      var c := Get(b, k).value;
      Get(r, k) == Some(CategoryRecord(c.name, Set(c.items, loc, text)))
  {
    var i := IndexOf(Keys(b), k);
    if i < 0 then b
    else
      var r := b[i := (k, CategoryRecord(b[i].1.name, Set(b[i].1.items, loc, text)))];
      assert Keys(r) == Keys(b);
      if WellFormed(b) then
        SetDistinct(b[i].1.items, loc, text);
        assert DistinctKeys(r);
        GetAt(r, i);
        forall k' | k' != k ensures Get(r, k') == Get(b, k') {
          var j := IndexOf(Keys(b), k');
          if j >= 0 {
            GetAt(r, j);
            GetAt(b, j);
          }
        }
        r
      else r
  }

  /**
   * One iteration of the constructor's loop. It throws exactly on a line that
   * does not split, unless that is an item line read while `category` is
   * `null`. A category line that splits makes its key current, and that key
   * with the stored name spells the line back; an item line keeps `category`.
   */
  function Step(st: ParseState, line: string): (r: Result<ParseState, ParseError>)
    ensures r.Err? <==> !Splittable(line) && (IsItemLine(line) ==> st.current.Some?)
    ensures r.Err? ==> r.error == MissingSpace(line)
    ensures IsItemLine(line) && r.Ok? ==> r.value.current == st.current
    ensures IsItemLine(line) && st.current.None? ==> r == Ok(st)
    ensures !IsItemLine(line) && r.Ok? ==>
      r.value.current.Some? && ' ' !in r.value.current.value &&
      var found := Get(r.value.board, r.value.current.value);
      found.Some? && found.value.items == [] && r.value.current.value + " " + found.value.name == line
  {
    if !IsItemLine(line) then
      match SplitFirst(line)
      case None => Err(MissingSpace(line))
      case Some((k, name)) =>
        GetSetSame(st.board, k, CategoryRecord(name, []));
        Ok(ParseState(Set(st.board, k, CategoryRecord(name, [])), Some(k)))
    else if st.current.None? then Ok(st)
    else
      match SplitFirst(line[1..])
      case None => Err(MissingSpace(line))
      case Some((loc, text)) => Ok(ParseState(AddToCategory(st.board, st.current.value, loc, text), st.current))
  }

  /** The constructor's loop run over `lines` from `st`, stopping at the first line that throws. */
  function Run(st: ParseState, lines: seq<string>): (r: Result<ParseState, ParseError>)
    requires StateOk(st)
    ensures r.Ok? ==> StateOk(r.value)
    decreases |lines|
  {
    if lines == [] then Ok(st)
    else
      match Run(st, lines[..|lines| - 1])
      case Err(e) => Err(e)
      case Ok(s) =>
        var line := lines[|lines| - 1];
        var r := Step(s, line);
        if r.Ok? && !IsItemLine(line) then
          var k := r.value.current.value;
          SetDistinct(s.board, k, CategoryRecord(SplitFirst(line).value.1, []));
          SetKeys(s.board, k, CategoryRecord(SplitFirst(line).value.1, []));
          assert WellFormed(r.value.board) by {
            var i := IndexOf(Keys(s.board), k);
            forall j | 0 <= j < |r.value.board| ensures DistinctKeys(r.value.board[j].1.items) {
              if i < 0 && j == |s.board| {
              } else {
                assert r.value.board[j] == if j == i then (k, CategoryRecord(SplitFirst(line).value.1, [])) else s.board[j];
              }
            }
          }
          r
        else r
  }

  /** The empty store; `category` is `null`. */
  const Init := ParseState([], None)

  /** The constructor's parse of a file's lines into the store, or the exception it throws. */
  function Parse(lines: seq<string>): (r: Result<Board, ParseError>)
    ensures r.Ok? ==> WellFormed(r.value)
  {
    match Run(Init, lines)
    case Err(e) => Err(e)
    case Ok(s) => Ok(s.board)
  }

  /** `">" + img + " " + text` for each item, in order: one item line per item, each one that splits. */
  function ItemLines(items: Entries<string>): (r: seq<string>)
    ensures |r| == |items|
  {
    if items == [] then []
    else
      var (loc, text) := items[|items| - 1];
      ItemLines(items[..|items| - 1]) + [">" + loc + " " + text]
  }

  /** One more item prints one more item line, after the others. */
  lemma ItemLinesAppend(items: Entries<string>, loc: string, text: string)
    ensures ItemLines(items + [(loc, text)]) == ItemLines(items) + [">" + loc + " " + text]
  {
    assert (items + [(loc, text)])[..|items|] == items;
  }

  /** The lines `writeToFile` emits for one category: its category line, then one item line per item. */
  function CategoryLines(k: string, c: CategoryRecord): (r: seq<string>)
    ensures |r| == |c.items| + 1 && r[1..] == ItemLines(c.items)
  {
    [k + " " + c.name] + ItemLines(c.items)
  }

  /** The lines `writeToFile` emits for the whole store, at least one per category. */
  function Print(b: Board): (r: seq<string>)
    ensures |r| >= |b|
  {
    if b == [] then []
    else Print(b[..|b| - 1]) + CategoryLines(b[|b| - 1].0, b[|b| - 1].1)
  }

  /** Every item line printed is read as an item line and splits. */
  lemma {:induction false} ItemLinesSplit(items: Entries<string>)
    ensures forall i | 0 <= i < |ItemLines(items)| :: IsItemLine(ItemLines(items)[i]) && Splittable(ItemLines(items)[i])
  {
    if items != [] {
      var (loc, text) := items[|items| - 1];
      var line := ">" + loc + " " + text;
      assert line[1..] == loc + " " + text && line[1 + |loc|] == ' ';
      ItemLinesSplit(items[..|items| - 1]);
    }
  }

  /**
   * Every line printed for a category splits; its category line is read as a
   * category line exactly when the key does not start with `>`.
   */
  lemma CategoryLinesSplit(k: string, c: CategoryRecord)
    ensures AllSplit(CategoryLines(k, c))
    ensures IsItemLine(CategoryLines(k, c)[0]) <==> IsItemLine(k)
    ensures forall i | 1 <= i < |CategoryLines(k, c)| :: IsItemLine(CategoryLines(k, c)[i])
  {
    var header := k + " " + c.name;
    assert header[|k|] == ' ' && header[0] == if k == [] then ' ' else k[0];
    assert IsItemLine(header) ==> header[1..][|k| - 1] == ' ';
    ItemLinesSplit(c.items);
    assert forall i | 1 <= i < |CategoryLines(k, c)| :: CategoryLines(k, c)[i] == ItemLines(c.items)[i - 1];
  }

  /** Every line `writeToFile` emits splits, so reading it back never throws. */
  lemma {:induction false} PrintSplits(b: Board)
    ensures AllSplit(Print(b))
  {
    if b != [] {
      var pre := b[..|b| - 1];
      PrintSplits(pre);
      CategoryLinesSplit(b[|b| - 1].0, b[|b| - 1].1);
      var r := Print(b);
      assert forall i | 0 <= i < |r| :: r[i] == if i < |Print(pre)| then Print(pre)[i] else CategoryLines(b[|b| - 1].0, b[|b| - 1].1)[i - |Print(pre)|];
    }
  }

  /**
   * What a store must satisfy for its printed form to parse back: no key has a
   * space, no category key starts with `>`. (Names and texts may hold spaces;
   * that none holds a line break is below the level of this model.)
   */
  predicate Printable(b: Board)
  {
    WellFormed(b) && PrintableKeys(b)
  }

  /** No key has a space and no category key starts with `>`. */
  predicate PrintableKeys(b: Board)
  {
    forall i | 0 <= i < |b| ::
      ' ' !in b[i].0 && !IsItemLine(b[i].0) &&
      forall j | 0 <= j < |b[i].1.items| :: ' ' !in b[i].1.items[j].0
  }

  /** `category.addItem(loc, text)` changes at most the items of categories, each by that `set`. */
  lemma AddToCategoryEntries(b: Board, k: string, loc: string, text: string)
    ensures |AddToCategory(b, k, loc, text)| == |b|
    ensures forall j | 0 <= j < |b| ::
      var r := AddToCategory(b, k, loc, text);
      r[j] == b[j] || (r[j].0 == b[j].0 && r[j].1 == CategoryRecord(b[j].1.name, Set(b[j].1.items, loc, text)))
  {
  }

  /** One step of the loop keeps every key free of spaces and every category key free of a leading `>`. */
  lemma StepPrintable(st: ParseState, line: string)
    requires StateOk(st) && PrintableKeys(st.board) && Step(st, line).Ok?
    ensures PrintableKeys(Step(st, line).value.board)
  {
    if !IsItemLine(line) {
      var (k, name) := SplitFirst(line).value;
      SetEntries(st.board, k, CategoryRecord(name, []));
      assert |k| > 0 ==> line[0] == k[0] by {
        assert |k| > 0 ==> (k + " " + name)[0] == k[0];
      }
    } else if st.current.Some? {
      var (loc, text) := SplitFirst(line[1..]).value;
      AddToCategoryEntries(st.board, st.current.value, loc, text);
      forall j | 0 <= j < |st.board|
        ensures forall x | 0 <= x < |Set(st.board[j].1.items, loc, text)| :: ' ' !in Set(st.board[j].1.items, loc, text)[x].0
      {
        SetEntries(st.board[j].1.items, loc, text);
      }
    }
  }

  /** Every store the constructor builds is printable: the precondition of the round trip always holds after a load. */
  lemma {:induction false} RunPrintable(lines: seq<string>)
    requires Run(Init, lines).Ok?
    ensures Printable(Run(Init, lines).value.board)
  {
    if lines != [] {
      var pre := lines[..|lines| - 1];
      RunPrintable(pre);
      StepPrintable(Run(Init, pre).value, lines[|lines| - 1]);
    }
  }

  /** Load, save, load: whatever a file loads to, the lines `writeToFile` prints for it load to the same store. */
  lemma ParsePrintParse(lines: seq<string>)
    requires Parse(lines).Ok?
    ensures Parse(Print(Parse(lines).value)) == Parse(lines)
  {
    RunPrintable(lines);
    ParsePrint(Parse(lines).value);
  }

  /** Running over two pieces runs over the first, then over the second from where the first stopped. */
  lemma {:induction false} RunConcat(st: ParseState, xs: seq<string>, ys: seq<string>)
    requires StateOk(st)
    ensures Run(st, xs + ys) == match Run(st, xs) case Err(e) => Err(e) case Ok(s) => Run(s, ys)
    decreases |ys|
  {
    if ys == [] {
      assert xs + ys == xs;
    } else {
      var n := |ys| - 1;
      assert (xs + ys)[..|xs + ys| - 1] == xs + ys[..n];
      RunConcat(st, xs, ys[..n]);
    }
  }

  /** A key absent from the entries before position `|pre|` is found there. */
  lemma IndexAfter<V>(pre: Entries<V>, k: string, v: V, rest: Entries<V>)
    requires k !in Keys(pre)
    ensures IndexOf(Keys(pre + [(k, v)] + rest), k) == |pre|
  {
    var ks := Keys(pre + [(k, v)] + rest);
    assert ks[..|pre|] == Keys(pre);
    IndexOfUnique(ks, k, |pre|);
  }

  /** Appending an entry under a new key keeps keys distinct. */
  lemma AppendDistinct<V>(s: Entries<V>, k: string, v: V)
    requires DistinctKeys(s) && k !in Keys(s)
    ensures DistinctKeys(s + [(k, v)])
  {
    forall x | 0 <= x < |s| ensures s[x].0 != k {
      assert Keys(s)[x] == s[x].0;
    }
  }

  /** A prefix of entries with distinct keys has distinct keys. */
  lemma DistinctPrefix<V>(s: Entries<V>, n: nat)
    requires DistinctKeys(s) && n <= |s|
    ensures DistinctKeys(s[..n])
  {
    assert forall x | 0 <= x < n :: s[..n][x] == s[x];
  }

  /** Appending a category under a new key keeps the store well formed. */
  lemma AppendCategory(pre: Board, k: string, c: CategoryRecord)
    requires WellFormed(pre) && k !in Keys(pre) && DistinctKeys(c.items)
    ensures WellFormed(pre + [(k, c)]) && Keys(pre + [(k, c)]) == Keys(pre) + [k]
  {
    var b := pre + [(k, c)];
    assert forall x | 0 <= x < |pre| :: b[x] == pre[x] && b[x].0 == Keys(pre)[x];
  }

  /** An item line for a new location, with the last category current, appends the item to it. */
  lemma StepItem(pre: Board, k: string, name: string, head: Entries<string>, loc: string, text: string)
    requires WellFormed(pre) && k !in Keys(pre) && DistinctKeys(head + [(loc, text)]) && ' ' !in loc
    ensures Step(ParseState(pre + [(k, CategoryRecord(name, head))], Some(k)), ">" + loc + " " + text)
         == Ok(ParseState(pre + [(k, CategoryRecord(name, head + [(loc, text)]))], Some(k)))
  {
    var line := ">" + loc + " " + text;
    assert line[1..] == loc + " " + text;
    SplitJoin(loc, text);
    var b := pre + [(k, CategoryRecord(name, head))];
    IndexAfter(pre, k, CategoryRecord(name, head), []);
    assert pre + [(k, CategoryRecord(name, head))] + [] == b;
    var full := head + [(loc, text)];
    forall x | 0 <= x < |head| ensures Keys(head)[x] != loc {
      assert full[x] == head[x] && full[|head|].0 == loc;
    }
    assert loc !in Keys(head);
    assert Set(head, loc, text) == full;
    assert AddToCategory(b, k, loc, text) == b[|pre| := (k, CategoryRecord(name, full))];
    assert b[|pre| := (k, CategoryRecord(name, full))] == pre + [(k, CategoryRecord(name, full))];
  }

  /** The item lines of one category, parsed right after its category line, rebuild its items. */
  lemma {:induction false} RunItems(pre: Board, k: string, name: string, its0: Entries<string>, its: Entries<string>)
    requires WellFormed(pre) && k !in Keys(pre) && DistinctKeys(its0 + its)
    requires forall j | 0 <= j < |its| :: ' ' !in its[j].0
    ensures StateOk(ParseState(pre + [(k, CategoryRecord(name, its0))], Some(k)))
    ensures Run(ParseState(pre + [(k, CategoryRecord(name, its0))], Some(k)), ItemLines(its))
         == Ok(ParseState(pre + [(k, CategoryRecord(name, its0 + its))], Some(k)))
    decreases |its|
  {
    assert (its0 + its)[..|its0|] == its0;
    DistinctPrefix(its0 + its, |its0|);
    AppendCategory(pre, k, CategoryRecord(name, its0));
    if its == [] {
      assert its0 + its == its0;
    } else {
      var n := |its| - 1;
      var head := its0 + its[..n];
      assert its0 + its == head + [its[n]];
      assert head == (its0 + its)[..|its0| + n];
      RunItems(pre, k, name, its0, its[..n]);
      assert ItemLines(its)[..|ItemLines(its)| - 1] == ItemLines(its[..n]);
      StepItem(pre, k, name, head, its[n].0, its[n].1);
    }
  }

  /** A category line for a new key appends an empty category and makes it current. */
  lemma RunHeader(st: ParseState, k: string, name: string)
    requires StateOk(st) && k !in Keys(st.board) && ' ' !in k && !IsItemLine(k)
    ensures Run(st, [k + " " + name]) == Ok(ParseState(st.board + [(k, CategoryRecord(name, []))], Some(k)))
  {
    var header := k + " " + name;
    var noLines: seq<string> := [];
    assert [header][..0] == noLines;
    assert header[0] == if k == [] then ' ' else k[0];
    SplitJoin(k, name);
  }

  lemma PrintablePrefix(b: Board, n: nat)
    requires Printable(b) && n <= |b|
    ensures Printable(b[..n])
  {
    assert forall i | 0 <= i < n :: b[..n][i] == b[i];
  }

  /** The lines of one category, parsed after the categories before it, append it and make it current. */
  lemma RunCategory(st: ParseState, k: string, c: CategoryRecord)
    requires StateOk(st) && k !in Keys(st.board) && ' ' !in k && !IsItemLine(k)
    requires DistinctKeys(c.items) && forall j | 0 <= j < |c.items| :: ' ' !in c.items[j].0
    ensures Run(st, CategoryLines(k, c)) == Ok(ParseState(st.board + [(k, c)], Some(k)))
  {
    RunConcat(st, [k + " " + c.name], ItemLines(c.items));
    RunHeader(st, k, c.name);
    var noItems: Entries<string> := [];
    assert noItems + c.items == c.items;
    RunItems(st.board, k, c.name, noItems, c.items);
  }

  /** Parsing the printed form of a store from an empty start gives the store back, with the last category current. */
  lemma {:induction false} RunPrint(b: Board)
    requires Printable(b)
    ensures Run(Init, Print(b)) == Ok(ParseState(b, if b == [] then None else Some(b[|b| - 1].0)))
  {
    if b != [] {
      var pre, k, c := SplitLastPrintable(b);
      RunPrint(pre);
      RunConcat(Init, Print(pre), CategoryLines(k, c));
      RunCategory(ParseState(pre, if pre == [] then None else Some(pre[|pre| - 1].0)), k, c);
    }
  }

  /** A printable store is a printable store followed by one last category, whose lines print after the others. */
  lemma SplitLastPrintable(b: Board) returns (pre: Board, k: string, c: CategoryRecord)
    requires Printable(b) && b != []
    ensures b == pre + [(k, c)] && Printable(pre) && Print(b) == Print(pre) + CategoryLines(k, c)
    ensures k !in Keys(pre) && ' ' !in k && !IsItemLine(k)
    ensures DistinctKeys(c.items) && forall j | 0 <= j < |c.items| :: ' ' !in c.items[j].0
  {
    var n := |b| - 1;
    pre, k, c := b[..n], b[n].0, b[n].1;
    assert Print(b) == Print(pre) + CategoryLines(k, c);
    PrintablePrefix(b, n);
    forall x | 0 <= x < n ensures Keys(pre)[x] != k {
      assert b[x].0 != b[n].0;
    }
    assert pre + [b[n]] == b;
  }

  /** Load after save: parsing what `writeToFile` prints reproduces the store, in the same order. */
  lemma ParsePrint(b: Board)
    requires Printable(b)
    ensures Parse(Print(b)) == Ok(b)
  {
    RunPrint(b);
  }

  /** The key a line that splits stores: the category key, or the image location after the `>`. */
  function Head(line: string): string
    requires Splittable(line)
  {
    if IsItemLine(line) then SplitFirst(line[1..]).value.0 else SplitFirst(line).value.0
  }

  /** Every line splits. */
  predicate AllSplit(lines: seq<string>)
  {
    forall i | 0 <= i < |lines| :: Splittable(lines[i])
  }

  /**
   * A file in the form `writeToFile` writes: it opens with a category line,
   * every line splits, no category key repeats, and no image location repeats
   * within the run of item lines under one category line.
   */
  predicate Canonical(lines: seq<string>)
  {
    (|lines| > 0 ==> !IsItemLine(lines[0])) &&
    AllSplit(lines) &&
    (forall i, j | 0 <= i < j < |lines| && !IsItemLine(lines[i]) && !IsItemLine(lines[j]) ::
       Head(lines[i]) != Head(lines[j])) &&
    (forall i, j | 0 <= i < j < |lines| && IsItemLine(lines[i]) && IsItemLine(lines[j]) &&
                   ItemsBetween(lines, i, j) ::
       Head(lines[i]) != Head(lines[j]))
  }

  lemma CanonicalPrefix(lines: seq<string>, n: nat)
    requires Canonical(lines) && n <= |lines|
    ensures Canonical(lines[..n])
  {
    var p := lines[..n];
    assert forall i | 0 <= i < n :: p[i] == lines[i];
    forall i, j | 0 <= i < j < n && IsItemLine(p[i]) && IsItemLine(p[j]) && ItemsBetween(p, i, j)
      ensures Head(p[i]) != Head(p[j])
    {
      assert ItemsBetween(lines, i, j);
    }
  }

  /**
   * What the loop has built after a canonical file: the printed store is the
   * file, the last category is current, every category key comes from a
   * category line and every item of the last category from the run of item
   * lines at the end.
   */
  predicate Rebuilt(lines: seq<string>, st: ParseState)
    requires AllSplit(lines)
  {
    Print(st.board) == lines &&
    (st.board == [] <==> lines == []) &&
    (st.board != [] ==> st.current == Some(st.board[|st.board| - 1].0)) &&
    FromCategoryLines(lines, Keys(st.board)) &&
    (st.board != [] ==> FromLastItems(lines, Keys(st.board[|st.board| - 1].1.items)))
  }

  /** Every key in `ks` is the key of a category line of `lines`. */
  predicate FromCategoryLines(lines: seq<string>, ks: seq<string>)
    requires AllSplit(lines)
  {
    forall x | x in ks :: exists i | 0 <= i < |lines| :: !IsItemLine(lines[i]) && Head(lines[i]) == x
  }

  /** Every location in `ks` is the location of an item line in the run of item lines that ends `lines`. */
  predicate FromLastItems(lines: seq<string>, ks: seq<string>)
    requires AllSplit(lines)
  {
    forall x | x in ks ::
      exists i | 0 <= i < |lines| ::
        IsItemLine(lines[i]) && Head(lines[i]) == x && ItemsBetween(lines, i, |lines|)
  }

  /** Every line strictly between positions `i` and `j` is an item line. */
  predicate ItemsBetween(lines: seq<string>, i: int, j: int)
    requires 0 <= i && j <= |lines|
  {
    forall m | i < m < j :: IsItemLine(lines[m])
  }

  /** An item line appended to a file extends a run of item lines that reached its end. */
  lemma ItemsExtend(pre: seq<string>, line: string, i: int)
    requires 0 <= i < |pre| && ItemsBetween(pre, i, |pre|) && IsItemLine(line)
    ensures ItemsBetween(pre + [line], i, |pre| + 1)
  {
    var lines := pre + [line];
    forall m | i < m < |lines| ensures IsItemLine(lines[m]) {
      if m < |pre| {
        assert lines[m] == pre[m];
      }
    }
  }

  /** A canonical file parses, and the loop's state after it is `Rebuilt`. */
  lemma {:induction false} CanonicalRun(lines: seq<string>)
    requires Canonical(lines)
    ensures Run(Init, lines).Ok? && Rebuilt(lines, Run(Init, lines).value)
  {
    if lines != [] {
      var n := |lines| - 1;
      var pre := lines[..n];
      assert lines == pre + [lines[n]];
      CanonicalPrefix(lines, n);
      CanonicalRun(pre);
      CanonicalStep(pre, lines[n], Run(Init, pre).value);
    }
  }

  /** One more line of a canonical file takes a rebuilt state to the state rebuilt from one more line. */
  lemma CanonicalStep(pre: seq<string>, line: string, st: ParseState)
    requires Canonical(pre + [line]) && Canonical(pre)
    requires StateOk(st) && Rebuilt(pre, st)
    ensures Step(st, line).Ok? && Rebuilt(pre + [line], Step(st, line).value)
  {
    var lines := pre + [line];
    assert lines[|pre|] == line;
    if !IsItemLine(line) {
      NewCategoryKey(pre, line, Keys(st.board));
      CategoryStep(pre, line, st);
    } else {
      assert pre != [] && st.board != [];
      NewLocation(pre, line, Keys(st.board[|st.board| - 1].1.items));
      ItemStep(pre, line, st);
    }
  }

  /** In a canonical file, a category line's key is not the key of an earlier category line. */
  lemma NewCategoryKey(pre: seq<string>, line: string, ks: seq<string>)
    requires Canonical(pre + [line]) && !IsItemLine(line)
    requires AllSplit(pre) && FromCategoryLines(pre, ks)
    ensures Splittable(line) && Head(line) !in ks
  {
    var lines := pre + [line];
    var n := |pre|;
    assert lines[n] == line;
    forall i | 0 <= i < n && !IsItemLine(pre[i]) ensures Head(pre[i]) != Head(line) {
      assert lines[i] == pre[i];
    }
  }

  /** In a canonical file, an item line's location is new to the run of item lines before it. */
  lemma NewLocation(pre: seq<string>, line: string, ks: seq<string>)
    requires Canonical(pre + [line]) && IsItemLine(line)
    requires AllSplit(pre) && FromLastItems(pre, ks)
    ensures Splittable(line) && Head(line) !in ks
  {
    var lines := pre + [line];
    var n := |pre|;
    assert lines[n] == line;
    forall i | 0 <= i < n && IsItemLine(pre[i]) && ItemsBetween(pre, i, n)
      ensures Head(pre[i]) != Head(line)
    {
      assert lines[i] == pre[i];
      assert forall m | i < m < n :: lines[m] == pre[m];
    }
  }

  /** A category line with a new key extends a rebuilt state by an empty category. */
  lemma CategoryStep(pre: seq<string>, line: string, st: ParseState)
    requires AllSplit(pre) && AllSplit(pre + [line]) && Splittable(line) && !IsItemLine(line)
    requires StateOk(st) && Rebuilt(pre, st) && Head(line) !in Keys(st.board)
    ensures Step(st, line).Ok? && Rebuilt(pre + [line], Step(st, line).value)
  {
    var (k, name) := SplitFirst(line).value;
    var rec := CategoryRecord(name, []);
    var b := st.board + [(k, rec)];
    assert Set(st.board, k, rec) == b;
    assert b[..|st.board|] == st.board;
    assert Print(b) == Print(st.board) + CategoryLines(k, rec);
    var noItems: Entries<string> := [];
    assert ItemLines(noItems) == [];
    assert CategoryLines(k, rec) == [line];
    SetKeys(st.board, k, rec);
    CategoryWitnesses(pre, line, Keys(st.board));
    assert Keys(b[|b| - 1].1.items) == [];
  }

  /** A category line keeps the category keys' witnesses and adds one for its own key. */
  lemma CategoryWitnesses(pre: seq<string>, line: string, cats: seq<string>)
    requires AllSplit(pre) && AllSplit(pre + [line]) && Splittable(line) && !IsItemLine(line)
    requires FromCategoryLines(pre, cats)
    ensures FromCategoryLines(pre + [line], cats + [Head(line)])
  {
    var lines := pre + [line];
    var n := |pre|;
    assert lines[n] == line;
    forall x | x in cats + [Head(line)]
      ensures exists i | 0 <= i < |lines| :: !IsItemLine(lines[i]) && Head(lines[i]) == x
    {
      if x == Head(line) {
        assert !IsItemLine(lines[n]) && Head(lines[n]) == x;
      } else {
        assert x in cats;
        var i :| 0 <= i < n && !IsItemLine(pre[i]) && Head(pre[i]) == x;
        assert lines[i] == pre[i];
      }
    }
  }

  /** An item line with a new location extends a rebuilt state: the item joins the last category. */
  lemma ItemStep(pre: seq<string>, line: string, st: ParseState)
    requires AllSplit(pre) && AllSplit(pre + [line]) && Splittable(line) && IsItemLine(line)
    requires StateOk(st) && Rebuilt(pre, st) && st.board != []
    requires Head(line) !in Keys(st.board[|st.board| - 1].1.items)
    ensures Step(st, line).Ok? && Rebuilt(pre + [line], Step(st, line).value)
  {
    ItemStepBoard(st, line);
    ItemWitnesses(pre, line, Keys(st.board), Keys(st.board[|st.board| - 1].1.items));
  }

  /** An item line with a new location appends the item to the last category, and its line to the printed store. */
  lemma ItemStepBoard(st: ParseState, line: string)
    requires Splittable(line) && IsItemLine(line)
    requires StateOk(st) && st.board != [] && st.current == Some(st.board[|st.board| - 1].0)
    requires Head(line) !in Keys(st.board[|st.board| - 1].1.items)
    ensures Step(st, line).Ok?
    ensures var r := Step(st, line).value;
      r.current == st.current && r.board != [] && Print(r.board) == Print(st.board) + [line] &&
      Keys(r.board) == Keys(st.board) && r.board[|r.board| - 1].0 == st.board[|st.board| - 1].0 &&
      Keys(r.board[|r.board| - 1].1.items) == Keys(st.board[|st.board| - 1].1.items) + [Head(line)]
  {
    var head, k, c, loc, text := LastCategory(st, line);
    var items := c.items + [(loc, text)];
    var r := Step(st, line).value;
    assert r == ParseState(head + [(k, CategoryRecord(c.name, items))], Some(k));
    PrintItem(head, k, c.name, c.items, loc, text);
    AppendCategory(head, k, CategoryRecord(c.name, items));
    AppendCategory(head, k, c);
    assert Keys(items) == Keys(c.items) + [loc];
  }

  /**
   * The parts `ItemStepBoard` works with: the categories before the last, the
   * last one, and the item line's location and text; the step appends the item
   * to the last category.
   */
  lemma LastCategory(st: ParseState, line: string)
    returns (head: Board, k: string, c: CategoryRecord, loc: string, text: string)
    requires Splittable(line) && IsItemLine(line)
    requires StateOk(st) && st.board != [] && st.current == Some(st.board[|st.board| - 1].0)
    requires Head(line) !in Keys(st.board[|st.board| - 1].1.items)
    ensures st == ParseState(head + [(k, c)], Some(k)) && WellFormed(head) && k !in Keys(head)
    ensures line == ">" + loc + " " + text && loc == Head(line) && ' ' !in loc
    ensures DistinctKeys(c.items + [(loc, text)])
    ensures Step(st, line) == Ok(ParseState(head + [(k, CategoryRecord(c.name, c.items + [(loc, text)]))], Some(k)))
  {
    head, k, c := SplitLast(st.board);
    loc, text := ItemParts(line);
    AppendDistinct(c.items, loc, text);
    StepItem(head, k, c.name, c.items, loc, text);
  }

  /** An item line that splits is `>`, its location, a space and its text. */
  lemma ItemParts(line: string) returns (loc: string, text: string)
    requires Splittable(line) && IsItemLine(line)
    ensures line == ">" + loc + " " + text && loc == Head(line) && ' ' !in loc
  {
    loc, text := SplitFirst(line[1..]).value.0, SplitFirst(line[1..]).value.1;
    assert line == [line[0]] + line[1..];
  }

  /** A well-formed store is the categories before its last one, which are well formed and lack its key, followed by the last one. */
  lemma SplitLast(b: Board) returns (head: Board, k: string, c: CategoryRecord)
    requires WellFormed(b) && b != []
    ensures b == head + [(k, c)] && WellFormed(head) && k !in Keys(head) && DistinctKeys(c.items)
  {
    var p := |b| - 1;
    head, k, c := b[..p], b[p].0, b[p].1;
    assert b == head + [(k, c)];
    assert forall x | 0 <= x < p :: head[x] == b[x];
    forall x | 0 <= x < p ensures Keys(head)[x] != k {
      assert head[x] == b[x];
    }
  }

  /** Appending an item to the last category appends its item line to the printed store. */
  lemma PrintItem(head: Board, k: string, name: string, items: Entries<string>, loc: string, text: string)
    ensures Print(head + [(k, CategoryRecord(name, items + [(loc, text)]))])
         == Print(head + [(k, CategoryRecord(name, items))]) + [">" + loc + " " + text]
  {
    var longer := items + [(loc, text)];
    ItemLinesAppend(items, loc, text);
    assert (head + [(k, CategoryRecord(name, longer))])[..|head|] == head;
    assert (head + [(k, CategoryRecord(name, items))])[..|head|] == head;
  }

  /** An item line keeps the category keys' witnesses and adds one for its own location. */
  lemma ItemWitnesses(pre: seq<string>, line: string, cats: seq<string>, locs: seq<string>)
    requires AllSplit(pre) && AllSplit(pre + [line]) && Splittable(line) && IsItemLine(line)
    requires FromCategoryLines(pre, cats) && FromLastItems(pre, locs)
    ensures FromCategoryLines(pre + [line], cats)
    ensures FromLastItems(pre + [line], locs + [Head(line)])
  {
    CategoryWitnessesKept(pre, line, cats);
    LocationWitnesses(pre, line, locs);
  }

  /** Any line keeps the witnesses of the category keys read before it. */
  lemma CategoryWitnessesKept(pre: seq<string>, line: string, cats: seq<string>)
    requires AllSplit(pre) && AllSplit(pre + [line])
    requires FromCategoryLines(pre, cats)
    ensures FromCategoryLines(pre + [line], cats)
  {
    var lines := pre + [line];
    forall x | x in cats
      ensures exists i | 0 <= i < |lines| :: !IsItemLine(lines[i]) && Head(lines[i]) == x
    {
      var i :| 0 <= i < |pre| && !IsItemLine(pre[i]) && Head(pre[i]) == x;
      assert lines[i] == pre[i];
    }
  }

  /** An item line keeps the witnesses of the last category's locations and adds one for its own. */
  lemma LocationWitnesses(pre: seq<string>, line: string, locs: seq<string>)
    requires AllSplit(pre) && AllSplit(pre + [line]) && Splittable(line) && IsItemLine(line)
    requires FromLastItems(pre, locs)
    ensures FromLastItems(pre + [line], locs + [Head(line)])
  {
    var lines := pre + [line];
    var n := |pre|;
    assert lines[n] == line;
    forall x | x in locs + [Head(line)]
      ensures exists i | 0 <= i < |lines| :: IsItemLine(lines[i]) && Head(lines[i]) == x && ItemsBetween(lines, i, |lines|)
    {
      if x == Head(line) {
        assert IsItemLine(lines[n]) && Head(lines[n]) == x && ItemsBetween(lines, n, |lines|);
      } else {
        assert x in locs;
        var i :| 0 <= i < n && IsItemLine(pre[i]) && Head(pre[i]) == x && ItemsBetween(pre, i, n);
        ItemsExtend(pre, line, i);
        assert lines[i] == pre[i];
      }
    }
  }

  /** Save after load: a canonical file loads, and `writeToFile` prints back exactly its lines. */
  lemma PrintParse(lines: seq<string>)
    requires Canonical(lines)
    ensures Parse(lines).Ok? && Print(Parse(lines).value) == lines
  {
    CanonicalRun(lines);
  }

  /** Item lines read while `category` is still `null` change nothing. */
  lemma {:induction false} RunOrphans(orphans: seq<string>)
    requires forall j :: 0 <= j < |orphans| ==> IsItemLine(orphans[j])
    ensures Run(Init, orphans) == Ok(Init)
  {
    if orphans != [] {
      RunOrphans(orphans[..|orphans| - 1]);
    }
  }

  /** Item lines before the first category line are ignored, even ones without a space. */
  lemma OrphanItemsIgnored(orphans: seq<string>, rest: seq<string>)
    requires forall j :: 0 <= j < |orphans| ==> IsItemLine(orphans[j])
    ensures Parse(orphans + rest) == Parse(rest)
  {
    RunOrphans(orphans);
    RunConcat(Init, orphans, rest);
  }

  /** `category` is `null` exactly while every line read so far was an item line. */
  lemma {:induction false} RunCurrent(lines: seq<string>)
    requires Run(Init, lines).Ok?
    ensures Run(Init, lines).value.current.None? <==> forall j :: 0 <= j < |lines| ==> IsItemLine(lines[j])
  {
    if lines != [] {
      var n := |lines| - 1;
      var pre := lines[..n];
      RunCurrent(pre);
      assert forall j :: 0 <= j < n ==> pre[j] == lines[j];
    }
  }

  /**
   * Whether the constructor throws on `line` after reading `before`: a
   * category line without a space, or an item line without a space after
   * its `>` once some category line has been read.
   */
  predicate Throws(before: seq<string>, line: string)
  {
    if IsItemLine(line) then
      (exists j :: 0 <= j < |before| && !IsItemLine(before[j])) && ' ' !in line[1..]
    else ' ' !in line
  }

  /** After `before` has been read without error, the next line throws exactly when `Throws` says so. */
  lemma StepThrows(before: seq<string>, line: string)
    requires Run(Init, before).Ok?
    ensures Step(Run(Init, before).value, line).Err? <==> Throws(before, line)
    ensures Step(Run(Init, before).value, line).Err? ==> Step(Run(Init, before).value, line).error == MissingSpace(line)
  {
    RunCurrent(before);
  }

  /** The parse fails at the first line on which the constructor throws. */
  lemma {:induction false} ParseFailsAt(lines: seq<string>, i: int)
    requires 0 <= i < |lines| && Throws(lines[..i], lines[i])
    requires forall j :: 0 <= j < i ==> !Throws(lines[..j], lines[j])
    ensures Run(Init, lines) == Err(MissingSpace(lines[i]))
    decreases |lines|
  {
    var n := |lines| - 1;
    var pre := lines[..n];
    forall j | 0 <= j < n && j <= i ensures pre[..j] == lines[..j] && pre[j] == lines[j] {
    }
    if i < n {
      ParseFailsAt(pre, i);
    } else {
      ParseSucceeds(pre);
      StepThrows(pre, lines[n]);
    }
  }

  /** The parse succeeds when no line makes the constructor throw. */
  lemma {:induction false} ParseSucceeds(lines: seq<string>)
    requires forall i :: 0 <= i < |lines| ==> !Throws(lines[..i], lines[i])
    ensures Run(Init, lines).Ok?
    decreases |lines|
  {
    if lines != [] {
      var n := |lines| - 1;
      var pre := lines[..n];
      assert forall j :: 0 <= j < n ==> lines[..j] == pre[..j] && lines[j] == pre[j];
      ParseSucceeds(pre);
      StepThrows(pre, lines[n]);
    }
  }

  /** A parse that succeeds read no line on which the constructor throws. */
  lemma {:induction false} ParseOkNoThrow(lines: seq<string>)
    requires Run(Init, lines).Ok?
    ensures forall i :: 0 <= i < |lines| ==> !Throws(lines[..i], lines[i])
    decreases |lines|
  {
    if lines != [] {
      var n := |lines| - 1;
      var pre := lines[..n];
      ParseOkNoThrow(pre);
      StepThrows(pre, lines[n]);
      assert forall j :: 0 <= j < n ==> lines[..j] == pre[..j] && lines[j] == pre[j];
    }
  }

  /** Parsing fails exactly at the first line on which the constructor throws, and only then. */
  lemma ParseFailure(lines: seq<string>)
    ensures forall i :: 0 <= i < |lines| && Throws(lines[..i], lines[i]) &&
                        (forall j :: 0 <= j < i ==> !Throws(lines[..j], lines[j])) ==>
                        Parse(lines) == Err(MissingSpace(lines[i]))
    ensures (forall i :: 0 <= i < |lines| ==> !Throws(lines[..i], lines[i])) <==> Parse(lines).Ok?
  {
    forall i | 0 <= i < |lines| && Throws(lines[..i], lines[i]) &&
               (forall j :: 0 <= j < i ==> !Throws(lines[..j], lines[j]))
      ensures Parse(lines) == Err(MissingSpace(lines[i]))
    {
      ParseFailsAt(lines, i);
    }
    if Run(Init, lines).Ok? {
      ParseOkNoThrow(lines);
    } else if forall i :: 0 <= i < |lines| ==> !Throws(lines[..i], lines[i]) {
      ParseSucceeds(lines);
    }
  }

  /** The parse of one more line is one more step. */
  lemma RunNext(lines: seq<string>, i: int)
    requires 0 <= i < |lines| && Run(Init, lines[..i]).Ok?
    ensures Run(Init, lines[..i + 1]) == Step(Run(Init, lines[..i]).value, lines[i])
  {
    assert lines[..i + 1][..i] == lines[..i];
  }

  /** Once a line throws, the rest of the file is not read. */
  lemma RunStops(lines: seq<string>, i: int)
    requires 0 <= i < |lines| && Run(Init, lines[..i + 1]).Err?
    ensures Run(Init, lines) == Run(Init, lines[..i + 1])
  {
    RunConcat(Init, lines[..i + 1], lines[i + 1..]);
    assert lines[..i + 1] + lines[i + 1..] == lines;
  }
}
