/**
 * Table assembly and output: the union of the records' keys becomes the sorted
 * column list, the header is rendered in the chosen key style, and rows (or, when
 * transposed, columns) are written one by one to a destination that may refuse
 * them. A row is a sequence of cell texts; CSV quoting is not part of this model.
 */
module CsvWriter {
  import opened Base
  import opened StrUtil
  import opened Token
  import opened Flattening
  import JsonPointer
  import Pointers
  import Sorting

  type Pointer = seq<Token>

  /** `KeyStyle`, an unsigned integer; values other than the four styles fall back to JSON Pointer text. */
  type KeyStyle = nat

  /** `/foo/bar/0/baz` */
  const JSONPointerStyle: KeyStyle := 0
  /** `foo/bar/0/baz` */
  const SlashStyle: KeyStyle := 1
  /** `foo.bar.0.baz` */
  const DotNotationStyle: KeyStyle := 2
  /** `foo.bar[0].baz` */
  const DotBracketStyle: KeyStyle := 3

  // ---------------------------------------------------------------------------
  // Cells, records and the header

  /** `toString` of a leaf: a string as itself, a number as its original text, a boolean as `true` or `false`. */
  function CellText(s: Scalar): string {
    match s
    case SStr(s) => s
    case SNum(t) => t
    case SBool(b) => if b then "true" else "false"
  }

  /** The cell of one record under one key: its text, or `""` when the record has no such key. */
  function Cell(kv: KeyValue, key: string): string {
    if key in kv then CellText(kv[key]) else ""
  }

  /** `toRecord`: one cell per key, in key order. */
  function ToRecord(kv: KeyValue, keys: seq<string>): (r: seq<string>)
    ensures |r| == |keys|
    ensures forall i :: 0 <= i < |keys| ==> r[i] == (if keys[i] in kv then CellText(kv[keys[i]]) else "")
  {
    if keys == [] then []
    else ToRecord(kv, keys[..|keys| - 1]) + [Cell(kv, keys[|keys| - 1])]
  }

  /** `toTransposedRecord`: the header text, then one cell per record, in record order. */
  function ToTransposedRecord(results: seq<KeyValue>, key: string, header: string): (r: seq<string>)
    ensures |r| == |results| + 1 && r[0] == header
    ensures forall i :: 0 <= i < |results| ==> r[i + 1] == (if key in results[i] then CellText(results[i][key]) else "")
  {
    if results == [] then [header]
    else ToTransposedRecord(results[..|results| - 1], key, header) + [Cell(results[|results| - 1], key)]
  }

  /**
   * `getHeader`: one header text per column in the writer's style; `None` stands
   * for the panic of dot-bracket style on a column whose first token is an index.
   */
  function GetHeader(style: KeyStyle, pts: seq<Pointer>): (r: Option<seq<string>>)
    ensures r.Some? ==> |r.value| == |pts|
    ensures r.None? <==> style == DotBracketStyle && exists i :: 0 <= i < |pts| && pts[i] != [] && IsIndex(pts[i][0])
    ensures style == JSONPointerStyle || style > DotBracketStyle ==> r == Some(Pointers.Strings(pts))
  {
    Pointers.DotNotationsFail(pts, false);
    Pointers.DotNotationsFail(pts, true);
    if style == SlashStyle then Some(Pointers.Slashes(pts))
    else if style == DotNotationStyle then Pointers.DotNotations(pts, false)
    else if style == DotBracketStyle then Pointers.DotNotations(pts, true)
    else Some(Pointers.Strings(pts))
  }

  // ---------------------------------------------------------------------------
  // The columns

  /** Every key of every record. */
  function AllKeys(results: seq<KeyValue>): set<string> {
    if results == [] then {} else AllKeys(results[..|results| - 1]) + results[|results| - 1].Keys
  }

  lemma {:induction false} AllKeysMember(results: seq<KeyValue>, i: nat, k: string)
    requires i < |results| && k in results[i]
    ensures k in AllKeys(results)
  {
    if i < |results| - 1 {
      AllKeysMember(results[..|results| - 1], i, k);
    }
  }

  lemma AllKeysStep(results: seq<KeyValue>, i: nat)
    requires i < |results|
    ensures AllKeys(results[..i + 1]) == AllKeys(results[..i]) + results[i].Keys
  {
    assert results[..i + 1][..i] == results[..i];
  }

  /** The pointer a key parses to, when it parses. */
  function ParseKey(k: string): Pointer {
    JsonPointer.TokensOf(TrimSpace(k))
  }

  function ParseAll(ks: seq<string>): (r: seq<Pointer>)
    ensures |r| == |ks| && forall i :: 0 <= i < |ks| ==> r[i] == ParseKey(ks[i])
  {
    if ks == [] then [] else [ParseKey(ks[0])] + ParseAll(ks[1..])
  }

  lemma ParseAllAppend(s: seq<string>, t: seq<string>)
    ensures ParseAll(s + t) == ParseAll(s) + ParseAll(t)
  {
  }

  lemma SplitAt<T>(t: seq<T>, i: nat)
    requires i < |t|
    ensures t == t[..i] + [t[i]] + t[i + 1..]
  {
  }

  lemma MultisetRemove<T>(t: seq<T>, i: nat)
    requires i < |t|
    ensures multiset(t[..i] + t[i + 1..]) == multiset(t) - multiset{t[i]}
  {
    SplitAt(t, i);
  }

  lemma ParseAllRemove(t: seq<string>, i: nat)
    requires i < |t|
    ensures multiset(ParseAll(t)) == multiset{ParseKey(t[i])} + multiset(ParseAll(t[..i] + t[i + 1..]))
  {
    SplitAt(t, i);
    ParseAllAppend(t[..i] + [t[i]], t[i + 1..]);
    ParseAllAppend(t[..i], [t[i]]);
    ParseAllAppend(t[..i], t[i + 1..]);
  }

  /** Rearranging the keys rearranges their pointers the same way. */
  lemma {:induction false} ParseAllMultiset(s: seq<string>, t: seq<string>)
    requires multiset(s) == multiset(t)
    ensures multiset(ParseAll(s)) == multiset(ParseAll(t))
  {
    if s == [] {
      assert |t| == |multiset(t)| == 0;
    } else {
      var x := s[0];
      assert x in multiset(t);
      var i :| 0 <= i < |t| && t[i] == x;
      MultisetRemove(t, i);
      Sorting.TailMultiset(s);
      ParseAllMultiset(s[1..], t[..i] + t[i + 1..]);
      ParseAllRemove(t, i);
      assert ParseAll(s) == [ParseKey(x)] + ParseAll(s[1..]);
    }
  }

  /** The columns: the pointers of all keys in `pointers.Less` order. */
  ghost function Columns(results: seq<KeyValue>): seq<Pointer> {
    Sorting.SortSeq(ParseAll(SetToSeq(AllKeys(results))), Pointers.Less)
  }

  /** The column order follows `pointers.Less`, whatever order the keys were met in. */
  lemma ColumnsSorted(results: seq<KeyValue>)
    ensures Sorting.Sorted(Columns(results), Pointers.Less)
  {
    Pointers.LessIsStrictTotalOrder();
    Sorting.SortSeqSorted(ParseAll(SetToSeq(AllKeys(results))), Pointers.Less);
  }

  // ---------------------------------------------------------------------------
  // The table

  /** The record rows: one per record, in record order. */
  function Rows(results: seq<KeyValue>, keys: seq<string>): (r: seq<seq<string>>)
    ensures |r| == |results|
    ensures forall i :: 0 <= i < |results| ==> r[i] == ToRecord(results[i], keys)
  {
    if results == [] then [] else Rows(results[..|results| - 1], keys) + [ToRecord(results[|results| - 1], keys)]
  }

  /** The transposed rows: one per column, in column order. */
  function TransposedRows(results: seq<KeyValue>, keys: seq<string>, header: seq<string>): (r: seq<seq<string>>)
    requires |header| == |keys|
    ensures |r| == |keys|
    ensures forall i :: 0 <= i < |keys| ==> r[i] == ToTransposedRecord(results, keys[i], header[i])
  {
    if keys == [] then []
    else
      var n := |keys| - 1;
      TransposedRows(results, keys[..n], header[..n]) + [ToTransposedRecord(results, keys[n], header[n])]
  }

  /** What `writeCSV` emits: the header row, then the record rows; `None` when the header panics. */
  ghost function Table(style: KeyStyle, results: seq<KeyValue>): Option<seq<seq<string>>> {
    var cols := Columns(results);
    match GetHeader(style, cols)
    case None => None
    case Some(header) => Some([header] + Rows(results, Pointers.Strings(cols)))
  }

  /** What `writeTransposedCSV` emits: one row per column; `None` when the header panics. */
  ghost function TransposedTable(style: KeyStyle, results: seq<KeyValue>): Option<seq<seq<string>>> {
    var cols := Columns(results);
    match GetHeader(style, cols)
    case None => None
    case Some(header) => Some(TransposedRows(results, Pointers.Strings(cols), header))
  }

  /** Row mode: a header row and one row per record, each with one cell per column. */
  lemma TableShape(style: KeyStyle, results: seq<KeyValue>)
    requires Table(style, results).Some?
    ensures |Table(style, results).value| == |results| + 1
    ensures forall i :: 0 <= i <= |results| ==> |Table(style, results).value[i]| == |Columns(results)|
  {
    var cols := Columns(results);
    var header, keys := GetHeader(style, cols).value, Pointers.Strings(cols);
    var t := [header] + Rows(results, keys);
    assert Table(style, results).value == t;
    forall j | 0 <= j <= |results| ensures |t[j]| == |cols| {
      if j > 0 {
        assert t[j] == ToRecord(results[j - 1], keys);
      }
    }
  }

  /** Transposed mode: one row per column, each holding the header text and one cell per record. */
  lemma TransposedShape(style: KeyStyle, results: seq<KeyValue>)
    requires TransposedTable(style, results).Some?
    ensures |TransposedTable(style, results).value| == |Columns(results)|
    ensures forall i :: 0 <= i < |Columns(results)| ==> |TransposedTable(style, results).value[i]| == |results| + 1
  {
    var cols := Columns(results);
    var header, keys := GetHeader(style, cols).value, Pointers.Strings(cols);
    assert TransposedTable(style, results).value == TransposedRows(results, keys, header);
  }

  lemma TransposedRowsTranspose(results: seq<KeyValue>, keys: seq<string>, header: seq<string>)
    requires |header| == |keys|
    ensures forall i, j :: 0 <= i < |keys| && 0 <= j <= |results| ==>
      TransposedRows(results, keys, header)[i][j] == ([header] + Rows(results, keys))[j][i]
  {
    var t := [header] + Rows(results, keys);
    forall i, j | 0 <= i < |keys| && 0 <= j <= |results|
      ensures TransposedRows(results, keys, header)[i][j] == t[j][i]
    {
      if j > 0 {
        assert t[j] == ToRecord(results[j - 1], keys);
      }
    }
  }

  /** The transposed table is the row-mode table with rows and columns exchanged. */
  lemma TransposedIsTranspose(style: KeyStyle, results: seq<KeyValue>)
    ensures Table(style, results).Some? <==> TransposedTable(style, results).Some?
    ensures Table(style, results).Some? ==>
      var t, u := Table(style, results).value, TransposedTable(style, results).value;
      && |t| == |results| + 1 && |u| == |Columns(results)|
      && (forall j :: 0 <= j <= |results| ==> |t[j]| == |Columns(results)|)
      && (forall i :: 0 <= i < |Columns(results)| ==> |u[i]| == |results| + 1)
      && (forall i, j :: 0 <= i < |Columns(results)| && 0 <= j <= |results| ==> u[i][j] == t[j][i])
  {
    var cols := Columns(results);
    if GetHeader(style, cols).Some? {
      var header, keys := GetHeader(style, cols).value, Pointers.Strings(cols);
      TableShape(style, results);
      TransposedShape(style, results);
      TransposedRowsTranspose(results, keys, header);
    }
  }

  /** With no records, row mode writes one empty header row and transposed mode writes nothing. */
  lemma NoRecords(style: KeyStyle)
    ensures Table(style, []) == Some([[]])
    ensures TransposedTable(style, []) == Some([])
  {
    assert AllKeys([]) == {};
    assert SetToSeq({}) == [];
    assert Columns([]) == [];
    assert GetHeader(style, []) == Some([]);
    assert Pointers.Strings([]) == [];
    assert Rows([], []) == [];
    assert [[]] + Rows([], []) == [[]];
    assert TransposedRows([], [], []) == [];
  }

  lemma TrailingSpaceColumns(results: seq<KeyValue>)
    requires results == [map["/B " := SStr("foo")]]
    ensures Columns(results) == [["B"]]
  {
    assert AllKeys(results) == {"/B "} by {
      assert results[..0] == [];
    }
    SingletonToSeq("/B ");
    TrailingSpaceParse();
  }

  lemma TrailingSpaceTrim()
    ensures TrimSpace("/B ") == "/B"
  {
    assert TrimLeft("/B ") == "/B ";
    assert "/B "[..2] == "/B";
    assert TrimRight("/B ") == "/B";
  }

  lemma TrailingSpaceParse()
    ensures ParseKey("/B ") == ["B"]
  {
    TrailingSpaceTrim();
    SplitNoSeparator("B", '/');
    assert "/B"[1..] == "B";
    assert JsonPointer.TokensOf("/B") == JsonPointer.UnescapeAll(["B"]);
  }

  /**
   * Cells are found by the re-rendered column text: a key with trailing white space
   * parses to a pointer whose text lacks the space, so its value is not found.
   */
  lemma TrailingSpaceKeyNotFound()
    ensures Table(JSONPointerStyle, [map["/B " := SStr("foo")]]) == Some([["/B"], [""]])
  {
    var results := [map["/B " := SStr("foo")]];
    var p: Pointer := ["B"];
    calc {
      Table(JSONPointerStyle, results);
      == { PointerStyleTable(results); }
      Some([Pointers.Strings(Columns(results))] + Rows(results, Pointers.Strings(Columns(results))));
      == { TrailingSpaceColumns(results); TrailingSpaceHeader(p); }
      Some([["/B"]] + Rows(results, ["/B"]));
      == { TrailingSpaceRows(results); }
      Some([["/B"]] + [[""]]);
      == { assert [["/B"]] + [[""]] == [["/B"], [""]]; }
      Some([["/B"], [""]]);
    }
  }

  lemma PointerStyleTable(results: seq<KeyValue>)
    ensures var keys := Pointers.Strings(Columns(results));
      Table(JSONPointerStyle, results) == Some([keys] + Rows(results, keys))
  {
  }

  lemma TrailingSpaceHeader(p: Pointer)
    requires p == ["B"]
    ensures Pointers.Strings([p]) == ["/B"]
  {
    var e := JsonPointer.EscapedStrings(p);
    assert EscapedString("B") == "B" by {
      assert '~' !in "B" && '/' !in "B";
    }
    assert e == ["B"];
    assert Join(e, "/") == "B";
    assert JsonPointer.String(p) == "/B";
    var r := Pointers.Strings([p]);
    assert |r| == 1 && r[0] == "/B";
  }

  lemma TrailingSpaceRows(results: seq<KeyValue>)
    requires results == [map["/B " := SStr("foo")]]
    ensures Rows(results, ["/B"]) == [[""]]
  {
    assert "/B" !in results[0];
    assert ToRecord(results[0], ["/B"]) == [""];
  }

  // ---------------------------------------------------------------------------
  // Collecting and sorting the columns

  /** Every key of every record parses as a pointer. */
  ghost predicate KeysParse(results: seq<KeyValue>) {
    forall k :: k in AllKeys(results) ==> JsonPointer.New(k).Ok?
  }

  /** `e` is the parse error of some key of some record. */
  ghost predicate KeyFailsWith(results: seq<KeyValue>, e: Error) {
    exists k :: k in AllKeys(results) && JsonPointer.New(k) == Err(e)
  }

  /**
   * The keys met so far are `seen`, listed once each in `keys` in the order they
   * were met, and `pts[j]` is what `keys[j]` parsed to.
   */
  ghost predicate Collected(seen: set<string>, keys: seq<string>, pts: seq<Pointer>) {
    && multiset(keys) == multiset(seen)
    && |pts| == |keys|
    && forall j :: 0 <= j < |keys| ==> JsonPointer.New(keys[j]) == Ok(pts[j])
  }

  /** The body of the inner loop of `allPointers`: a key not met before is marked and parsed. */
  method AddKey(key: string, seen0: set<string>, pts0: seq<Pointer>, ghost keys0: seq<string>)
    returns (err: Option<Error>, seen: set<string>, pts: seq<Pointer>, ghost keys: seq<string>)
    requires Collected(seen0, keys0, pts0)
    ensures err.Some? ==> key !in seen0 && JsonPointer.New(key) == Err(err.value)
    ensures err.None? ==> seen == seen0 + {key} && Collected(seen, keys, pts)
  {
    seen, pts, keys := seen0, pts0, keys0;
    if key !in seen {
      var p := JsonPointer.New(key);
      if p.Err? {
        return Some(p.error), seen, pts, keys;
      }
      CollectedAdd(seen, keys, pts, key, p.value);
      seen := seen + {key};
      pts := pts + [p.value];
      keys := keys + [key];
    }
    err := None;
  }

  /** Marking and parsing a key not met before keeps the collection consistent. */
  lemma CollectedAdd(seen: set<string>, keys: seq<string>, pts: seq<Pointer>, key: string, p: Pointer)
    requires Collected(seen, keys, pts) && key !in seen && JsonPointer.New(key) == Ok(p)
    ensures Collected(seen + {key}, keys + [key], pts + [p])
  {
    assert multiset(keys + [key]) == multiset(keys) + multiset{key};
    assert multiset(seen + {key}) == multiset(seen) + multiset{key};
    var ks, ps := keys + [key], pts + [p];
    forall j | 0 <= j < |ks| ensures JsonPointer.New(ks[j]) == Ok(ps[j]) {
      if j < |keys| {
        assert ks[j] == keys[j] && ps[j] == pts[j];
      }
    }
  }

  /** The inner loop of `allPointers`: the keys of one record, in the record's map order. */
  method AddKeys(kv: KeyValue, seen0: set<string>, pts0: seq<Pointer>, ghost keys0: seq<string>)
    returns (err: Option<Error>, seen: set<string>, pts: seq<Pointer>, ghost keys: seq<string>)
    requires Collected(seen0, keys0, pts0)
    ensures err.Some? ==> exists k :: k in kv && JsonPointer.New(k) == Err(err.value)
    ensures err.None? ==> seen == seen0 + kv.Keys && Collected(seen, keys, pts)
  {
    seen, pts, keys := seen0, pts0, keys0;
    var ks := Keys(kv);
    var n := 0;
    while n < |ks|
      invariant 0 <= n <= |ks|
      invariant seen == seen0 + set x | x in ks[..n]
      invariant Collected(seen, keys, pts)
    {
      var key := ks[n];
      assert ks[..n + 1] == ks[..n] + [key];
      err, seen, pts, keys := AddKey(key, seen, pts, keys);
      if err.Some? {
        return;
      }
      n := n + 1;
    }
    assert ks[..|ks|] == ks;
    err := None;
  }

  /** Every key collected so far parses. */
  lemma CollectedParse(seen: set<string>, keys: seq<string>, pts: seq<Pointer>)
    requires Collected(seen, keys, pts)
    ensures forall k :: k in seen ==> JsonPointer.New(k).Ok?
  {
    forall k | k in seen ensures JsonPointer.New(k).Ok? {
      assert k in multiset(keys);
    }
  }

  /** A key of one record that does not parse is a key of the whole input that does not parse. */
  lemma RecordKeyFails(results: seq<KeyValue>, i: nat, e: Error)
    requires i < |results|
    requires exists k :: k in results[i] && JsonPointer.New(k) == Err(e)
    ensures KeyFailsWith(results, e) && !KeysParse(results)
  {
    var k :| k in results[i] && JsonPointer.New(k) == Err(e);
    AllKeysMember(results, i, k);
  }

  /**
   * `allPointers`: each distinct key parsed once, in the order the records and
   * their maps are walked; the first key that does not parse stops the walk.
   */
  method AllPointers(results: seq<KeyValue>) returns (r: Result<seq<Pointer>>, ghost keys: seq<string>)
    ensures r.Ok? <==> KeysParse(results)
    ensures r.Err? ==> KeyFailsWith(results, r.error)
    ensures r.Ok? ==> Collected(AllKeys(results), keys, r.value)
  {
    var seen: set<string> := {};
    var pts: seq<Pointer> := [];
    keys := [];
    var i := 0;
    while i < |results|
      invariant 0 <= i <= |results|
      invariant seen == AllKeys(results[..i])
      invariant Collected(seen, keys, pts)
    {
      var err;
      err, seen, pts, keys := AddKeys(results[i], seen, pts, keys);
      if err.Some? {
        RecordKeyFails(results, i, err.value);
        return Err(err.value), keys;
      }
      AllKeysStep(results, i);
      i := i + 1;
    }
    assert results[..|results|] == results;
    CollectedParse(seen, keys, pts);
    r := Ok(pts);
  }

  /** The columns of the table: all pointers, sorted in place with `pointers.Less`. */
  method SortedColumns(results: seq<KeyValue>) returns (r: Result<seq<Pointer>>)
    ensures r.Ok? <==> KeysParse(results)
    ensures r.Err? ==> KeyFailsWith(results, r.error)
    ensures r.Ok? ==> r.value == Columns(results)
  {
    var pts;
    ghost var keys;
    pts, keys := AllPointers(results);
    if pts.Err? {
      return Err(pts.error);
    }
    var a := new Pointer[|pts.value|](i requires 0 <= i < |pts.value| => pts.value[i]);
    assert a[..] == pts.value;
    Pointers.LessIsStrictTotalOrder();
    Sorting.InsertionSort(a, Pointers.Less);
    assert pts.value == ParseAll(keys);
    ParseAllMultiset(keys, SetToSeq(AllKeys(results)));
    ColumnsSorted(results);
    Sorting.SortedUnique(a[..], Columns(results), Pointers.Less);
    r := Ok(a[..]);
  }

  // ---------------------------------------------------------------------------
  // The writer

  /** How many of `n` rows a destination holding `before` of at most `capacity` rows accepts. */
  function Accepted(before: nat, capacity: nat, n: nat): (k: nat)
    ensures k <= n
    ensures before < capacity ==> before + k <= capacity
    ensures before >= capacity ==> k == 0
    ensures k < n ==> before + k >= capacity
  {
    if before >= capacity then 0 else if capacity - before < n then capacity - before else n
  }

  /** Writing `rows` to a destination holding `before` gave `after` and `err`. */
  predicate Emits(before: seq<seq<string>>, capacity: nat, rows: seq<seq<string>>, after: seq<seq<string>>, err: Option<Error>) {
    var k := Accepted(|before|, capacity, |rows|);
    && after == before + rows[..k]
    && err == if k == |rows| then None else Some(WriteFailure)
  }

  /**
   * `CSVWriter`: the header style, the transpose switch, and the rows its
   * destination has accepted; the destination accepts `capacity` rows in all and
   * refuses every later one.
   */
  class CSVWriter {
    var headerStyle: KeyStyle
    var transpose: bool
    var written: seq<seq<string>>
    var capacity: nat

    /** `NewCSVWriter`: JSON Pointer header style, not transposed, nothing written. */
    constructor (capacity: nat)
      ensures headerStyle == JSONPointerStyle && !transpose
      ensures written == [] && this.capacity == capacity
    {
      headerStyle := JSONPointerStyle;
      transpose := false;
      written := [];
      this.capacity := capacity;
    }

    /** Hands one row to the destination; it fails once the destination is full. */
    method Write(record: seq<string>) returns (err: Option<Error>)
      modifies this
      ensures headerStyle == old(headerStyle) && transpose == old(transpose) && capacity == old(capacity)
      ensures |old(written)| < capacity ==> err == None && written == old(written) + [record]
      ensures |old(written)| >= capacity ==> err == Some(WriteFailure) && written == old(written)
    {
      if |written| >= capacity {
        return Some(WriteFailure);
      }
      written := written + [record];
      err := None;
    }

    /** Writes `rows` in order and stops at the first failure, which it returns. */
    method WriteRows(rows: seq<seq<string>>) returns (err: Option<Error>)
      modifies this
      ensures headerStyle == old(headerStyle) && transpose == old(transpose) && capacity == old(capacity)
      ensures Emits(old(written), capacity, rows, written, err)
    {
      var i := 0;
      while i < |rows|
        invariant 0 <= i <= |rows|
        invariant headerStyle == old(headerStyle) && transpose == old(transpose) && capacity == old(capacity)
        invariant written == old(written) + rows[..i]
        invariant i == 0 || |old(written)| + i <= capacity
      {
        err := Write(rows[i]);
        if err.Some? {
          return;
        }
        assert rows[..i + 1] == rows[..i] + [rows[i]];
        i := i + 1;
      }
      assert rows[..|rows|] == rows;
      err := None;
    }

    /** `WriteCSV`: the table in row or transposed orientation, as `transpose` says. */
    method WriteCSV(results: seq<KeyValue>) returns (err: Option<Error>)
      modifies this
      ensures headerStyle == old(headerStyle) && transpose == old(transpose) && capacity == old(capacity)
      ensures !KeysParse(results) ==> err.Some? && KeyFailsWith(results, err.value) && written == old(written)
      ensures KeysParse(results) && (if transpose then TransposedTable(headerStyle, results) else Table(headerStyle, results)).None? ==>
        err == Some(IndexOutOfRangePanic) && written == old(written)
      ensures KeysParse(results) && (if transpose then TransposedTable(headerStyle, results) else Table(headerStyle, results)).Some? ==>
        Emits(old(written), capacity, (if transpose then TransposedTable(headerStyle, results) else Table(headerStyle, results)).value, written, err)
    {
      if transpose {
        err := WriteTransposedCSV(results);
      } else {
        err := WriteRowCSV(results);
      }
    }

    /** `writeCSV`: the header row, then one row per record. */
    method WriteRowCSV(results: seq<KeyValue>) returns (err: Option<Error>)
      modifies this
      ensures headerStyle == old(headerStyle) && transpose == old(transpose) && capacity == old(capacity)
      ensures !KeysParse(results) ==> err.Some? && KeyFailsWith(results, err.value) && written == old(written)
      ensures KeysParse(results) && (Table(headerStyle, results)).None? ==>
        err == Some(IndexOutOfRangePanic) && written == old(written)
      ensures KeysParse(results) && (Table(headerStyle, results)).Some? ==>
        Emits(old(written), capacity, (Table(headerStyle, results)).value, written, err)
    {
      var pts := SortedColumns(results);
      if pts.Err? {
        return Some(pts.error);
      }
      var keys := Pointers.Strings(pts.value);
      var header := GetHeader(headerStyle, pts.value);
      if header.None? {
        return Some(IndexOutOfRangePanic);
      }
      err := WriteRows([header.value] + Rows(results, keys));
    }

    /** `writeTransposedCSV`: one row per column, the header text first. */
    method WriteTransposedCSV(results: seq<KeyValue>) returns (err: Option<Error>)
      modifies this
      ensures headerStyle == old(headerStyle) && transpose == old(transpose) && capacity == old(capacity)
      ensures !KeysParse(results) ==> err.Some? && KeyFailsWith(results, err.value) && written == old(written)
      ensures KeysParse(results) && (TransposedTable(headerStyle, results)).None? ==>
        err == Some(IndexOutOfRangePanic) && written == old(written)
      ensures KeysParse(results) && (TransposedTable(headerStyle, results)).Some? ==>
        Emits(old(written), capacity, (TransposedTable(headerStyle, results)).value, written, err)
    {
      var pts := SortedColumns(results);
      if pts.Err? {
        return Some(pts.error);
      }
      var keys := Pointers.Strings(pts.value);
      var header := GetHeader(headerStyle, pts.value);
      if header.None? {
        return Some(IndexOutOfRangePanic);
      }
      err := WriteRows(TransposedRows(results, keys, header.value));
    }
  }
}
