/**
 * Flattening a JSON value into one record: every string, number or boolean leaf
 * becomes one entry keyed by the JSON Pointer text of its path. The recursion
 * writes into one shared map; objects are visited in ascending key order and
 * arrays by position.
 */
module Flattening {
  import opened Base
  import opened StrUtil
  import opened Token
  import opened Json
  import JsonPointer
  import Sorting

  /** A leaf as stored in a record: a string, a number with its original text, or a boolean. */
  datatype Scalar = SStr(s: string) | SNum(text: string) | SBool(b: bool)

  /** One record: pointer text to leaf. */
  type KeyValue = map<string, Scalar>

  predicate IsLeaf(v: Json) {
    v.Str? || v.Num? || v.Bool?
  }

  function ScalarOf(v: Json): (s: Scalar)
    requires IsLeaf(v)
    ensures JsonOf(s) == v
  {
    match v
    case Str(s) => SStr(s)
    case Num(t) => SNum(t)
    case Bool(b) => SBool(b)
  }

  /** The JSON value a stored leaf came from. */
  function JsonOf(s: Scalar): (v: Json)
    ensures IsLeaf(v)
  {
    match s
    case SStr(s) => Str(s)
    case SNum(t) => Num(t)
    case SBool(b) => Bool(b)
  }

  // ---------------------------------------------------------------------------
  // Key sets

  /** A sequence whose multiset is a set's holds each member exactly once. */
  lemma DistinctFromSetMultiset<T>(s: seq<T>, K: set<T>)
    requires multiset(s) == multiset(K)
    ensures forall x :: x in s <==> x in K
    ensures forall i, j :: 0 <= i < j < |s| ==> s[i] != s[j]
  {
    forall x ensures x in s <==> x in K {
      assert x in s <==> x in multiset(s);
    }
    forall i, j | 0 <= i < j < |s| ensures s[i] != s[j] {
      var x := s[j];
      assert s == s[..j] + [x] + s[j + 1..];
      assert multiset(s) == multiset(s[..j]) + multiset{x} + multiset(s[j + 1..]);
      assert s[..j][i] == s[i];
      assert s[i] in multiset(s[..j]);
      assert multiset(s)[x] <= 1;
    }
  }

  /** `KeyValue.Keys`: every key of the map exactly once, in the map's iteration order. */
  method Keys<V>(kv: map<string, V>) returns (keys: seq<string>)
    ensures multiset(keys) == multiset(kv.Keys)
    ensures forall k :: k in keys <==> k in kv
    ensures forall i, j :: 0 <= i < j < |keys| ==> keys[i] != keys[j]
  {
    keys := [];
    var rest := kv.Keys;
    while rest != {}
      invariant rest <= kv.Keys
      invariant multiset(keys) + multiset(rest) == multiset(kv.Keys)
      decreases |rest|
    {
      var k :| k in rest;
      assert multiset(rest) == multiset(rest - {k}) + multiset{k};
      keys := keys + [k];
      rest := rest - {k};
    }
    DistinctFromSetMultiset(keys, kv.Keys);
  }

  /** Some arrangement of a set. */
  ghost function SetToSeq(K: set<string>): (r: seq<string>)
    ensures multiset(r) == multiset(K)
  {
    if K == {} then []
    else
      var k :| k in K;
      assert multiset(K) == multiset(K - {k}) + multiset{k};
      [k] + SetToSeq(K - {k})
  }

  lemma SingletonToSeq(k: string)
    ensures SetToSeq({k}) == [k]
  {
    var ks := SetToSeq({k});
    assert multiset(ks) == multiset{k};
    assert |ks| == 1;
    assert ks[0] in multiset(ks);
  }

  /** The members of a set in ascending byte order: the order `sortedMapKeys` gives. */
  ghost function SortedKeys(K: set<string>): (r: seq<string>)
    ensures multiset(r) == multiset(K)
    ensures forall i :: 0 <= i < |r| ==> r[i] in K
  {
    var r := Sorting.SortSeq(SetToSeq(K), StrUtil.Less);
    assert forall i :: 0 <= i < |r| ==> r[i] in multiset(r);
    r
  }

  /** The reference key order is ascending. */
  lemma SortedKeysSorted(K: set<string>)
    ensures Sorting.Sorted(SortedKeys(K), StrUtil.Less)
  {
    StrUtil.LessIsStrictTotalOrder();
    Sorting.SortSeqSorted(SetToSeq(K), StrUtil.Less);
  }

  /** `sortedMapKeys`: the object's keys, each once, sorted in place in ascending byte order. */
  method SortedMapKeys(m: map<string, Json>) returns (keys: seq<string>)
    ensures multiset(keys) == multiset(m.Keys)
    ensures forall i :: 0 <= i < |keys| ==> keys[i] in m
    ensures forall i, j :: 0 <= i < j < |keys| ==> StrUtil.Less(keys[i], keys[j])
    ensures keys == SortedKeys(m.Keys)
  {
    var ks := Keys(m);
    var a := new string[|ks|](i requires 0 <= i < |ks| => ks[i]);
    assert a[..] == ks;
    StrUtil.LessIsStrictTotalOrder();
    Sorting.InsertionSort(a, StrUtil.Less);
    keys := a[..];
    SortedKeysSorted(m.Keys);
    Sorting.SortedUnique(keys, SortedKeys(m.Keys), StrUtil.Less);
    DistinctFromSetMultiset(keys, m.Keys);
    forall i, j | 0 <= i < j < |keys| ensures StrUtil.Less(keys[i], keys[j]) {
      StrUtil.LessConnected(keys[i], keys[j]);
    }
  }

  // ---------------------------------------------------------------------------
  // What flattening produces

  /** The entries a value contributes under `prefix`. */
  ghost function Flat(v: Json, prefix: seq<Token>): KeyValue
    decreases v, 1
  {
    match v
    case Null => map[]
    case Str(s) => map[JsonPointer.String(prefix) := SStr(s)]
    case Num(t) => map[JsonPointer.String(prefix) := SNum(t)]
    case Bool(b) => map[JsonPointer.String(prefix) := SBool(b)]
    case Obj(m) => FlatFields(m, SortedKeys(m.Keys), prefix)
    case Arr(a) => FlatElems(a, |a|, prefix)
  }

  /** The entries of the fields `ks` of an object, written in order (a later write wins). */
  ghost function FlatFields(m: map<string, Json>, ks: seq<string>, prefix: seq<Token>): KeyValue
    requires forall i :: 0 <= i < |ks| ==> ks[i] in m
    decreases Obj(m), 0, |ks|
  {
    if ks == [] then map[]
    else
      var k := ks[|ks| - 1];
      FlatFields(m, ks[..|ks| - 1], prefix) + Flat(m[k], prefix + [k])
  }

  /** The entries of the first `n` elements of an array. */
  ghost function FlatElems(a: seq<Json>, n: nat, prefix: seq<Token>): KeyValue
    requires n <= |a|
    decreases Arr(a), 0, n
  {
    if n == 0 then map[]
    else FlatElems(a, n - 1, prefix) + Flat(a[n - 1], prefix + [Itoa(n - 1)])
  }

  /** A null, an empty object and an empty array contribute no entry. */
  lemma EmptyValuesContributeNothing(prefix: seq<Token>)
    ensures Flat(Null, prefix) == map[]
    ensures Flat(Obj(map[]), prefix) == map[]
    ensures Flat(Arr([]), prefix) == map[]
  {
    var ks := SortedKeys({});
    assert |multiset(ks)| == 0;
  }

  /** An object with one leaf field is one entry, keyed by the field's one-token pointer. */
  lemma FlatSingleField(k: string, v: Json)
    requires IsLeaf(v)
    ensures Flat(Obj(map[k := v]), []) == map[JsonPointer.String([k]) := ScalarOf(v)]
  {
    var m := map[k := v];
    calc {
      Flat(Obj(m), []);
      { FlatObj(m, []); }
      FlatFields(m, SortedKeys(m.Keys), []);
      { SingleKey(k, v); }
      FlatFields(m, [k], []);
      { FlatFieldsSingle(m, k, []); }
      Flat(v, [] + [k]);
      { assert [] + [k] == [k]; }
      map[JsonPointer.String([k]) := ScalarOf(v)];
    }
  }

  lemma FlatObj(m: map<string, Json>, prefix: seq<Token>)
    ensures Flat(Obj(m), prefix) == FlatFields(m, SortedKeys(m.Keys), prefix)
  {
  }

  lemma SingleKey(k: string, v: Json)
    ensures SortedKeys(map[k := v].Keys) == [k]
  {
    assert map[k := v].Keys == {k};
    SingletonToSeq(k);
  }

  lemma FlatFieldsSingle(m: map<string, Json>, k: string, prefix: seq<Token>)
    requires k in m
    ensures FlatFields(m, [k], prefix) == Flat(m[k], prefix + [k])
  {
    var ks: seq<string> := [k];
    assert ks[..0] == [];
  }

  /** An object key is a plain token; it is escaped only in the record key. */
  lemma EscapedFieldKey(v: Json)
    requires IsLeaf(v)
    ensures Flat(Obj(map["a/b" := v]), []) == map["/a~1b" := ScalarOf(v)]
  {
    FlatSingleField("a/b", v);
    EscapeExamples();
    var e := JsonPointer.EscapedStrings(["a/b"]);
    var x := "a~1b";
    assert e == [x];
    assert Join(e, "/") == x;
    assert JsonPointer.String(["a/b"]) == "/" + x;
    assert "/" + x == "/a~1b";
  }

  // ---------------------------------------------------------------------------
  // The flattener: one shared output map, written step by step

  /** The output map shared by the whole recursion. */
  class Collector {
    var entries: KeyValue

    constructor ()
      ensures entries == map[]
    {
      entries := map[];
    }
  }

  lemma MapUnionAssociative(a: KeyValue, b: KeyValue, c: KeyValue)
    ensures a + b + c == a + (b + c)
  {
  }

  /** One more field written on top of `base`. */
  lemma FlatFieldsStep(base: KeyValue, m: map<string, Json>, keys: seq<string>, i: nat, prefix: seq<Token>)
    requires forall j :: 0 <= j < |keys| ==> keys[j] in m
    requires i < |keys|
    ensures base + FlatFields(m, keys[..i], prefix) + Flat(m[keys[i]], prefix + [keys[i]])
         == base + FlatFields(m, keys[..i + 1], prefix)
  {
    assert keys[..i + 1][..i] == keys[..i];
    MapUnionAssociative(base, FlatFields(m, keys[..i], prefix), Flat(m[keys[i]], prefix + [keys[i]]));
  }

  /** One more element written on top of `base`. */
  lemma FlatElemsStep(base: KeyValue, a: seq<Json>, i: nat, prefix: seq<Token>)
    requires i < |a|
    ensures base + FlatElems(a, i, prefix) + Flat(a[i], prefix + [Itoa(i)]) == base + FlatElems(a, i + 1, prefix)
  {
    MapUnionAssociative(base, FlatElems(a, i, prefix), Flat(a[i], prefix + [Itoa(i)]));
  }

  /**
   * `_flatten`: a leaf is written under the pointer's text; an object or array is
   * descended into; a null is an unknown kind and reports an error.
   */
  method FlattenValue(out: Collector, obj: Json, key: JsonPointer.JSONPointer) returns (err: Option<Error>)
    modifies out
    decreases obj, 2
    ensures out.entries == old(out.entries) + Flat(obj, key.tokens)
    ensures err.Some? <==> obj.Null?
    ensures err.Some? ==> err.value == UnknownKind
  {
    err := None;
    match obj {
      case Obj(m) =>
        FlattenMap(out, m, key);
      case Arr(a) =>
        FlattenSlice(out, a, key);
      case Str(s) =>
        out.entries := out.entries[JsonPointer.String(key.tokens) := SStr(s)];
      case Num(t) =>
        out.entries := out.entries[JsonPointer.String(key.tokens) := SNum(t)];
      case Bool(b) =>
        out.entries := out.entries[JsonPointer.String(key.tokens) := SBool(b)];
      case Null =>
        err := Some(UnknownKind);
    }
  }

  /** The loop body shared by `_flattenMap` and `_flattenSlice`: a child under a copy of the prefix extended by `token`. */
  method FlattenChild(out: Collector, child: Json, prefix: JsonPointer.JSONPointer, token: Token)
    modifies out
    decreases child, 3
    ensures out.entries == old(out.entries) + Flat(child, prefix.tokens + [token])
  {
    var pointer := prefix.Clone();
    var _ := pointer.AppendString(token);
    var _ := FlattenValue(out, child, pointer);
  }

  /** `_flattenMap`: each field in ascending key order, under its own copy of the prefix; errors are dropped. */
  method FlattenMap(out: Collector, m: map<string, Json>, prefix: JsonPointer.JSONPointer)
    modifies out
    decreases Obj(m), 1
    ensures out.entries == old(out.entries) + FlatFields(m, SortedKeys(m.Keys), prefix.tokens)
  {
    var keys := SortedMapKeys(m);
    ghost var base, pre := out.entries, prefix.tokens;
    var i := 0;
    while i < |keys|
      invariant 0 <= i <= |keys| && prefix.tokens == pre
      invariant out.entries == base + FlatFields(m, keys[..i], pre)
    {
      FlattenChild(out, m[keys[i]], prefix, keys[i]);
      FlatFieldsStep(base, m, keys, i, pre);
      i := i + 1;
    }
    assert keys[..|keys|] == keys;
  }

  /** `_flattenSlice`: each element by position, under its own copy of the prefix; errors are dropped. */
  method FlattenSlice(out: Collector, a: seq<Json>, prefix: JsonPointer.JSONPointer)
    modifies out
    decreases Arr(a), 1
    ensures out.entries == old(out.entries) + FlatElems(a, |a|, prefix.tokens)
  {
    ghost var base, pre := out.entries, prefix.tokens;
    var i := 0;
    while i < |a|
      invariant 0 <= i <= |a| && prefix.tokens == pre
      invariant out.entries == base + FlatElems(a, i, pre)
    {
      FlattenChild(out, a[i], prefix, Itoa(i));
      FlatElemsStep(base, a, i, pre);
      i := i + 1;
    }
  }

  /** `flatten`: the record of a value, from the root pointer; only a null fails. */
  method Flatten(obj: Json) returns (r: Result<KeyValue>)
    ensures obj.Null? ==> r == Err(UnknownKind)
    ensures !obj.Null? ==> r == Ok(Flat(obj, []))
  {
    var out := new Collector();
    var key := new JsonPointer.JSONPointer([]);
    var err := FlattenValue(out, obj, key);
    if err.Some? {
      return Err(err.value);
    }
    assert out.entries == Flat(obj, []);
    r := Ok(out.entries);
  }

  // ---------------------------------------------------------------------------
  // Which entries a value contributes

  /** A path token that names an array position: decimal digits without a superfluous leading zero. */
  predicate IsPosition(t: string) {
    |t| >= 1 && AllDigits(t) && (t[0] == '0' ==> |t| == 1)
  }

  lemma PositionToken(j: nat)
    ensures IsPosition(Itoa(j)) && DigitsValue(Itoa(j)) == j
  {
  }

  /** The value found by following `path` through objects (by key) and arrays (by position). */
  function Reach(v: Json, path: seq<Token>): Option<Json>
    decreases path
  {
    if path == [] then Some(v)
    else
      match v
      case Obj(m) => if path[0] in m then Reach(m[path[0]], path[1..]) else None
      case Arr(a) =>
        if IsPosition(path[0]) && DigitsValue(path[0]) < |a| then Reach(a[DigitsValue(path[0])], path[1..])
        else None
      case _ => None
  }

  /** Every entry comes from a leaf: its key is the text of the leaf's path and its value the leaf. */
  lemma {:induction false} FlatSound(v: Json, prefix: seq<Token>, k: string) returns (path: seq<Token>)
    requires k in Flat(v, prefix)
    decreases v, 1
    ensures k == JsonPointer.String(prefix + path)
    ensures Reach(v, path).Some? && IsLeaf(Reach(v, path).value)
    ensures Flat(v, prefix)[k] == ScalarOf(Reach(v, path).value)
  {
    match v {
      case Obj(m) =>
        path := FlatFieldsSound(m, SortedKeys(m.Keys), prefix, k);
      case Arr(a) =>
        path := FlatElemsSound(a, |a|, prefix, k);
      case Null =>
        assert false;
      case _ =>
        path := [];
        assert prefix + path == prefix;
    }
  }

  lemma {:induction false} FlatFieldsSound(m: map<string, Json>, ks: seq<string>, prefix: seq<Token>, k: string)
    returns (path: seq<Token>)
    requires forall i :: 0 <= i < |ks| ==> ks[i] in m
    requires k in FlatFields(m, ks, prefix)
    decreases Obj(m), 0, |ks|
    ensures k == JsonPointer.String(prefix + path)
    ensures Reach(Obj(m), path).Some? && IsLeaf(Reach(Obj(m), path).value)
    ensures FlatFields(m, ks, prefix)[k] == ScalarOf(Reach(Obj(m), path).value)
  {
    var last := ks[|ks| - 1];
    if k in Flat(m[last], prefix + [last]) {
      var rest := FlatSound(m[last], prefix + [last], k);
      path := [last] + rest;
      PathSplit(prefix, last, rest);
    } else {
      path := FlatFieldsSound(m, ks[..|ks| - 1], prefix, k);
    }
  }

  lemma {:induction false} FlatElemsSound(a: seq<Json>, n: nat, prefix: seq<Token>, k: string)
    returns (path: seq<Token>)
    requires n <= |a|
    requires k in FlatElems(a, n, prefix)
    decreases Arr(a), 0, n
    ensures k == JsonPointer.String(prefix + path)
    ensures Reach(Arr(a), path).Some? && IsLeaf(Reach(Arr(a), path).value)
    ensures FlatElems(a, n, prefix)[k] == ScalarOf(Reach(Arr(a), path).value)
  {
    var t := Itoa(n - 1);
    if k in Flat(a[n - 1], prefix + [t]) {
      var rest := FlatSound(a[n - 1], prefix + [t], k);
      path := [t] + rest;
      PositionToken(n - 1);
      PathSplit(prefix, t, rest);
    } else {
      path := FlatElemsSound(a, n - 1, prefix, k);
    }
  }

  lemma PathSplit(prefix: seq<Token>, t: Token, rest: seq<Token>)
    ensures prefix + ([t] + rest) == prefix + [t] + rest
    ensures ([t] + rest)[0] == t && ([t] + rest)[1..] == rest
  {
  }

  /** Paths that differ in the token after `prefix` render as different text. */
  lemma BranchesApart(prefix: seq<Token>, t: Token, p: seq<Token>, u: Token, q: seq<Token>)
    requires t != u
    ensures JsonPointer.String(prefix + [t] + p) != JsonPointer.String(prefix + [u] + q)
  {
    assert (prefix + [t] + p)[|prefix|] == t;
    assert (prefix + [u] + q)[|prefix|] == u;
    JsonPointer.StringInjective(prefix + [t] + p, prefix + [u] + q);
  }

  /** No entry of a field (or element) lands on the key of a leaf under a different field (or element). */
  lemma SiblingKeysApart(v: Json, prefix: seq<Token>, t: Token, u: Token, q: seq<Token>)
    requires t != u
    ensures JsonPointer.String(prefix + [u] + q) !in Flat(v, prefix + [t])
  {
    forall key | key in Flat(v, prefix + [t]) ensures key != JsonPointer.String(prefix + [u] + q) {
      var p := FlatSound(v, prefix + [t], key);
      BranchesApart(prefix, t, p, u, q);
    }
  }

  /** Every leaf yields an entry under its path's text, holding that leaf; no other write overwrites it. */
  lemma {:induction false} FlatComplete(v: Json, prefix: seq<Token>, path: seq<Token>)
    requires Reach(v, path).Some? && IsLeaf(Reach(v, path).value)
    decreases v, 1
    ensures JsonPointer.String(prefix + path) in Flat(v, prefix)
    ensures Flat(v, prefix)[JsonPointer.String(prefix + path)] == ScalarOf(Reach(v, path).value)
  {
    if path == [] {
      assert prefix + path == prefix;
    } else if v.Obj? {
      FlatCompleteField(v.fields, prefix, path);
    } else {
      FlatCompleteElem(v.elems, prefix, path);
    }
  }

  lemma {:induction false} FlatCompleteField(m: map<string, Json>, prefix: seq<Token>, path: seq<Token>)
    requires path != [] && Reach(Obj(m), path).Some? && IsLeaf(Reach(Obj(m), path).value)
    decreases Obj(m), 0, |m| + 1
    ensures JsonPointer.String(prefix + path) in Flat(Obj(m), prefix)
    ensures Flat(Obj(m), prefix)[JsonPointer.String(prefix + path)] == ScalarOf(Reach(Obj(m), path).value)
  {
    var ks := SortedKeys(m.Keys);
    assert path[0] in multiset(ks);
    FlatFieldsComplete(m, ks, prefix, path[0], path[1..]);
    PathSplit(prefix, path[0], path[1..]);
    assert [path[0]] + path[1..] == path;
  }

  lemma {:induction false} FlatCompleteElem(a: seq<Json>, prefix: seq<Token>, path: seq<Token>)
    requires path != [] && Reach(Arr(a), path).Some? && IsLeaf(Reach(Arr(a), path).value)
    decreases Arr(a), 0, |a| + 1
    ensures JsonPointer.String(prefix + path) in Flat(Arr(a), prefix)
    ensures Flat(Arr(a), prefix)[JsonPointer.String(prefix + path)] == ScalarOf(Reach(Arr(a), path).value)
  {
    var t := path[0];
    assert IsPosition(t) && DigitsValue(t) < |a|;
    var j := DigitsValue(t);
    assert Reach(Arr(a), path) == Reach(a[j], path[1..]);
    CanonicalDigits(t);
    assert Itoa(j) == t;
    FlatElemsComplete(a, |a|, prefix, j, path[1..]);
    PathSplit(prefix, t, path[1..]);
    assert [t] + path[1..] == path;
  }

  lemma {:induction false} FlatFieldsComplete(m: map<string, Json>, ks: seq<string>, prefix: seq<Token>, k: string, rest: seq<Token>)
    requires forall i :: 0 <= i < |ks| ==> ks[i] in m
    requires k in ks && Reach(m[k], rest).Some? && IsLeaf(Reach(m[k], rest).value)
    decreases Obj(m), 0, |ks|
    ensures JsonPointer.String(prefix + [k] + rest) in FlatFields(m, ks, prefix)
    ensures FlatFields(m, ks, prefix)[JsonPointer.String(prefix + [k] + rest)] == ScalarOf(Reach(m[k], rest).value)
  {
    var last := ks[|ks| - 1];
    var key := JsonPointer.String(prefix + [k] + rest);
    if last == k {
      FlatComplete(m[k], prefix + [k], rest);
      UnionTakesRight(FlatFields(m, ks[..|ks| - 1], prefix), Flat(m[k], prefix + [k]), key);
    } else {
      var front := ks[..|ks| - 1];
      assert k in front by {
        var i :| 0 <= i < |ks| && ks[i] == k;
        assert front[i] == k;
      }
      FlatFieldsComplete(m, front, prefix, k, rest);
      SiblingKeysApart(m[last], prefix, last, k, rest);
      UnionKeepsLeft(FlatFields(m, front, prefix), Flat(m[last], prefix + [last]), key);
    }
  }

  /** An entry of the earlier writes survives a later write that does not hold its key. */
  lemma UnionKeepsLeft(m1: KeyValue, m2: KeyValue, k: string)
    requires k in m1 && k !in m2
    ensures k in m1 + m2 && (m1 + m2)[k] == m1[k]
  {
  }

  /** A later write wins. */
  lemma UnionTakesRight(m1: KeyValue, m2: KeyValue, k: string)
    requires k in m2
    ensures k in m1 + m2 && (m1 + m2)[k] == m2[k]
  {
  }

  lemma {:induction false} FlatElemsComplete(a: seq<Json>, n: nat, prefix: seq<Token>, j: nat, rest: seq<Token>)
    requires n <= |a| && j < n
    requires Reach(a[j], rest).Some? && IsLeaf(Reach(a[j], rest).value)
    decreases Arr(a), 0, n
    ensures JsonPointer.String(prefix + [Itoa(j)] + rest) in FlatElems(a, n, prefix)
    ensures FlatElems(a, n, prefix)[JsonPointer.String(prefix + [Itoa(j)] + rest)] == ScalarOf(Reach(a[j], rest).value)
  {
    var key := JsonPointer.String(prefix + [Itoa(j)] + rest);
    var left, right := FlatElems(a, n - 1, prefix), Flat(a[n - 1], prefix + [Itoa(n - 1)]);
    assert FlatElems(a, n, prefix) == left + right;
    if j == n - 1 {
      FlatComplete(a[j], prefix + [Itoa(j)], rest);
      UnionTakesRight(left, right, key);
    } else {
      FlatElemsComplete(a, n - 1, prefix, j, rest);
      NatToStringInjective(n - 1, j);
      SiblingKeysApart(a[n - 1], prefix, Itoa(n - 1), Itoa(j), rest);
      UnionKeepsLeft(left, right, key);
    }
  }

  // ---------------------------------------------------------------------------
  // Entries can be read back with `Get`

  /** Every array in the value is small enough to be indexed by a 64-bit int, as Go slices are. */
  predicate ArraysFitInt(v: Json) {
    match v
    case Arr(a) => |a| <= MaxInt && forall i :: 0 <= i < |a| ==> ArraysFitInt(a[i])
    case Obj(m) => forall k :: k in m ==> ArraysFitInt(m[k])
    case _ => true
  }

  /** `Atoi` reads a position token as its value. */
  lemma PositionAtoi(t: string)
    requires IsPosition(t) && DigitsValue(t) <= MaxInt
    ensures Atoi(t) == Some(DigitsValue(t))
  {
  }

  /** Evaluating a leaf's path with `Get` reaches that leaf. */
  lemma {:induction false} ReachWalks(v: Json, path: seq<Token>)
    requires ArraysFitInt(v) && Reach(v, path).Some? && IsLeaf(Reach(v, path).value)
    decreases path
    ensures JsonPointer.Walk(JsonPointer.ValueOf(v), path) == Some(JsonPointer.Value(Reach(v, path).value))
  {
    if path != [] {
      var t, rest := path[0], path[1..];
      match v {
        case Obj(m) =>
          ReachWalks(m[t], rest);
          assert JsonPointer.ValueOf(m[t]) == JsonPointer.Value(m[t]);
        case Arr(a) =>
          PositionAtoi(t);
          ReachWalks(a[DigitsValue(t)], rest);
          assert JsonPointer.ValueOf(a[DigitsValue(t)]) == JsonPointer.Value(a[DigitsValue(t)]);
      }
    }
  }

  /**
   * Every entry of a flattened value is the text of a pointer that `Get` resolves to
   * the entry's leaf; when the text carries no surrounding white space, parsing the
   * text gives that pointer back.
   */
  lemma EntriesResolve(v: Json, k: string) returns (path: seq<Token>)
    requires ArraysFitInt(v) && k in Flat(v, [])
    ensures k == JsonPointer.String(path)
    ensures JsonPointer.Resolve(path, v) == Ok(JsonOf(Flat(v, [])[k]))
    ensures Trimmed(k) ==> JsonPointer.New(k) == Ok(path)
  {
    path := FlatSound(v, [], k);
    assert [] + path == path;
    ReachWalks(v, path);
    if Trimmed(k) {
      JsonPointer.ParseString(path);
    }
  }
}
