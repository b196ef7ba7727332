/**
 * The top-level dispatch: an object is one record, an array of objects is one
 * record per element, any other array is one record, anything else is an error.
 */
module Conversion {
  import opened Base
  import opened StrUtil
  import opened Json
  import opened Flattening
  import JsonPointer

  /** Whether the first `n` elements are all objects. */
  function AllObjects(a: seq<Json>, n: nat): (r: bool)
    requires n <= |a|
    ensures r <==> forall i :: 0 <= i < n ==> a[i].Obj?
  {
    n == 0 || (a[n - 1].Obj? && AllObjects(a, n - 1))
  }

  /** `isObjectArray`: a non-empty array whose elements are all objects (a null element is not). */
  function IsObjectArray(v: Json): (r: bool)
    ensures r <==> v.Arr? && |v.elems| > 0 && forall i :: 0 <= i < |v.elems| ==> v.elems[i].Obj?
  {
    match v
    case Arr(a) => |a| > 0 && AllObjects(a, |a|)
    case _ => false
  }

  /**
   * `JSON2CSV`: the records of a value. Flattening never fails on an object or an
   * array, so the error returns after `flatten` cannot be taken.
   */
  method JSON2CSV(data: Json) returns (r: Result<seq<KeyValue>>)
    ensures data.Obj? ==> r == Ok(if data.fields == map[] then [] else [Flat(data, [])])
    ensures IsObjectArray(data) ==>
      r.Ok? && |r.value| == |data.elems| && forall i :: 0 <= i < |data.elems| ==> r.value[i] == Flat(data.elems[i], [])
    ensures data.Arr? && !IsObjectArray(data) ==> r == Ok(if data.elems == [] then [] else [Flat(data, [])])
    ensures !data.Obj? && !data.Arr? ==> r == Err(UnsupportedStructure)
  {
    var results: seq<KeyValue> := [];
    match data {
      case Obj(m) =>
        if |m| > 0 {
          var result := Flatten(data);
          results := results + [result.value];
          assert results == [Flat(data, [])];
          assert m != map[] by { assert |m.Keys| > 0; }
        } else {
          assert m == map[];
        }
      case Arr(a) =>
        if IsObjectArray(data) {
          var i := 0;
          while i < |a|
            invariant 0 <= i <= |a| && |results| == i
            invariant forall j :: 0 <= j < i ==> results[j] == Flat(a[j], [])
          {
            var result := Flatten(a[i]);
            results := results + [result.value];
            i := i + 1;
          }
        } else if |a| > 0 {
          var result := Flatten(data);
          results := results + [result.value];
          assert results == [Flat(data, [])];
        }
      case _ =>
        return Err(UnsupportedStructure);
    }
    r := Ok(results);
  }

  /** An empty object in an array of objects still gives a record, with no entries. */
  lemma EmptyObjectRecord()
    ensures Flat(Obj(map[]), []) == map[]
  {
    var ks := SortedKeys({});
    assert |multiset(ks)| == 0;
  }

  /** In the record of a non-object array, every key starts with an element position. */
  lemma ArrayRecordKeys(a: seq<Json>, k: string) returns (path: seq<string>)
    requires k in Flat(Arr(a), [])
    ensures k == JsonPointer.String(path) && path != []
    ensures IsPosition(path[0]) && DigitsValue(path[0]) < |a|
  {
    path := FlatSound(Arr(a), [], k);
    assert [] + path == path;
  }
}
