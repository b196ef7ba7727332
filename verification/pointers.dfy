/**
 * The column order of the table (shallow pointers first, then token by token in
 * byte order) and the per-pointer renderings used for the header.
 */
module Pointers {
  import opened Base
  import opened StrUtil
  import opened Token
  import JsonPointer
  import Sorting

  type Pointer = seq<Token>

  /** Equal-length pointers: the first token that differs decides, by byte order. */
  predicate TokensLess(a: Pointer, b: Pointer)
    requires |a| == |b|
  {
    if a == [] then false
    else if a[0] != b[0] then StrUtil.Less(a[0], b[0])
    else TokensLess(a[1..], b[1..])
  }

  /** `pointers.Less`: fewer tokens first; equal lengths compare token by token. */
  predicate Less(a: Pointer, b: Pointer) {
    if |a| != |b| then |a| < |b| else TokensLess(a, b)
  }

  lemma {:induction false} TokensLessIrreflexive(a: Pointer)
    ensures !TokensLess(a, a)
  {
    if a != [] { TokensLessIrreflexive(a[1..]); }
  }

  lemma {:induction false} TokensLessTransitive(a: Pointer, b: Pointer, c: Pointer)
    requires |a| == |b| == |c| && TokensLess(a, b) && TokensLess(b, c)
    ensures TokensLess(a, c)
  {
    if a != [] {
      if a[0] == b[0] == c[0] {
        TokensLessTransitive(a[1..], b[1..], c[1..]);
      } else if a[0] != b[0] && b[0] != c[0] {
        StrUtil.LessTransitive(a[0], b[0], c[0]);
        StrUtil.LessIrreflexive(a[0]);
      }
    }
  }

  lemma {:induction false} TokensLessConnected(a: Pointer, b: Pointer)
    requires |a| == |b| && a != b
    ensures TokensLess(a, b) || TokensLess(b, a)
  {
    if a[0] != b[0] {
      StrUtil.LessConnected(a[0], b[0]);
    } else {
      assert a == [a[0]] + a[1..] && b == [b[0]] + b[1..];
      TokensLessConnected(a[1..], b[1..]);
    }
  }

  /** A pointer with fewer tokens comes first, whatever its tokens. */
  lemma ShallowFirst(a: Pointer, b: Pointer)
    requires |a| < |b|
    ensures Less(a, b) && !Less(b, a)
  {
  }

  /** Among equal-length pointers the first differing token decides. */
  lemma {:induction false} FirstDifferenceDecides(a: Pointer, b: Pointer, k: nat)
    requires |a| == |b| && k < |a| && a[..k] == b[..k] && a[k] != b[k]
    ensures Less(a, b) <==> StrUtil.Less(a[k], b[k])
  {
    if k > 0 {
      assert a[0] == a[..k][0] && b[0] == b[..k][0];
      assert a[1..][..k - 1] == a[..k][1..] && b[1..][..k - 1] == b[..k][1..];
      FirstDifferenceDecides(a[1..], b[1..], k - 1);
    }
  }

  /** Tokens compare as text, not as numbers: `/10` sorts before `/2`. */
  lemma TextNotNumbers()
    ensures Less(["10"], ["2"]) && !Less(["2"], ["10"])
  {
    assert "10"[0] == '1' && "2"[0] == '2';
  }

  /** `pointers.Less` is a strict total order, as `sort.Sort` needs. */
  lemma LessIsStrictTotalOrder()
    ensures Sorting.StrictTotalOrder(Less)
  {
    forall a ensures !Less(a, a) { TokensLessIrreflexive(a); }
    forall a, b, c | Less(a, b) && Less(b, c) ensures Less(a, c) {
      if |a| == |b| == |c| { TokensLessTransitive(a, b, c); }
    }
    forall a, b | a != b ensures Less(a, b) || Less(b, a) {
      if |a| == |b| { TokensLessConnected(a, b); }
    }
  }

  /** `Strings`: each pointer's JSON Pointer text; distinct pointers give distinct text. */
  function Strings(pts: seq<Pointer>): (r: seq<string>)
    ensures |r| == |pts|
    ensures forall i :: 0 <= i < |pts| ==> r[i] == JsonPointer.String(pts[i])
  {
    seq(|pts|, i requires 0 <= i < |pts| => JsonPointer.String(pts[i]))
  }

  /** Distinct pointers keep distinct JSON Pointer text. */
  lemma StringsDistinct(pts: seq<Pointer>, i: nat, j: nat)
    requires i < |pts| && j < |pts| && pts[i] != pts[j]
    ensures Strings(pts)[i] != Strings(pts)[j]
  {
    JsonPointer.StringInjective(pts[i], pts[j]);
  }

  /** `Slashes`: the raw tokens of each pointer joined with `/`, unescaped and without a leading slash. */
  function Slashes(pts: seq<Pointer>): (r: seq<string>)
    ensures |r| == |pts|
    ensures forall i :: 0 <= i < |pts| ==> r[i] == Join(JsonPointer.Strings(pts[i]), "/")
  {
    seq(|pts|, i requires 0 <= i < |pts| => Join(JsonPointer.Strings(pts[i]), "/"))
  }

  /** Slash style is JSON Pointer text without its leading `/` when no token needs escaping. */
  lemma SlashIsPointerTextWithoutLead(pts: seq<Pointer>, i: nat)
    requires i < |pts| && pts[i] != []
    requires forall k :: 0 <= k < |pts[i]| ==> '~' !in pts[i][k] && '/' !in pts[i][k]
    ensures Slashes(pts)[i] == Strings(pts)[i][1..]
  {
    var p := pts[i];
    assert JsonPointer.EscapedStrings(p) == JsonPointer.Strings(p);
    assert ("/" + Join(p, "/"))[1..] == Join(p, "/");
  }

  /**
   * `DotNotations`: each pointer in dot notation; `None` when dot-bracket style
   * meets a pointer whose first token is an index.
   */
  function DotNotations(pts: seq<Pointer>, bracketIndex: bool): (r: Option<seq<string>>)
    ensures r.Some? ==> |r.value| == |pts|
  {
    if pts == [] then Some([])
    else
      match DotNotations(pts[..|pts| - 1], bracketIndex)
      case None => None
      case Some(d) =>
        match JsonPointer.DotNotation(pts[|pts| - 1], bracketIndex)
        case None => None
        case Some(s) => Some(d + [s])
  }

  /** No text at all exactly when some pointer has none. */
  lemma {:induction false} DotNotationsFail(pts: seq<Pointer>, bracketIndex: bool)
    ensures DotNotations(pts, bracketIndex).None? <==>
      exists i :: 0 <= i < |pts| && JsonPointer.DotNotation(pts[i], bracketIndex).None?
  {
    if pts != [] {
      var n := |pts| - 1;
      var front := pts[..n];
      DotNotationsFail(front, bracketIndex);
      if DotNotations(front, bracketIndex).None? {
        var i :| 0 <= i < |front| && JsonPointer.DotNotation(front[i], bracketIndex).None?;
        assert pts[i] == front[i];
      } else if JsonPointer.DotNotation(pts[n], bracketIndex).Some? {
        forall i | 0 <= i < |pts| ensures JsonPointer.DotNotation(pts[i], bracketIndex).Some? {
          if i < n {
            assert pts[i] == front[i];
          }
        }
      }
    }
  }

  /** One text per pointer, in order. */
  lemma {:induction false} DotNotationsElements(pts: seq<Pointer>, bracketIndex: bool)
    requires DotNotations(pts, bracketIndex).Some?
    ensures forall i :: 0 <= i < |pts| ==> Some(DotNotations(pts, bracketIndex).value[i]) == JsonPointer.DotNotation(pts[i], bracketIndex)
  {
    if pts != [] {
      var n := |pts| - 1;
      var front := pts[..n];
      DotNotationsElements(front, bracketIndex);
      assert forall i :: 0 <= i < n ==> pts[i] == front[i];
    }
  }
}
