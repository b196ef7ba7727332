/**
 * The older pointer helper of the command-line program: a pointer is a list of
 * keys, each a string part or an int index. Parsing turns every segment that
 * `strconv.Atoi` accepts into an int key and unescapes the others; the keys are
 * rendered back as JSON Pointer text or in dot notation.
 */
module JsonUtil {
  import opened Base
  import opened StrUtil
  import Token

  /** One element of `Keys`: a string part or an int index. */
  datatype Key = StrKey(s: string) | IntKey(n: int)

  // ---------------------------------------------------------------------------
  // Escaping one part

  /** `escapePart`: `~` becomes `~0` and `/` becomes `~1`, in one pass. */
  function EscapePart(part: string): (r: string)
    ensures '/' !in r && Token.CanonicallyEscaped(r)
    ensures UnescapePart(r) == part
    ensures '~' !in part && '/' !in part ==> r == part
  {
    Token.UnescapeEscaped(part);
    Token.EscapedIsCanonical(part);
    Token.EscapedString(part)
  }

  /** `unescapePart`: `~1` becomes `/` and `~0` becomes `~`, in one pass. */
  function UnescapePart(part: string): (r: string)
    ensures '~' !in part ==> r == part
  {
    Token.UnescapeTokenString(part)
  }

  /** Canonically escaped text is what escaping its unescaped form gives. */
  lemma EscapeUnescapedPart(part: string)
    requires Token.CanonicallyEscaped(part)
    ensures EscapePart(UnescapePart(part)) == part
  {
    Token.EscapeUnescaped(part);
  }

  /** Escaping marks every part that held a `~` or a `/`. */
  lemma {:induction false} EscapeMarks(part: string)
    requires '~' in part || '/' in part
    ensures '~' in EscapePart(part)
  {
    var r := Token.EscapedString(part);
    assert part == [part[0]] + part[1..];
    if part[0] == '~' || part[0] == '/' {
      assert r[0] == '~';
    } else {
      EscapeMarks(part[1..]);
      assert r == [part[0]] + Token.EscapedString(part[1..]);
    }
  }

  /** `Atoi` rejects text holding a `~`. */
  lemma AtoiRejectsTilde(t: string)
    requires '~' in t
    ensures Atoi(t).None?
  {
    var i :| 0 <= i < |t| && t[i] == '~';
    if |t| > 0 && (t[0] == '+' || t[0] == '-') {
      assert t[1..][i - 1] == '~';
    }
  }

  /** Decimal text holds neither `~` nor `/`. */
  lemma ItoaPlain(n: int)
    ensures '~' !in Itoa(n) && '/' !in Itoa(n)
  {
    var d := NatToString(if n < 0 then -n else n);
    assert AllDigits(d);
    if n < 0 {
      assert Itoa(n) == "-" + d;
      assert forall i :: 1 <= i < |Itoa(n)| ==> Itoa(n)[i] == d[i - 1];
    }
  }

  // ---------------------------------------------------------------------------
  // Parsing

  /** The key of one segment: an int key when `Atoi` accepts it, its unescaped text otherwise. */
  function PartKey(part: string): (k: Key)
    ensures k.IntKey? <==> Atoi(part).Some?
  {
    match Atoi(part)
    case Some(n) => IntKey(n)
    case None => StrKey(UnescapePart(part))
  }

  /** The segments of trimmed pointer text: the pieces between the slashes after the first. */
  function Segments(text: string): (r: seq<string>)
    requires text != []
    ensures |r| >= 1 && |r| == Count(text[1..], '/') + 1
    ensures forall i :: 0 <= i < |r| ==> '/' !in r[i]
  {
    Split(text[1..], '/')
  }

  /** One key per segment, in order. */
  function SegmentKeys(parts: seq<string>): (r: seq<Key>)
    ensures |r| == |parts| && forall i :: 0 <= i < |parts| ==> r[i] == PartKey(parts[i])
  {
    seq(|parts|, i requires 0 <= i < |parts| => PartKey(parts[i]))
  }

  /**
   * What `ParseJSONPointer` returns: an error for trimmed text that does not
   * start with `/` (the empty text included), otherwise one key per segment.
   */
  function Parsed(pointer: string): (r: Result<seq<Key>>)
    ensures var t := TrimSpace(pointer);
      && (r.Err? <==> t == [] || t[0] != '/')
      && (r.Err? ==> r.error == InvalidPointer(t))
      && (r.Ok? ==> |r.value| >= 1 && |r.value| == Count(t, '/'))
  {
    var t := TrimSpace(pointer);
    if t == [] || t[0] != '/' then Err(InvalidPointer(t))
    else
      assert t == [t[0]] + t[1..];
      Ok(SegmentKeys(Segments(t)))
  }

  /** `ParseJSONPointer`: trims, checks the leading slash, and converts the segments one by one. */
  method ParseJSONPointer(pointer: string) returns (r: Result<seq<Key>>)
    ensures r == Parsed(pointer)
  {
    var text := TrimSpace(pointer);
    if !(|text| > 0 && text[0] == '/') {
      return Err(InvalidPointer(text));
    }
    var keys := ConvertSegments(Segments(text));
    r := Ok(keys);
  }

  /** The loop of `ParseJSONPointer`: an int key for a segment `Atoi` accepts, its unescaped text otherwise. */
  method ConvertSegments(parts: seq<string>) returns (keys: seq<Key>)
    ensures keys == SegmentKeys(parts)
  {
    keys := [];
    var i := 0;
    while i < |parts|
      invariant 0 <= i <= |parts|
      invariant |keys| == i
      invariant forall j :: 0 <= j < i ==> keys[j] == PartKey(parts[j])
    {
      var index := Atoi(parts[i]);
      var key: Key;
      if index.Some? {
        key := IntKey(index.value);
      } else {
        key := StrKey(UnescapePart(parts[i]));
      }
      assert key == PartKey(parts[i]);
      keys := keys + [key];
      i := i + 1;
    }
  }

  /** A lone slash is one empty string key. */
  lemma ParseSlash()
    ensures Parsed("/") == Ok([StrKey("")])
  {
    assert TrimSpace("/") == "/";
    assert Segments("/") == [""];
    assert PartKey("") == StrKey("");
    var r := Parsed("/");
    assert r.Ok?;
    assert |r.value| == 1;
    assert r.value[0] == PartKey(Segments("/")[0]);
    assert r.value == [StrKey("")];
  }

  // ---------------------------------------------------------------------------
  // Rendering

  /** The text `join` gives one key: the string, or the int in decimal; escaped when asked. */
  function PartText(k: Key, escape: bool): (r: string)
    ensures escape ==> '/' !in r
    ensures k.IntKey? ==> r == Itoa(k.n)
    ensures k.StrKey? && !escape ==> r == k.s
  {
    var part := match k case StrKey(s) => s case IntKey(n) => Itoa(n);
    assert k.IntKey? ==> '~' !in part && '/' !in part by {
      if k.IntKey? { ItoaPlain(k.n); }
    }
    if escape then EscapePart(part) else part
  }

  function PartTexts(keys: seq<Key>, escape: bool): (r: seq<string>)
    ensures |r| == |keys| && forall i :: 0 <= i < |keys| ==> r[i] == PartText(keys[i], escape)
  {
    seq(|keys|, i requires 0 <= i < |keys| => PartText(keys[i], escape))
  }

  /** `join`: the text of every key, in order, separated by `sep`. */
  method JoinKeys(keys: seq<Key>, sep: string, escape: bool) returns (s: string)
    ensures s == Join(PartTexts(keys, escape), sep)
  {
    var parts: seq<string> := [];
    var i := 0;
    while i < |keys|
      invariant 0 <= i <= |keys|
      invariant |parts| == i
      invariant forall j :: 0 <= j < i ==> parts[j] == PartText(keys[j], escape)
    {
      var part := match keys[i] case StrKey(s) => s case IntKey(n) => Itoa(n);
      if escape {
        part := EscapePart(part);
      }
      parts := parts + [part];
      i := i + 1;
    }
    assert parts == PartTexts(keys, escape);
    s := Join(parts, sep);
  }

  /** The JSON Pointer text of a key list: a slash, then the escaped parts separated by slashes. */
  function PointerText(keys: seq<Key>): (s: string)
    ensures s != [] && s[0] == '/'
    ensures keys != [] ==> Count(s, '/') == |keys|
    ensures keys == [] ==> s == "/"
  {
    var parts := PartTexts(keys, true);
    assert parts != [] ==> Count(Join(parts, "/"), '/') == |parts| - 1 by {
      if parts != [] { CountJoin(parts, '/'); }
    }
    assert ("/" + Join(parts, "/"))[1..] == Join(parts, "/");
    "/" + Join(parts, "/")
  }

  /** `Keys.JSONPointer`. */
  method JSONPointer(keys: seq<Key>) returns (s: string)
    ensures s == PointerText(keys)
  {
    s := JoinKeys(keys, "/", true);
    s := "/" + s;
  }

  /** Text whose int-like segments are in decimal form and whose other segments are canonically escaped. */
  predicate CanonicalSegment(seg: string) {
    match Atoi(seg)
    case Some(n) => Itoa(n) == seg
    case None => Token.CanonicallyEscaped(seg)
  }

  lemma SegmentRoundTrip(seg: string)
    requires CanonicalSegment(seg)
    ensures PartText(PartKey(seg), true) == seg
  {
    match Atoi(seg)
    case Some(n) =>
      ItoaPlain(n);
    case None =>
      EscapeUnescapedPart(seg);
  }

  /**
   * Rendering parsed pointer text gives the text back, when the text has no
   * surrounding white space and no segment is an int in a non-decimal form
   * (`+1`, `007`, `-0`) or escaped in a non-canonical way.
   */
  lemma PointerTextOfParsed(p: string)
    requires Trimmed(p) && p != [] && p[0] == '/'
    requires forall seg :: seg in Segments(p) ==> CanonicalSegment(seg)
    ensures Parsed(p).Ok? && PointerText(Parsed(p).value) == p
  {
    var parts := Segments(p);
    var keys := Parsed(p).value;
    assert PartTexts(keys, true) == parts by {
      forall i | 0 <= i < |parts| ensures PartTexts(keys, true)[i] == parts[i] {
        assert parts[i] in parts;
        SegmentRoundTrip(parts[i]);
      }
    }
    JoinSplit(p[1..], '/');
    assert p == "/" + p[1..];
  }

  /** A key that survives rendering and parsing: a string `Atoi` rejects, or an int in the 64-bit range. */
  predicate RoundTrips(k: Key) {
    match k
    case StrKey(s) => Atoi(s).None?
    case IntKey(n) => MinInt <= n <= MaxInt
  }

  lemma KeyRoundTrip(k: Key)
    requires RoundTrips(k)
    ensures PartKey(PartText(k, true)) == k
  {
    match k
    case StrKey(s) =>
      if '~' in s || '/' in s {
        EscapeMarks(s);
        AtoiRejectsTilde(EscapePart(s));
      }
    case IntKey(n) =>
      ItoaPlain(n);
      AtoiItoa(n);
  }

  /**
   * Parsing rendered keys gives them back, when the list is not empty (the empty
   * list renders as `/`, which parses as one empty string key), every key
   * round-trips and the text has no surrounding white space.
   */
  lemma ParsedOfPointerText(keys: seq<Key>)
    requires keys != []
    requires forall k :: k in keys ==> RoundTrips(k)
    requires Trimmed(PointerText(keys))
    ensures Parsed(PointerText(keys)) == Ok(keys)
  {
    var parts := PartTexts(keys, true);
    var text := PointerText(keys);
    assert text[1..] == Join(parts, "/");
    SplitJoin(parts, '/');
    assert Segments(text) == parts;
    forall i | 0 <= i < |keys| ensures PartKey(parts[i]) == keys[i] {
      assert keys[i] in keys;
      KeyRoundTrip(keys[i]);
    }
    assert TrimSpace(text) == text;
    assert Parsed(text).value == keys;
  }

  // ---------------------------------------------------------------------------
  // Dot notation

  /**
   * The parts of dot-bracket notation: each string key starts a part and each
   * int key is appended to the part before it as `[n]`; `None` when an int key
   * has no part before it (the index-out-of-range panic).
   */
  function BracketParts(keys: seq<Key>): (r: Option<seq<string>>)
    ensures r.None? <==> keys != [] && keys[0].IntKey?
    ensures r.Some? && keys != [] ==> |r.value| >= 1
  {
    if keys == [] then Some([])
    else
      var n := |keys| - 1;
      assert n > 0 ==> keys[..n][0] == keys[0];
      match BracketParts(keys[..n])
      case None => None
      case Some(parts) =>
        match keys[n]
        case StrKey(s) => Some(parts + [s])
        case IntKey(i) =>
          if parts == [] then None
          else Some(parts[..|parts| - 1] + [parts[|parts| - 1] + "[" + Itoa(i) + "]"])
  }

  /** What `Keys.DotNotation` gives: the plain parts joined with `.`, or the bracket parts joined with `.`. */
  function DotText(keys: seq<Key>, bracketIndex: bool): (r: Option<string>)
    ensures r.None? <==> bracketIndex && keys != [] && keys[0].IntKey?
  {
    if !bracketIndex then Some(Join(PartTexts(keys, false), "."))
    else
      match BracketParts(keys)
      case None => None
      case Some(parts) => Some(Join(parts, "."))
  }

  /** `Keys.DotNotation`. */
  method DotNotation(keys: seq<Key>, bracketIndex: bool) returns (r: Option<string>)
    ensures r == DotText(keys, bracketIndex)
  {
    if !bracketIndex {
      var s := JoinKeys(keys, ".", false);
      return Some(s);
    }
    var parts: seq<string> := [];
    var i := 0;
    while i < |keys|
      invariant 0 <= i <= |keys|
      invariant BracketParts(keys[..i]) == Some(parts)
    {
      assert keys[..i + 1][..i] == keys[..i];
      match keys[i] {
        case StrKey(s) =>
          parts := parts + [s];
        case IntKey(n) =>
          if |parts| == 0 {
            assert keys[..i + 1][0] == keys[0];
            return None;
          }
          parts := parts[..|parts| - 1] + [parts[|parts| - 1] + "[" + Itoa(n) + "]"];
      }
      i := i + 1;
    }
    assert keys[..|keys|] == keys;
    r := Some(Join(parts, "."));
  }

  /** Without int keys both notations agree. */
  lemma {:induction false} DotStylesAgreeWithoutInts(keys: seq<Key>)
    requires forall k :: k in keys ==> k.StrKey?
    ensures BracketParts(keys) == Some(PartTexts(keys, false))
    ensures DotText(keys, true) == DotText(keys, false)
  {
    if keys != [] {
      var n := |keys| - 1;
      assert forall k :: k in keys[..n] ==> k in keys;
      DotStylesAgreeWithoutInts(keys[..n]);
      assert keys[n] in keys;
      assert PartTexts(keys, false) == PartTexts(keys[..n], false) + [keys[n].s];
    }
  }

  lemma BracketPartsAppendInt(keys: seq<Key>, n: int)
    requires keys != [] && keys[0].StrKey?
    ensures var parts := BracketParts(keys).value;
      BracketParts(keys + [IntKey(n)]) == Some(parts[..|parts| - 1] + [parts[|parts| - 1] + ("[" + Itoa(n) + "]")])
  {
    var parts := BracketParts(keys).value;
    var last := parts[|parts| - 1];
    assert (keys + [IntKey(n)])[..|keys|] == keys;
    assert last + "[" + Itoa(n) + "]" == last + ("[" + Itoa(n) + "]");
  }

  /** In bracket notation an int key extends the last part with `[n]`. */
  lemma DotBracketAppendInt(keys: seq<Key>, n: int)
    requires keys != [] && keys[0].StrKey?
    ensures DotText(keys + [IntKey(n)], true) == Some(DotText(keys, true).value + "[" + Itoa(n) + "]")
  {
    var q := keys + [IntKey(n)];
    var parts := BracketParts(keys).value;
    var t := Itoa(n);
    var x := "[" + t + "]";
    BracketPartsAppendInt(keys, n);
    var qparts := parts[..|parts| - 1] + [parts[|parts| - 1] + x];
    assert DotText(q, true) == Some(Join(qparts, "."));
    JoinExtendLast(parts, x, ".");
    assert DotText(keys, true).value == Join(parts, ".");
    assert Join(parts, ".") + "[" + t + "]" == Join(parts, ".") + x;
  }

  /** In bracket notation a string key after a non-empty list starts a new part after a `.`. */
  lemma DotBracketAppendStr(keys: seq<Key>, s: string)
    requires keys != [] && keys[0].StrKey?
    ensures DotText(keys + [StrKey(s)], true) == Some(DotText(keys, true).value + "." + s)
  {
    var parts := BracketParts(keys).value;
    assert (keys + [StrKey(s)])[..|keys|] == keys;
    JoinAppend(parts, s, ".");
  }
}
