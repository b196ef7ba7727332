/**
 * JSON Pointers (RFC 6901): parsing, rendering in JSON Pointer text and in dot
 * notation, in-place growth and shrinking, and evaluation against a value.
 */
module JsonPointer {
  import opened Base
  import opened StrUtil
  import opened Token
  import opened Json

  // ---------------------------------------------------------------------------
  // Parsing and rendering

  /** Each piece of escaped text as a token. */
  function UnescapeAll(parts: seq<string>): (r: seq<Token>)
    ensures |r| == |parts|
    ensures forall i :: 0 <= i < |parts| ==> r[i] == NewTokenFromEscaped(parts[i])
  {
    seq(|parts|, i requires 0 <= i < |parts| => NewTokenFromEscaped(parts[i]))
  }

  /** The tokens of pointer text taken as it stands: one unescaped token after each `/`. */
  function TokensOf(text: string): (r: seq<Token>)
    ensures text != "" ==> |r| == Count(text[1..], '/') + 1
  {
    if text == "" then [] else UnescapeAll(Split(text[1..], '/'))
  }

  /**
   * `New`: trims surrounding white space; empty text is the root pointer, text
   * that does not start with `/` is an error, and otherwise every `/` starts one
   * unescaped token.
   */
  function New(pointer: string): (r: Result<seq<Token>>)
    ensures r.Err? <==> TrimSpace(pointer) != "" && TrimSpace(pointer)[0] != '/'
    ensures r.Err? ==> r.error == InvalidPointer(TrimSpace(pointer))
    ensures TrimSpace(pointer) == "" ==> r == Ok([])
    ensures r.Ok? ==> r.value == TokensOf(TrimSpace(pointer))
  {
    var p := TrimSpace(pointer);
    if p == "" then Ok([])
    else if p[0] != '/' then Err(InvalidPointer(p))
    else Ok(TokensOf(p))
  }

  /** A parsed pointer has one token per `/` of the trimmed text. */
  lemma NewTokenCount(pointer: string)
    requires New(pointer).Ok?
    ensures |New(pointer).value| == Count(TrimSpace(pointer), '/')
  {
    var p := TrimSpace(pointer);
    if p != "" {
      assert p == [p[0]] + p[1..];
      CountAppend([p[0]], p[1..], '/');
    }
  }

  /** A lone `/` is one empty token. */
  lemma NewSlash()
    ensures New("/") == Ok([""])
  {
    var t := "/";
    assert TrimSpace(t) == t by { assert Trimmed(t); }
    assert t[1..] == "";
    assert Split("", '/') == [""];
    var r := UnescapeAll([""]);
    assert r[0] == NewTokenFromEscaped("") == "";
    assert r == [""];
    assert TokensOf(t) == r;
  }

  /** `//` is two empty tokens. */
  lemma NewDoubleSlash()
    ensures New("//") == Ok(["", ""])
  {
    var t := "//";
    assert TrimSpace(t) == t by { assert Trimmed(t); }
    assert t[1..] == "/";
    var parts := Split("/", '/');
    assert parts == ["", ""] by {
      assert "/"[1..] == "";
    }
    var r := UnescapeAll(parts);
    assert r[0] == NewTokenFromEscaped("") == "" && r[1] == r[0];
    assert r == ["", ""];
    assert TokensOf(t) == r;
  }

  /** Text that does not start with `/` after trimming is rejected, trimmed, in the error. */
  lemma NewWithoutSlash()
    ensures New(" a") == Err(InvalidPointer("a"))
  {
    var t := " a";
    assert t[0] == ' ' && IsSpace(' ') && t[1..] == "a";
    assert !IsSpace('a');
    assert TrimLeft("a") == "a";
    assert TrimLeft(t) == "a";
    assert TrimRight("a") == "a";
    assert TrimSpace(t) == "a";
  }

  /** `Strings`: the tokens as plain strings, in order. */
  function Strings(p: seq<Token>): (r: seq<string>)
    ensures |r| == |p| && forall i :: 0 <= i < |p| ==> r[i] == p[i]
  {
    p
  }

  /** `EscapedStrings`: every token escaped, in order; none holds a `/`. */
  function EscapedStrings(p: seq<Token>): (r: seq<string>)
    ensures |r| == |p|
    ensures forall i :: 0 <= i < |p| ==> r[i] == EscapedString(p[i]) && '/' !in r[i]
  {
    seq(|p|, i requires 0 <= i < |p| => EscapedString(p[i]))
  }

  /** `String`: the JSON Pointer text, `""` for the root and one `/` per token otherwise. */
  function String(p: seq<Token>): (s: string)
    ensures s == "" <==> p == []
    ensures p != [] ==> s[0] == '/'
  {
    var e := EscapedStrings(p);
    if |e| == 0 then "" else "/" + Join(e, "/")
  }

  /** The text holds exactly one `/` per token: the escaped tokens contain none. */
  lemma StringSlashes(p: seq<Token>)
    ensures Count(String(p), '/') == |p|
  {
    var e := EscapedStrings(p);
    if e != [] {
      CountJoin(e, '/');
      assert ("/" + Join(e, "/"))[1..] == Join(e, "/");
    }
  }

  /** Appending a token appends a slash and the escaped token to the text. */
  lemma StringAppend(p: seq<Token>, t: Token)
    ensures String(p + [t]) == String(p) + "/" + EscapedString(t)
  {
    var e, x := EscapedStrings(p), EscapedString(t);
    EscapedStringsAppend(p, t);
    if p == [] {
      StringAppendToRoot(t);
    } else {
      var j := Join(e, "/");
      calc {
        String(p + [t]);
        "/" + Join(e + [x], "/");
        { JoinAppend(e, x, "/"); }
        "/" + (j + "/" + x);
        { ConcatAssoc("/", j, "/", x); }
        ("/" + j) + "/" + x;
        String(p) + "/" + x;
      }
    }
  }

  lemma StringAppendToRoot(t: Token)
    ensures String([t]) == "" + "/" + EscapedString(t)
  {
    var x := EscapedString(t);
    assert EscapedStrings([t]) == [x];
  }

  lemma ConcatAssoc(a: string, b: string, c: string, d: string)
    ensures a + (b + c + d) == (a + b) + c + d
  {
  }

  lemma EscapedStringsAppend(p: seq<Token>, t: Token)
    ensures EscapedStrings(p + [t]) == EscapedStrings(p) + [EscapedString(t)]
  {
  }

  /** Reading the tokens back from rendered text gives the pointer again. */
  lemma TokensOfString(p: seq<Token>)
    ensures TokensOf(String(p)) == p
  {
    if p != [] {
      var e := EscapedStrings(p);
      assert String(p)[1..] == Join(e, "/");
      SplitJoin(e, '/');
      forall i | 0 <= i < |p| ensures NewTokenFromEscaped(e[i]) == p[i] {
        UnescapeEscaped(p[i]);
      }
    }
  }

  /** Parsing reads back a rendered pointer unless the text ends in white space. */
  lemma ParseString(p: seq<Token>)
    requires Trimmed(String(p))
    ensures New(String(p)) == Ok(p)
  {
    TokensOfString(p);
    assert TrimSpace(String(p)) == String(p);
  }

  /** Rendering writes back parsed text that is trimmed and canonically escaped. */
  lemma StringParse(text: string)
    requires Trimmed(text) && (text == "" || text[0] == '/')
    requires text != "" ==> forall i :: 0 <= i < |Split(text[1..], '/')| ==> CanonicallyEscaped(Split(text[1..], '/')[i])
    ensures New(text).Ok? && String(New(text).value) == text
  {
    if text != "" {
      var parts := Split(text[1..], '/');
      var p := New(text).value;
      assert p == UnescapeAll(parts);
      assert EscapedStrings(p) == parts by {
        forall i | 0 <= i < |parts| ensures EscapedStrings(p)[i] == parts[i] {
          EscapeUnescaped(parts[i]);
        }
      }
      JoinSplit(text[1..], '/');
      assert text == "/" + text[1..];
    }
  }

  /** Distinct pointers render as distinct text. */
  lemma StringInjective(p: seq<Token>, q: seq<Token>)
    requires p != q
    ensures String(p) != String(q)
  {
    TokensOfString(p);
    TokensOfString(q);
  }

  // ---------------------------------------------------------------------------
  // Dot notation

  /**
   * The dot-separated segments of `DotNotation(true)`: an index token is attached
   * to the segment before it as `[token]`; `None` when the first token is an
   * index and there is no segment to attach it to (a run-time panic).
   */
  function BracketSegments(p: seq<Token>): (r: Option<seq<string>>)
    ensures r.None? <==> p != [] && IsIndex(p[0])
    ensures r.Some? ==> (r.value == [] <==> p == [])
  {
    if p == [] then Some([])
    else
      var last := p[|p| - 1];
      assert p[..|p| - 1] != [] ==> p[..|p| - 1][0] == p[0];
      match BracketSegments(p[..|p| - 1])
      case None => None
      case Some(segs) =>
        if IsIndex(last) then
          if segs == [] then None
          else Some(segs[..|segs| - 1] + [segs[|segs| - 1] + "[" + last + "]"])
        else Some(segs + [last])
  }

  /**
   * `DotNotation`: the tokens joined with `.`; with `bracketIndex`, index tokens
   * are written `[n]` after the segment before them. `None` stands for the panic
   * when the first token is an index.
   */
  function DotNotation(p: seq<Token>, bracketIndex: bool): (r: Option<string>)
    ensures r.None? <==> bracketIndex && p != [] && IsIndex(p[0])
    ensures p == [] ==> r == Some("")
  {
    if !bracketIndex then Some(Join(Strings(p), "."))
    else
      match BracketSegments(p)
      case None => None
      case Some(segs) => Some(Join(segs, "."))
  }

  lemma {:induction false} BracketSegmentsWithoutIndices(p: seq<Token>)
    requires forall i :: 0 <= i < |p| ==> !IsIndex(p[i])
    ensures BracketSegments(p) == Some(p)
  {
    if p != [] {
      BracketSegmentsWithoutIndices(p[..|p| - 1]);
      assert p[..|p| - 1] + [p[|p| - 1]] == p;
    }
  }

  /** Without index tokens both dot styles give the same text. */
  lemma DotStylesAgreeWithoutIndices(p: seq<Token>)
    requires forall i :: 0 <= i < |p| ==> !IsIndex(p[i])
    ensures DotNotation(p, true) == DotNotation(p, false)
  {
    BracketSegmentsWithoutIndices(p);
  }

  /** In dot-bracket style a trailing index token is written `[t]` at the end. */
  lemma DotBracketAppendIndex(p: seq<Token>, t: Token)
    requires p != [] && !IsIndex(p[0]) && IsIndex(t)
    ensures DotNotation(p + [t], true) == Some(DotNotation(p, true).value + "[" + t + "]")
  {
    var q := p + [t];
    assert q[..|q| - 1] == p;
    assert q[0] == p[0];
    var segs := BracketSegments(p).value;
    var x := "[" + t + "]";
    assert segs != [];
    assert segs[|segs| - 1] + "[" + t + "]" == segs[|segs| - 1] + x;
    assert BracketSegments(q) == Some(segs[..|segs| - 1] + [segs[|segs| - 1] + x]);
    JoinExtendLast(segs, x, ".");
    assert DotNotation(p, true).value + "[" + t + "]" == Join(segs, ".") + x;
  }

  /** In dot-bracket style a trailing name token starts a new dot segment. */
  lemma DotBracketAppendName(p: seq<Token>, t: Token)
    requires p != [] && !IsIndex(p[0]) && !IsIndex(t)
    ensures DotNotation(p + [t], true) == Some(DotNotation(p, true).value + "." + t)
  {
    var q := p + [t];
    assert q[..|q| - 1] == p;
    JoinAppend(BracketSegments(p).value, t, ".");
  }

  // ---------------------------------------------------------------------------
  // Evaluation against a value

  /**
   * Where evaluation stands: `Zero` is reflection's invalid value (a missing key,
   * or a null root); `Value` holds a value, a nested null included.
   */
  datatype Cursor = Zero | Value(v: Json)

  /** The starting point: a null root is reflection's invalid value. */
  function ValueOf(obj: Json): Cursor {
    if obj.Null? then Zero else Value(obj)
  }

  /**
   * One token: look up a key in an object (missing gives `Zero`), read an array
   * element (a token `Atoi` rejects or an index out of range fails), and leave
   * any other cursor where it is.
   */
  function Step(c: Cursor, token: Token): Option<Cursor> {
    match c
    case Value(Obj(m)) => Some(if token in m then Value(m[token]) else Zero)
    case Value(Arr(a)) =>
      (match Atoi(token)
       case None => None
       case Some(index) => if 0 <= index < |a| then Some(Value(a[index])) else None)
    case _ => Some(c)
  }

  function Walk(c: Cursor, tokens: seq<Token>): Option<Cursor>
    decreases |tokens|
  {
    if tokens == [] then Some(c)
    else
      match Step(c, tokens[0])
      case None => None
      case Some(next) => Walk(next, tokens[1..])
  }

  /** What `Get` answers: the value reached, or `Invalid JSON Pointer` when there is none. */
  function Resolve(tokens: seq<Token>, obj: Json): Result<Json> {
    match Walk(ValueOf(obj), tokens)
    case Some(Value(v)) => Ok(v)
    case _ => Err(InvalidPointer(String(tokens)))
  }

  lemma {:induction false} ZeroAbsorbs(tokens: seq<Token>)
    ensures Walk(Zero, tokens) == Some(Zero)
  {
    if tokens != [] { ZeroAbsorbs(tokens[1..]); }
  }

  lemma {:induction false} ScalarAbsorbs(v: Json, tokens: seq<Token>)
    requires !v.Obj? && !v.Arr?
    ensures Walk(Value(v), tokens) == Some(Value(v))
  {
    if tokens != [] { ScalarAbsorbs(v, tokens[1..]); }
  }

  /** The root pointer returns the value itself; on a null root every pointer fails. */
  lemma ResolveRoot(obj: Json, tokens: seq<Token>)
    ensures obj != Null ==> Resolve([], obj) == Ok(obj)
    ensures Resolve(tokens, Null).Err?
  {
    ZeroAbsorbs(tokens);
  }

  /** A key missing from an object fails, whatever follows it. */
  lemma ResolveMissingKey(m: map<string, Json>, k: Token, rest: seq<Token>)
    requires k !in m
    ensures Resolve([k] + rest, Obj(m)) == Err(InvalidPointer(String([k] + rest)))
  {
    assert ([k] + rest)[1..] == rest;
    ZeroAbsorbs(rest);
  }

  /** On an array, a token `Atoi` rejects or an index out of range fails. */
  lemma ResolveBadIndex(a: seq<Json>, k: Token, rest: seq<Token>)
    requires Atoi(k).None? || !(0 <= Atoi(k).value < |a|)
    ensures Resolve([k] + rest, Arr(a)) == Err(InvalidPointer(String([k] + rest)))
  {
  }

  /** A null stored under a key is returned without error; tokens after it are ignored. */
  lemma ResolveNullUnderKey(m: map<string, Json>, k: Token, rest: seq<Token>)
    requires k in m && m[k] == Null
    ensures Resolve([k] + rest, Obj(m)) == Ok(Null)
  {
    assert ([k] + rest)[1..] == rest;
    ScalarAbsorbs(Null, rest);
  }

  /** Tokens after a string, number or boolean are ignored. */
  lemma ResolveScalarIgnoresRest(v: Json, tokens: seq<Token>)
    requires v.Bool? || v.Num? || v.Str?
    ensures Resolve(tokens, v) == Ok(v)
  {
    ScalarAbsorbs(v, tokens);
  }

  // ---------------------------------------------------------------------------
  // The pointer object, grown and shrunk in place

  class JSONPointer {
    var tokens: seq<Token>

    constructor (tokens: seq<Token>)
      ensures this.tokens == tokens
    {
      this.tokens := tokens;
    }

    /** `Len`: the number of tokens; zero exactly for the root pointer. */
    function Len(): (n: nat)
      reads this
      ensures n == 0 <==> String(tokens) == ""
    {
      |tokens|
    }

    /** `Append`: one more trailing token; the earlier tokens stay. */
    method Append(token: Token) returns (p: JSONPointer)
      modifies this
      ensures p == this
      ensures tokens == old(tokens) + [token]
      ensures String(tokens) == String(old(tokens)) + "/" + EscapedString(token)
    {
      StringAppend(tokens, token);
      tokens := tokens + [token];
      p := this;
    }

    /** `AppendString`: `Append` of a plain string. */
    method AppendString(token: string) returns (p: JSONPointer)
      modifies this
      ensures p == this
      ensures tokens == old(tokens) + [token]
      ensures String(tokens) == String(old(tokens)) + "/" + EscapedString(token)
    {
      p := Append(token);
    }

    /** `Pop`: removes and returns the last token; `""` and no change on the root. */
    method Pop() returns (t: Token)
      modifies this
      ensures old(tokens) == [] ==> t == "" && tokens == []
      ensures old(tokens) != [] ==> old(tokens) == tokens + [t]
    {
      if |tokens| == 0 {
        return "";
      }
      var n := |tokens| - 1;
      var rest := tokens[..n];
      t := tokens[n];
      assert tokens == rest + [t];
      tokens := rest;
    }

    /** `Clone`: a new pointer with the same tokens. */
    method Clone() returns (c: JSONPointer)
      ensures fresh(c) && c.tokens == tokens
    {
      c := new JSONPointer(tokens);
    }

    /**
     * `Get`: walks the value token by token from the root and returns what it
     * reaches, or `Invalid JSON Pointer` with the pointer text.
     */
    method Get(obj: Json) returns (r: Result<Json>)
      ensures r == Resolve(tokens, obj)
    {
      var v := ValueOf(obj);
      var i := 0;
      while i < |tokens|
        invariant 0 <= i <= |tokens|
        invariant Walk(ValueOf(obj), tokens) == Walk(v, tokens[i..])
      {
        var token := tokens[i];
        assert tokens[i..][1..] == tokens[i + 1..];
        match v {
          case Value(Obj(m)) =>
            v := if token in m then Value(m[token]) else Zero;
          case Value(Arr(a)) =>
            var index := Atoi(token);
            if index.None? || !(0 <= index.value < |a|) {
              return Err(InvalidPointer(String(tokens)));
            }
            v := Value(a[index.value]);
          case _ =>
        }
        i := i + 1;
      }
      if v.Zero? {
        return Err(InvalidPointer(String(tokens)));
      }
      r := Ok(v.v);
    }
  }

  /** Package-level `Get`: parses the pointer text, then evaluates it. */
  method Get(obj: Json, pointer: string) returns (r: Result<Json>)
    ensures New(pointer).Err? ==> r == Err(New(pointer).error)
    ensures New(pointer).Ok? ==> r == Resolve(New(pointer).value, obj)
  {
    var p := New(pointer);
    if p.Err? {
      return Err(p.error);
    }
    var jp := new JSONPointer(p.value);
    r := jp.Get(obj);
  }

  /** A clone is independent: appending to it leaves the original alone. */
  method AppendToClone(p: JSONPointer, token: Token) returns (c: JSONPointer)
    ensures fresh(c) && c.tokens == p.tokens + [token]
    ensures unchanged(p)
  {
    c := p.Clone();
    var _ := c.AppendString(token);
  }
}
