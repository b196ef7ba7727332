/** One segment of a JSON Pointer (RFC 6901, sections 3 and 4). */
module Token {
  import opened Base
  import opened StrUtil

  /** A token is held unescaped. */
  type Token = string

  /**
   * Replaces `~1` by `/` and `~0` by `~` in one left-to-right pass; text produced
   * by a replacement is not looked at again.
   */
  function UnescapeTokenString(s: string): (r: string)
    ensures |r| <= |s|
    ensures '~' !in s ==> r == s
  {
    if |s| >= 2 && s[0] == '~' && s[1] == '1' then "/" + UnescapeTokenString(s[2..])
    else if |s| >= 2 && s[0] == '~' && s[1] == '0' then "~" + UnescapeTokenString(s[2..])
    else if s == [] then []
    else
      assert s == [s[0]] + s[1..];
      [s[0]] + UnescapeTokenString(s[1..])
  }

  /** Replaces `~` by `~0` and `/` by `~1`. */
  function EscapedString(t: Token): (r: string)
    ensures '/' !in r
    ensures '~' !in t && '/' !in t ==> r == t
  {
    if t == [] then []
    else
      assert t == [t[0]] + t[1..];
      (if t[0] == '~' then "~0" else if t[0] == '/' then "~1" else [t[0]]) + EscapedString(t[1..])
  }

  /** Escaped text as `EscapedString` writes it: no `/`, and every `~` starts `~0` or `~1`. */
  predicate CanonicallyEscaped(s: string) {
    && '/' !in s
    && forall i :: 0 <= i < |s| && s[i] == '~' ==> i + 1 < |s| && (s[i + 1] == '0' || s[i + 1] == '1')
  }

  /** Replaced text is not rescanned: `~01` unescapes to `~1`, not to `/`. */
  lemma UnescapeOnePass()
    ensures UnescapeTokenString("~01") == "~1"
    ensures UnescapeTokenString("~1") == "/"
  {
    assert "~01"[2..] == "1" && "~1"[2..] == "";
    assert UnescapeTokenString("1") == "1";
  }

  /** Escaping works character by character: it distributes over concatenation. */
  lemma {:induction false} EscapedStringAppend(a: string, b: string)
    ensures EscapedString(a + b) == EscapedString(a) + EscapedString(b)
  {
    if a != [] {
      assert (a + b)[1..] == a[1..] + b;
      assert (a + b)[0] == a[0];
      EscapedStringAppend(a[1..], b);
    } else {
      assert a + b == b;
    }
  }

  /** Escaping writes `~` as `~0` and `/` as `~1`. */
  lemma EscapeExamples()
    ensures EscapedString("a/b") == "a~1b"
    ensures EscapedString("~/") == "~0~1"
  {
    assert "a/b"[1..] == "/b" && "/b"[1..] == "b" && "b"[1..] == "";
    assert "~/"[1..] == "/" && "/"[1..] == "";
  }

  /** Unescaping undoes escaping. */
  lemma {:induction false} UnescapeEscaped(t: Token)
    ensures UnescapeTokenString(EscapedString(t)) == t
  {
    if t != [] {
      var rest := EscapedString(t[1..]);
      UnescapeEscaped(t[1..]);
      if t[0] == '~' {
        assert ("~0" + rest)[2..] == rest;
      } else if t[0] == '/' {
        assert ("~1" + rest)[2..] == rest;
      } else {
        assert ([t[0]] + rest)[1..] == rest;
      }
      assert t == [t[0]] + t[1..];
    }
  }

  /** Escaping undoes unescaping on canonically escaped text. */
  lemma {:induction false} EscapeUnescaped(s: string)
    ensures CanonicallyEscaped(s) ==> EscapedString(UnescapeTokenString(s)) == s
  {
    if CanonicallyEscaped(s) && s != [] {
      if s[0] == '~' {
        var rest := s[2..];
        assert CanonicallyEscaped(rest) by {
          forall i | 0 <= i < |rest| && rest[i] == '~'
            ensures i + 1 < |rest| && (rest[i + 1] == '0' || rest[i + 1] == '1')
          {
            assert s[i + 2] == '~';
          }
        }
        EscapeUnescaped(rest);
        var u := UnescapeTokenString(rest);
        if s[1] == '1' {
          assert ("/" + u)[1..] == u;
        } else {
          assert ("~" + u)[1..] == u;
        }
        assert s == [s[0], s[1]] + rest;
      } else {
        var rest := s[1..];
        assert CanonicallyEscaped(rest) by {
          forall i | 0 <= i < |rest| && rest[i] == '~'
            ensures i + 1 < |rest| && (rest[i + 1] == '0' || rest[i + 1] == '1')
          {
            assert s[i + 1] == '~';
          }
        }
        EscapeUnescaped(rest);
        var u := UnescapeTokenString(rest);
        assert ([s[0]] + u)[1..] == u;
        assert s == [s[0]] + rest;
      }
    }
  }

  /** Whatever `EscapedString` writes is canonically escaped. */
  lemma {:induction false} EscapedIsCanonical(t: Token)
    ensures CanonicallyEscaped(EscapedString(t))
  {
    if t != [] {
      var e := if t[0] == '~' then "~0" else if t[0] == '/' then "~1" else [t[0]];
      var rest := EscapedString(t[1..]);
      EscapedIsCanonical(t[1..]);
      var s := e + rest;
      assert EscapedString(t) == s;
      forall i | 0 <= i < |s| && s[i] == '~'
        ensures i + 1 < |s| && (s[i + 1] == '0' || s[i + 1] == '1')
      {
        if i >= |e| {
          assert rest[i - |e|] == '~';
        }
      }
    }
  }

  /** `NewTokenFromEscaped`: the token that escaped text stands for. */
  function NewTokenFromEscaped(s: string): (t: Token)
    ensures CanonicallyEscaped(s) ==> EscapedString(t) == s
    ensures '~' !in s ==> t == s
  {
    EscapeUnescaped(s);
    UnescapeTokenString(s)
  }

  /** `IsInt`: `strconv.Atoi` accepts the token. */
  function IsInt(t: Token): (r: bool)
    ensures r ==> t != [] && (IsDigit(t[0]) || t[0] == '+' || t[0] == '-')
    ensures r ==> forall i :: 1 <= i < |t| ==> IsDigit(t[i])
    ensures r ==> IsDigit(t[|t| - 1])
    ensures t != [] && AllDigits(t) && DigitsValue(t) <= MaxInt ==> r
  {
    Atoi(t).Some?
  }

  /**
   * The full shape of an int token, by its first character: a `-` followed by at
   * least one digit worth at most 2^63, a `+` followed by at least one digit worth at
   * most 2^63 - 1, or digits alone worth at most 2^63 - 1.
   */
  lemma IsIntBySign(d: string)
    ensures IsInt(['-'] + d) <==> d != [] && AllDigits(d) && DigitsValue(d) <= -MinInt
    ensures IsInt(['+'] + d) <==> d != [] && AllDigits(d) && DigitsValue(d) <= MaxInt
    ensures d != [] && IsDigit(d[0]) ==> (IsInt(d) <==> AllDigits(d) && DigitsValue(d) <= MaxInt)
  {
    assert (['-'] + d)[1..] == d && (['+'] + d)[1..] == d;
  }

  /** A lone sign is not an int; signed digits are. */
  lemma IsIntExamples()
    ensures !IsInt("-") && !IsInt("+") && !IsInt("")
    ensures IsInt("-5") && IsInt("+7") && IsInt("07")
  {
    IsIntBySign("");
    IsIntBySign("5");
    IsIntBySign("7");
    assert "-5" == ['-'] + "5" && "+7" == ['+'] + "7";
    assert DigitsValue("5") == 5 by { assert "5"[..0] == ""; }
    assert DigitsValue("7") == 7 by { assert "7"[..0] == ""; }
    assert DigitsValue("07") == 7 by { assert "07"[..1] == "0" && "0"[..0] == ""; }
  }

  /** `IsIndex`: an integer token with no sign and no superfluous leading zero. */
  function IsIndex(t: Token): (r: bool)
    ensures r ==> IsInt(t) && AllDigits(t)
  {
    if !IsInt(t) then false
    else if t[0] == '+' || t[0] == '-' || (|t| > 1 && t[0] == '0') then false
    else true
  }

  /** An index token is exactly the decimal form of a non-negative int. */
  lemma IsIndexIsDecimalForm(t: Token)
    ensures IsIndex(t) <==> Atoi(t).Some? && Atoi(t).value >= 0 && Itoa(Atoi(t).value) == t
  {
    if IsIndex(t) {
      CanonicalDigits(t);
    }
    if Atoi(t).Some? && Atoi(t).value >= 0 && Itoa(Atoi(t).value) == t {
      assert t == NatToString(Atoi(t).value);
    }
  }

  /** Every array position renders as an index token that reads back as that position. */
  lemma PositionIsIndex(i: nat)
    requires i <= MaxInt
    ensures IsIndex(Itoa(i)) && Atoi(Itoa(i)) == Some(i)
  {
    AtoiItoa(i);
    IsIndexIsDecimalForm(Itoa(i));
  }
}
