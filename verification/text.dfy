/** Go's `strings.TrimSpace` on strings of Unicode code points. */
module Text {

  /** Go's `unicode.IsSpace`: the Latin-1 blanks and the Unicode White_Space set. */
  predicate IsSpace(c: char)
  {
    || c == '\t' || c == '\n' || c == '\U{000B}' || c == '\U{000C}' || c == '\r' || c == ' '
    || c == '\U{0085}' || c == '\U{00A0}' || c == '\U{1680}'
    || ('\U{2000}' <= c <= '\U{200A}')
    || c == '\U{2028}' || c == '\U{2029}' || c == '\U{202F}' || c == '\U{205F}' || c == '\U{3000}'
  }

  /** Every character of `s` is white space (vacuously true of ""). */
  predicate IsBlank(s: string)
  {
    forall k :: 0 <= k < |s| ==> IsSpace(s[k])
  }

  /** Neither starts nor ends with white space. */
  predicate IsTrimmed(s: string)
  {
    s == [] || (!IsSpace(s[0]) && !IsSpace(s[|s| - 1]))
  }

  /** Drops the white space at the start of `s`. */
  function TrimLeft(s: string): (r: string)
    ensures |r| <= |s|
    ensures r == [] || !IsSpace(r[0])
    decreases |s|
  {
    if s != [] && IsSpace(s[0]) then TrimLeft(s[1..]) else s
  }

  /** Drops the white space at the end of `s`. */
  function TrimRight(s: string): (r: string)
    ensures |r| <= |s|
    ensures r == [] || !IsSpace(r[|r| - 1])
    decreases |s|
  {
    if s != [] && IsSpace(s[|s| - 1]) then TrimRight(s[..|s| - 1]) else s
  }

  /** `strings.TrimSpace`: `s` without the white space at either end. */
  function TrimSpace(s: string): (r: string)
    ensures |r| <= |s|
    ensures IsTrimmed(r)
  {
    var l := TrimLeft(s);
    var r := TrimRight(l);
    TrimRightDropsBlankSuffix(l);
    assert r != [] ==> r[0] == l[0];
    r
  }

  /** TrimLeft removes a run of white space from the front and keeps the rest. */
  lemma {:induction false} TrimLeftDropsBlankPrefix(s: string)
    ensures var r := TrimLeft(s);
      && r == s[|s| - |r|..] && IsBlank(s[..|s| - |r|])
    decreases |s|
  {
    if s != [] && IsSpace(s[0]) {
      TrimLeftDropsBlankPrefix(s[1..]);
      var r := TrimLeft(s);
      assert s[..|s| - |r|] == [s[0]] + s[1..][..|s| - 1 - |r|];
    }
  }

  /** TrimRight removes a run of white space from the back and keeps the rest. */
  lemma {:induction false} TrimRightDropsBlankSuffix(s: string)
    ensures var r := TrimRight(s);
      && r == s[..|r|] && IsBlank(s[|r|..])
    decreases |s|
  {
    if s != [] && IsSpace(s[|s| - 1]) {
      TrimRightDropsBlankSuffix(s[..|s| - 1]);
      var r := TrimRight(s);
      assert s[|r|..] == s[..|s| - 1][|r|..] + [s[|s| - 1]];
    }
  }

  /** TrimSpace keeps the part of `s` between a blank run at the front (of length `d`) and a
      blank run at the back; it leaves nothing exactly of a blank string. */
  lemma TrimSpaceRemovesBlanks(s: string)
    ensures var r := TrimSpace(s);
      var d := |s| - |TrimLeft(s)|;
      && d + |r| <= |s| && r == s[d..d + |r|]
      && IsBlank(s[..d]) && IsBlank(s[d + |r|..])
      && (r == [] <==> IsBlank(s))
  {
    var l := TrimLeft(s);
    var r := TrimSpace(s);
    var d := |s| - |l|;
    TrimLeftDropsBlankPrefix(s);
    TrimRightDropsBlankSuffix(l);
    assert s[d + |r|..] == l[|r|..];
    if r == [] {
      assert s == s[..d] + s[d..];
    } else {
      assert r[0] == s[d];
    }
  }

  /** A string that neither starts nor ends with white space is its own trimming. */
  lemma TrimmedIsFixpoint(t: string)
    requires IsTrimmed(t)
    ensures TrimSpace(t) == t
  {
    assert TrimLeft(t) == t;
    assert TrimRight(t) == t;
  }

  /** Trimming an already trimmed string changes nothing. */
  lemma TrimSpaceIdempotent(s: string)
    ensures TrimSpace(TrimSpace(s)) == TrimSpace(s)
  {
    TrimmedIsFixpoint(TrimSpace(s));
  }
}
