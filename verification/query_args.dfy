/**
 * How `paginate_questions` obtains its page number:
 * `request.args.get('page', 1, type=int)`. The argument is absent (default 1),
 * or its text is handed to Python's `int()`; a `ValueError` from `int()` also
 * yields the default 1. This module models `int()` on text of ASCII characters.
 */
module QueryArgs {
  import opened Wrappers

  /** The page used when the argument is absent or is not an integer. */
  const DEFAULT_PAGE: int := 1

  /** The white space `int()` skips around a number in ASCII text: tab,
      line feed, vertical tab, form feed, carriage return (9..13) and the
      space (32). The information separators (28..31) are not among them:
      ASCII text reaches the number parser unchanged, and that parser only
      skips the C-locale white space. */
  predicate IsSpace(c: char)
  {
    9 <= c as int <= 13 || c == ' '
  }

  predicate IsDigit(c: char)
  {
    '0' <= c <= '9'
  }

  function DigitValue(c: char): (d: nat)
    requires IsDigit(c)
    ensures d < 10
  {
    c as int - '0' as int
  }

  /** Drops leading white space. */
  function TrimLeft(s: string): (r: string)
    ensures |r| <= |s| && r == s[|s| - |r|..]
    ensures forall i :: 0 <= i < |s| - |r| ==> IsSpace(s[i])
    ensures r == [] || !IsSpace(r[0])
  {
    if s != [] && IsSpace(s[0]) then TrimLeft(s[1..]) else s
  }

  /** Drops trailing white space. */
  function TrimRight(s: string): (r: string)
    ensures |r| <= |s| && r == s[..|r|]
    ensures forall i :: |r| <= i < |s| ==> IsSpace(s[i])
    ensures r == [] || !IsSpace(r[|r| - 1])
  {
    if s != [] && IsSpace(s[|s| - 1]) then TrimRight(s[..|s| - 1]) else s
  }

  /** The digit part that Python accepts in base 10: digits, where a single
      underscore may stand between two digits (`digit ('_'? digit)*`). */
  predicate IsDigitPart(t: string)
  {
    && |t| > 0
    && forall i {:trigger t[i]} :: 0 <= i < |t| ==>
         IsDigit(t[i]) || (t[i] == '_' && 0 < i < |t| - 1 && IsDigit(t[i - 1]) && IsDigit(t[i + 1]))
  }

  /** The value of a digit part, read left to right, ignoring underscores. */
  function DigitsValue(t: string): nat
  {
    if t == [] then 0
    else if IsDigit(t[|t| - 1]) then 10 * DigitsValue(t[..|t| - 1]) + DigitValue(t[|t| - 1])
    else DigitsValue(t[..|t| - 1])
  }

  /** Python's `int(s)` on text: optional surrounding white space, an optional
      sign directly before the digit part, nothing else. `None` stands for the
      `ValueError` that `int()` raises. */
  function ParseInt(s: string): (r: Option<int>)
    ensures TrimRight(TrimLeft(s)) == [] ==> r == None
    ensures r.Some? ==> forall i :: 0 <= i < |s| ==> IsIntChar(s[i])
  {
    AcceptedTextChars(s);
    ParseSigned(TrimRight(TrimLeft(s)))
  }

  /** Text that `int()` accepts holds only white space, signs, digits and
      underscores. */
  lemma AcceptedTextChars(s: string)
    ensures ParseSigned(TrimRight(TrimLeft(s))).Some? ==> forall i :: 0 <= i < |s| ==> IsIntChar(s[i])
  {
    var l := TrimLeft(s);
    var t := TrimRight(l);
    if ParseSigned(t).Some? {
      SignedTextChars(t);
      TrimRightChars(l);
      TrimLeftChars(s);
    }
  }

  /** Trailing white space does not add a character `int()` rejects. */
  lemma TrimRightChars(l: string)
    requires forall j :: 0 <= j < |TrimRight(l)| ==> IsIntChar(TrimRight(l)[j])
    ensures forall i :: 0 <= i < |l| ==> IsIntChar(l[i])
  {
    var t := TrimRight(l);
    forall i | 0 <= i < |l| ensures IsIntChar(l[i]) {
      if i < |t| {
        assert l[i] == t[i];
      }
    }
  }

  /** Leading white space does not add a character `int()` rejects. */
  lemma TrimLeftChars(s: string)
    requires forall j :: 0 <= j < |TrimLeft(s)| ==> IsIntChar(TrimLeft(s)[j])
    ensures forall i :: 0 <= i < |s| ==> IsIntChar(s[i])
  {
    var l := TrimLeft(s);
    var off := |s| - |l|;
    forall i | 0 <= i < |s| ensures IsIntChar(s[i]) {
      if i >= off {
        assert s[i] == l[i - off];
      }
    }
  }

  /** The text between the white space holds only signs, digits and
      underscores when `int()` accepts it. */
  lemma SignedTextChars(t: string)
    requires ParseSigned(t).Some?
    ensures forall j :: 0 <= j < |t| ==> IsIntChar(t[j])
  {
    if t[0] == '-' || t[0] == '+' {
      forall j | 1 <= j < |t| ensures IsIntChar(t[j]) {
        assert t[1..][j - 1] == t[j];
      }
    }
  }

  /** The text between the white space: an optional sign, then a digit part. */
  function ParseSigned(t: string): Option<int>
  {
    if |t| > 0 && (t[0] == '-' || t[0] == '+') then
      if IsDigitPart(t[1..]) then
        var v: int := DigitsValue(t[1..]);
        Some(if t[0] == '-' then -v else v)
      else None
    else if IsDigitPart(t) then Some(DigitsValue(t))
    else None
  }

  /** The page number of a request, given the first `page` query value if
      there is one: the value `int()` reads from it, else the default. What
      `int()` reads (`007`, `+7`, `0_7`, ` 3 `, `-2`, ...) is stated by the lemmas about
      `ParseInt` below. */
  function PageNumber(arg: Option<string>): (page: int)
    ensures arg.None? ==> page == DEFAULT_PAGE
    ensures arg.Some? && ParseInt(arg.value).None? ==> page == DEFAULT_PAGE
    ensures arg.Some? && ParseInt(arg.value).Some? ==> page == ParseInt(arg.value).value
  {
    match arg
    case None => DEFAULT_PAGE
    case Some(s) =>
      match ParseInt(s)
      case Some(n) => n
      case None => DEFAULT_PAGE
  }

  function DigitChar(d: nat): (c: char)
    requires d < 10
    ensures IsDigit(c) && DigitValue(c) == d
  {
    ('0' as int + d) as char
  }

  /** Python's `str(n)` for a natural number: its decimal digits. */
  function NatString(n: nat): (s: string)
    ensures |s| > 0 && forall i :: 0 <= i < |s| ==> IsDigit(s[i])
  {
    if n < 10 then [DigitChar(n)] else NatString(n / 10) + [DigitChar(n % 10)]
  }

  /** Python's `str(n)` for an integer, as a client writes `?page=n`. */
  function IntString(n: int): string
  {
    if n < 0 then "-" + NatString(-n) else NatString(n)
  }

  lemma {:induction false} NatStringValue(n: nat)
    ensures DigitsValue(NatString(n)) == n
  {
    if n >= 10 {
      var s := NatString(n);
      assert s[..|s| - 1] == NatString(n / 10);
      NatStringValue(n / 10);
    }
  }

  /** A string of digits is a digit part. */
  lemma AllDigitsIsDigitPart(t: string)
    requires |t| > 0 && forall i :: 0 <= i < |t| ==> IsDigit(t[i])
    ensures IsDigitPart(t)
  {
  }

  /** Every integer written the way Python writes it is read back as that
      integer: `int(str(n)) == n`. */
  lemma ParseIntOfIntString(n: int)
    ensures ParseInt(IntString(n)) == Some(n)
  {
    var s := IntString(n);
    var m: nat := if n < 0 then -n else n;
    var d := NatString(m);
    AllDigitsIsDigitPart(d);
    NatStringValue(m);
    NoSpaceEnds(s);
    if n < 0 {
      assert s[1..] == d;
    }
  }

  /** Text that neither starts nor ends with white space is not trimmed. */
  lemma NoSpaceEnds(s: string)
    requires s != [] && !IsSpace(s[0]) && !IsSpace(s[|s| - 1])
    ensures TrimRight(TrimLeft(s)) == s
  {
  }

  /** A leading zero, a `+` sign or underscores between digits do not change
      the value: `?page=007`, `?page=+7` and `?page=0_7` all select page 7. */
  lemma ParseIntLeadingZeroAndPlus(t: string)
    requires IsDigitPart(t)
    ensures ParseInt("0" + t) == ParseInt(t)
    ensures ParseInt("+" + t) == ParseInt(t)
    ensures ParseInt("0_" + t) == ParseInt(t)
  {
    ParseIntLeadingZero(t);
    ParseIntPlusSign(t);
    ParseIntZeroGroup(t);
  }

  lemma ParseIntLeadingZero(t: string)
    requires IsDigitPart(t)
    ensures ParseInt("0" + t) == ParseInt(t)
  {
    var u := "0" + t;
    ParseDigitPart(t);
    assert IsDigitPart(u) by {
      forall i | 0 <= i < |u| ensures IsDigit(u[i]) || (u[i] == '_' && 0 < i < |u| - 1 && IsDigit(u[i - 1]) && IsDigit(u[i + 1])) {
        if i > 0 { assert u[i] == t[i - 1]; }
        if i > 1 { assert u[i - 1] == t[i - 2]; }
        if 0 < i < |u| - 1 { assert u[i + 1] == t[i]; }
      }
    }
    ParseDigitPart(u);
    PrefixValue('0', t);
  }

  lemma ParseIntPlusSign(t: string)
    requires IsDigitPart(t)
    ensures ParseInt("+" + t) == ParseInt(t)
  {
    assert IsDigit(t[0]) && IsDigit(t[|t| - 1]);
    NoSpaceEnds(t);
    NoSpaceEnds("+" + t);
    assert ("+" + t)[1..] == t;
  }

  lemma ParseIntZeroGroup(t: string)
    requires IsDigitPart(t)
    ensures ParseInt("0_" + t) == ParseInt(t)
  {
    var u := "0_" + t;
    ZeroGroupIsDigitPart(t);
    ParseDigitPart(t);
    ParseDigitPart(u);
    ZeroGroupValue(t);
  }

  lemma ZeroGroupValue(t: string)
    ensures DigitsValue("0_" + t) == DigitsValue(t)
  {
    PrefixValue('0', "_" + t);
    PrefixValue('_', t);
    assert "0_" + t == "0" + ("_" + t);
  }

  /** Unsigned text in the digit-part grammar reads as its value. */
  lemma ParseDigitPart(t: string)
    requires IsDigitPart(t)
    ensures ParseInt(t) == Some(DigitsValue(t))
  {
    assert IsDigit(t[0]) && IsDigit(t[|t| - 1]);
    NoSpaceEnds(t);
  }

  lemma ZeroGroupIsDigitPart(t: string)
    requires IsDigitPart(t)
    ensures IsDigitPart("0_" + t)
  {
    var u := "0_" + t;
    forall i | 0 <= i < |u| ensures IsDigit(u[i]) || (u[i] == '_' && 0 < i < |u| - 1 && IsDigit(u[i - 1]) && IsDigit(u[i + 1])) {
      if i > 1 { assert u[i] == t[i - 2]; }
      if i > 2 { assert u[i - 1] == t[i - 3]; }
      if 1 < i < |u| - 1 { assert u[i + 1] == t[i - 1]; }
    }
  }

  /** A leading `0` or `_` adds nothing to the value of a digit part. */
  lemma {:induction false} PrefixValue(c: char, u: string)
    requires c == '0' || c == '_'
    ensures DigitsValue([c] + u) == DigitsValue(u)
  {
    if u != [] {
      var w := [c] + u;
      assert w[..|w| - 1] == [c] + u[..|u| - 1];
      assert w[|w| - 1] == u[|u| - 1];
      PrefixValue(c, u[..|u| - 1]);
    }
  }

  /** `?page=n` selects page n, for every integer n, negative ones included. */
  lemma PageNumberOfInteger(n: int)
    ensures PageNumber(Some(IntString(n))) == n
  {
    ParseIntOfIntString(n);
  }

  /** White space around a number does not change what `int()` reads. */
  lemma ParseIntIgnoresSurroundingSpace(pre: string, s: string, post: string)
    requires forall i :: 0 <= i < |pre| ==> IsSpace(pre[i])
    requires forall i :: 0 <= i < |post| ==> IsSpace(post[i])
    requires |s| > 0 && !IsSpace(s[0]) && !IsSpace(s[|s| - 1])
    ensures ParseInt(pre + s + post) == ParseInt(s)
  {
    TrimLeftSpacePrefix(pre, s + post);
    assert pre + s + post == pre + (s + post);
    TrimRightSpaceSuffix(s, post);
    assert TrimRight(TrimLeft(pre + s + post)) == s;
    assert TrimRight(TrimLeft(s)) == s;
  }

  lemma {:induction false} TrimLeftSpacePrefix(pre: string, s: string)
    requires forall i :: 0 <= i < |pre| ==> IsSpace(pre[i])
    requires s != [] && !IsSpace(s[0])
    ensures TrimLeft(pre + s) == s
  {
    if pre != [] {
      assert (pre + s)[1..] == pre[1..] + s;
      TrimLeftSpacePrefix(pre[1..], s);
    } else {
      assert pre + s == s;
    }
  }

  lemma {:induction false} TrimRightSpaceSuffix(s: string, post: string)
    requires forall i :: 0 <= i < |post| ==> IsSpace(post[i])
    requires s != [] && !IsSpace(s[|s| - 1])
    ensures TrimRight(s + post) == s
  {
    if post != [] {
      var p := post[..|post| - 1];
      assert (s + post)[..|s + post| - 1] == s + p;
      TrimRightSpaceSuffix(s, p);
    } else {
      assert s + post == s;
    }
  }

  /** A character that can occur in text `int()` accepts. */
  predicate IsIntChar(c: char)
  {
    IsDigit(c) || IsSpace(c) || c == '+' || c == '-' || c == '_'
  }

  /** Text of ASCII characters only, the text this model of `int()` covers. */
  predicate IsAscii(s: string)
  {
    forall i :: 0 <= i < |s| ==> s[i] as int < 128
  }

  /** ASCII text holding any other character (a letter, a decimal point,
      ...) is not an integer, so the request is served page 1. */
  lemma NonIntegerTextIsPageOne(s: string, k: nat)
    requires IsAscii(s)
    requires k < |s| && !IsIntChar(s[k])
    ensures ParseInt(s) == None
    ensures PageNumber(Some(s)) == DEFAULT_PAGE
  {
  }

  /** The information separators (28..31) are not white space to `int()`,
      whatever else the text holds: Python converts only non-ASCII
      characters before parsing, so these reach the parser unchanged and it
      rejects them. `?page=%1C2` is not an integer, so the request gets
      page 1. */
  lemma SeparatorIsNotSpace(s: string, k: nat)
    requires k < |s| && 28 <= s[k] as int <= 31
    ensures ParseInt(s) == None
    ensures PageNumber(Some(s)) == DEFAULT_PAGE
  {
  }
}
