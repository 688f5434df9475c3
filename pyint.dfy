/** Python's conversions between `int` and `str` in base 10: `str(n)` and
    `int(s)`. The server parses `compress_level` and `quality` with `int`,
    and the client's URL serialiser stringifies integer arguments with
    `str`. */
module PyInt {
  import opened Common

  predicate IsDigit(c: char) { '0' <= c <= '9' }

  /** The whitespace `int()` strips from both ends of its argument (the ASCII
      characters for which `str.isspace` holds). */
  predicate IsSpace(c: char)
  {
    c == ' ' || c == '\t' || c == '\n' || c == '\r' || c == '\U{B}' || c == '\U{C}'
    || ('\U{1C}' <= c <= '\U{1F}')
  }

  function DigitChar(d: nat): char
    requires d < 10
  {
    (d + '0' as int) as char
  }

  function DigitValue(c: char): nat
    requires IsDigit(c)
  {
    c as int - '0' as int
  }

  /** The decimal digits of a natural number, most significant first. */
  function NatToDigits(n: nat): (r: string)
    ensures |r| >= 1
    ensures forall i :: 0 <= i < |r| ==> IsDigit(r[i])
    decreases n
  {
    if n < 10 then [DigitChar(n)] else NatToDigits(n / 10) + [DigitChar(n % 10)]
  }

  /** `str(n)` for a Python int. */
  function IntToStr(n: int): (r: string)
  {
    if n < 0 then "-" + NatToDigits(-n) else NatToDigits(n)
  }

  /** The value of a string of decimal digits. */
  function DigitsValue(s: string): nat
    requires forall i :: 0 <= i < |s| ==> IsDigit(s[i])
  {
    if s == [] then 0 else DigitsValue(s[..|s| - 1]) * 10 + DigitValue(s[|s| - 1])
  }

  lemma {:induction false} DigitsRoundTrip(n: nat)
    ensures DigitsValue(NatToDigits(n)) == n
    decreases n
  {
    if n >= 10 {
      var r := NatToDigits(n);
      assert r[..|r| - 1] == NatToDigits(n / 10);
      DigitsRoundTrip(n / 10);
    }
  }

  /** A digit run as Python's `int()` accepts it: digits, with single
      underscores allowed between two digits. */
  predicate IsDigitRun(s: string)
  {
    && |s| >= 1
    && IsDigit(s[0])
    && IsDigit(s[|s| - 1])
    && (forall i :: 0 <= i < |s| ==> IsDigit(s[i]) || s[i] == '_')
    && (forall i, j :: 0 <= i < |s| && 0 <= j < |s| && j == i + 1 ==> !(s[i] == '_' && s[j] == '_'))
  }

  /** The digits of a run, underscores dropped. */
  function DropUnderscores(s: string): (r: string)
    requires forall i :: 0 <= i < |s| ==> IsDigit(s[i]) || s[i] == '_'
    ensures forall i :: 0 <= i < |r| ==> IsDigit(r[i])
  {
    if s == [] then []
    else if s[0] == '_' then DropUnderscores(s[1..])
    else [s[0]] + DropUnderscores(s[1..])
  }

  function StripLeft(s: string): (r: string)
    ensures |r| <= |s|
    ensures r == [] || !IsSpace(r[0])
  {
    if s != [] && IsSpace(s[0]) then StripLeft(s[1..]) else s
  }

  function StripRight(s: string): (r: string)
    ensures |r| <= |s|
    ensures r == [] || !IsSpace(r[|r| - 1])
  {
    if s != [] && IsSpace(s[|s| - 1]) then StripRight(s[..|s| - 1]) else s
  }

  /** `s` with the whitespace at both ends removed (`str.strip`). */
  function Strip(s: string): (r: string)
    ensures |r| <= |s|
  {
    StripRight(StripLeft(s))
  }

  /** The value of an unsigned digit run, None for anything else. */
  function ParseUnsigned(t: string): (r: Option<nat>)
    ensures r.Some? <==> IsDigitRun(t)
  {
    if IsDigitRun(t) then Some(DigitsValue(DropUnderscores(t))) else None
  }

  /** An optionally signed digit run, None for anything else. */
  function ParseSigned(t: string): (r: Option<int>)
  {
    if |t| >= 1 && (t[0] == '-' || t[0] == '+') then
      match ParseUnsigned(t[1..])
      case None => None
      case Some(v) =>
        var n: int := v;
        Some(if t[0] == '-' then -n else n)
    else ParseUnsigned(t)
  }

  /** `int(s)` with base 10: surrounding whitespace is ignored, an optional
      sign may precede the digit run, and anything else is a `ValueError`
      (None). */
  function ParseInt(s: string): (r: Option<int>)
  {
    ParseSigned(Strip(s))
  }

  lemma {:induction false} DropUnderscoresOfDigits(s: string)
    requires forall i :: 0 <= i < |s| ==> IsDigit(s[i])
    ensures DropUnderscores(s) == s
  {
    if s != [] {
      DropUnderscoresOfDigits(s[1..]);
    }
  }

  /** Stripping leaves a string alone whose ends are not whitespace. */
  lemma StripNothing(s: string)
    requires |s| >= 1 && !IsSpace(s[0]) && !IsSpace(s[|s| - 1])
    ensures Strip(s) == s
  {
  }

  lemma DigitsAreRun(d: string)
    requires |d| >= 1 && forall i :: 0 <= i < |d| ==> IsDigit(d[i])
    ensures IsDigitRun(d)
  {
  }

  /** `int(str(n)) == n` for every integer. */
  lemma IntRoundTrip(n: int)
    ensures ParseInt(IntToStr(n)) == Some(n)
  {
    var m: nat := if n < 0 then -n else n;
    var d := NatToDigits(m);
    DigitsRoundTrip(m);
    UnsignedDigits(d);
    if n < 0 {
      ParseNegativeDigits(d, m);
    } else {
      ParseDigits(d, m);
    }
  }

  /** A plain run of digits is an unsigned number of that value. */
  lemma UnsignedDigits(d: string)
    requires |d| >= 1 && forall i :: 0 <= i < |d| ==> IsDigit(d[i])
    ensures ParseUnsigned(d) == Some(DigitsValue(d))
  {
    DropUnderscoresOfDigits(d);
    DigitsAreRun(d);
  }

  /** A plain run of digits parses to its value. */
  lemma ParseDigits(d: string, v: nat)
    requires |d| >= 1 && IsDigit(d[0]) && IsDigit(d[|d| - 1]) && ParseUnsigned(d) == Some(v)
    ensures ParseInt(d) == Some(v)
  {
    SignedPlain(d, v);
    StripNothing(d);
    ParseOfStripped(d, v);
  }

  /** A minus sign followed by a run of digits parses to the negated value. */
  lemma ParseNegativeDigits(d: string, v: nat)
    requires |d| >= 1 && IsDigit(d[|d| - 1]) && ParseUnsigned(d) == Some(v)
    ensures ParseInt("-" + d) == Some(-(v as int))
  {
    var s := "-" + d;
    SignedNegative(d, v);
    assert s[|s| - 1] == d[|d| - 1];
    StripNothing(s);
    ParseOfStripped(s, -(v as int));
  }

  lemma ParseOfStripped(s: string, v: int)
    requires Strip(s) == s && ParseSigned(s) == Some(v)
    ensures ParseInt(s) == Some(v)
  {
  }

  lemma SignedNegative(d: string, v: nat)
    requires ParseUnsigned(d) == Some(v)
    ensures ParseSigned("-" + d) == Some(-(v as int))
  {
    assert ("-" + d)[1..] == d;
  }

  lemma SignedPlain(d: string, v: nat)
    requires |d| >= 1 && IsDigit(d[0]) && ParseUnsigned(d) == Some(v)
    ensures ParseSigned(d) == Some(v)
  {
  }

  /** A character that is neither a digit nor an underscore spoils a digit run. */
  lemma BadCharNotUnsigned(t: string, j: nat)
    requires j < |t| && !IsDigit(t[j]) && t[j] != '_'
    ensures ParseUnsigned(t) == None
  {
  }

  /** A value holding a character that is neither whitespace, a digit, a sign
      nor an underscore is never an integer (for example "7.5" or "high"). */
  lemma NonNumericRejected(s: string, k: nat)
    requires k < |s|
    requires !IsSpace(s[k]) && !IsDigit(s[k]) && s[k] != '_' && s[k] != '-' && s[k] != '+'
    ensures ParseInt(s) == None
  {
    var l := StripLeft(s);
    var t := StripRight(l);
    var a := |s| - |l|;
    // s[k] is not whitespace, so stripping cannot remove it
    assert a <= k by {
      StripLeftKeeps(s, k);
    }
    StripLeftSuffix(s);
    assert l[k - a] == s[k];
    assert k - a < |t| by {
      StripRightKeeps(l, k - a);
    }
    StripRightPrefix(l);
    assert t[k - a] == s[k];
    BadCharNotUnsigned(t, k - a);
    if k - a >= 1 {
      assert t[1..][k - a - 1] == t[k - a];
      BadCharNotUnsigned(t[1..], k - a - 1);
    }
  }

  /** Stripping on the left leaves a suffix. */
  lemma {:induction false} StripLeftSuffix(s: string)
    ensures StripLeft(s) == s[|s| - |StripLeft(s)|..]
  {
    if s != [] && IsSpace(s[0]) {
      StripLeftSuffix(s[1..]);
    }
  }

  /** Stripping on the right leaves a prefix. */
  lemma {:induction false} StripRightPrefix(s: string)
    ensures StripRight(s) == s[..|StripRight(s)|]
  {
    if s != [] && IsSpace(s[|s| - 1]) {
      StripRightPrefix(s[..|s| - 1]);
    }
  }

  lemma {:induction false} StripLeftKeeps(s: string, k: nat)
    requires k < |s| && !IsSpace(s[k])
    ensures |s| - |StripLeft(s)| <= k
  {
    if s != [] && IsSpace(s[0]) {
      StripLeftKeeps(s[1..], k - 1);
    }
  }

  lemma {:induction false} StripRightKeeps(s: string, k: nat)
    requires k < |s| && !IsSpace(s[k])
    ensures k < |StripRight(s)|
  {
    if s != [] && IsSpace(s[|s| - 1]) {
      StripRightKeeps(s[..|s| - 1], k);
    }
  }

  /** The value in the example request: `int("75") == 75`. */
  lemma ParseSeventyFive()
    ensures ParseInt("75") == Some(75)
  {
    assert "75"[..1] == "7";
    assert DigitsValue("7") == 7;
    UnsignedDigits("75");
    ParseDigits("75", 75);
  }
}
