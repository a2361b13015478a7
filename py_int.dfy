/** Python 2's `int(s)` on a byte string, as used to read the `-b` baud
    argument: optional white space, an optional sign, optional white space,
    one or more decimal digits, optional white space. Anything else raises
    ValueError, modelled here as None. */
module PyInt {

  datatype Option<T> = None | Some(value: T)

  /** C `isspace` in the C locale. */
  predicate IsSpace(c: char)
  {
    c == ' ' || c == '\t' || c == '\n' || c == '\r' || c as int == 11 || c as int == 12
  }

  predicate IsDigit(c: char)
  {
    '0' <= c <= '9'
  }

  predicate AllDigits(s: string)
  {
    forall i :: 0 <= i < |s| ==> IsDigit(s[i])
  }

  /** s without its leading white space. */
  function StripLeading(s: string): string
  {
    if |s| > 0 && IsSpace(s[0]) then StripLeading(s[1..]) else s
  }

  /** s without its trailing white space. */
  function StripTrailing(s: string): string
  {
    if |s| > 0 && IsSpace(s[|s| - 1]) then StripTrailing(s[..|s| - 1]) else s
  }

  /** The value of a string of decimal digits, most significant first. */
  function DigitsValue(d: string): (n: nat)
    requires AllDigits(d)
  {
    if |d| == 0 then 0 else 10 * DigitsValue(d[..|d| - 1]) + (d[|d| - 1] as int - '0' as int)
  }

  /** t without one leading sign character. */
  function Unsigned(t: string): string
  {
    if |t| > 0 && (t[0] == '+' || t[0] == '-') then t[1..] else t
  }

  /** What must be the digits of s: s without its surrounding white space
      and its sign. */
  function Body(s: string): (r: string)
  {
    StripTrailing(StripLeading(Unsigned(StripLeading(s))))
  }

  /** s starts, after its leading white space, with a minus sign. */
  predicate IsNegative(s: string)
  {
    var t := StripLeading(s);
    |t| > 0 && t[0] == '-'
  }

  function ParseInt(s: string): (r: Option<int>)
  {
    var body := Body(s);
    if |body| > 0 && AllDigits(body) then
      var v: int := DigitsValue(body);
      Some(if IsNegative(s) then -v else v)
    else None
  }

  /** The decimal digits of n, most significant first, without leading zeros. */
  function NatString(n: nat): (s: string)
    ensures |s| > 0 && AllDigits(s)
    ensures s[0] != '0' || n == 0
  {
    var last := ['0' + (n % 10) as char];
    if n < 10 then last else NatString(n / 10) + last
  }

  /** Python's `str(n)`. */
  function DecimalString(n: int): string
  {
    if n < 0 then "-" + NatString(-n) else NatString(n)
  }

  lemma {:induction false} DigitsValueOfNatString(n: nat)
    ensures DigitsValue(NatString(n)) == n
  {
    var s := NatString(n);
    if n >= 10 {
      DigitsValueOfNatString(n / 10);
      assert s[..|s| - 1] == NatString(n / 10);
    }
  }

  lemma StripLeadingOfNonSpace(s: string)
    requires |s| > 0 && !IsSpace(s[0])
    ensures StripLeading(s) == s
  {
  }

  lemma StripTrailingOfNonSpace(s: string)
    requires |s| > 0 && !IsSpace(s[|s| - 1])
    ensures StripTrailing(s) == s
  {
  }

  /** A digit string, with or without a minus sign, is its own body. */
  lemma BodyOfSignedDigits(d: string)
    requires |d| > 0 && AllDigits(d)
    ensures StripLeading(d) == d && Body(d) == d
    ensures StripLeading("-" + d) == "-" + d && Body("-" + d) == d
  {
    assert IsDigit(d[0]) && IsDigit(d[|d| - 1]);
    StripLeadingOfNonSpace(d);
    StripTrailingOfNonSpace(d);
    assert Unsigned(d) == d;
    var neg := "-" + d;
    StripLeadingOfNonSpace(neg);
    assert neg[1..] == d;
    assert Unsigned(neg) == d;
  }

  /** `int()` reads a digit string by its value. */
  lemma ParseIntOfDigits(d: string)
    requires |d| > 0 && AllDigits(d)
    ensures ParseInt(d) == Some(DigitsValue(d))
  {
    BodyOfSignedDigits(d);
    assert !IsNegative(d);
  }

  /** `int()` reads a minus sign and a digit string as the negated value. */
  lemma ParseIntOfNegatedDigits(d: string, neg: string)
    requires |d| > 0 && AllDigits(d) && neg == "-" + d
    ensures ParseInt(neg).Some? && ParseInt(neg).value == -(DigitsValue(d) as int)
  {
    BodyOfSignedDigits(d);
    assert IsNegative(neg);
  }

  /** Every integer written in decimal is read back by `int()`. */
  lemma ParseIntOfDecimalString(n: int)
    ensures ParseInt(DecimalString(n)) == Some(n)
  {
    var m: nat := if n < 0 then -n else n;
    var d := NatString(m);
    DigitsValueOfNatString(m);
    if n < 0 {
      ParseIntOfNegatedDigits(d, DecimalString(n));
    } else {
      ParseIntOfDigits(d);
    }
  }

  /** Stripping leading white space leaves a suffix. */
  lemma {:induction false} StripLeadingIsSuffix(s: string)
    ensures |StripLeading(s)| <= |s| && StripLeading(s) == s[|s| - |StripLeading(s)|..]
  {
    if |s| > 0 && IsSpace(s[0]) {
      StripLeadingIsSuffix(s[1..]);
    }
  }

  /** Stripping trailing white space leaves a prefix. */
  lemma {:induction false} StripTrailingIsPrefix(s: string)
    ensures |StripTrailing(s)| <= |s| && StripTrailing(s) == s[..|StripTrailing(s)|]
  {
    if |s| > 0 && IsSpace(s[|s| - 1]) {
      StripTrailingIsPrefix(s[..|s| - 1]);
    }
  }

  /** A string without a single decimal digit is never an integer. */
  lemma NoDigitsNoInt(s: string)
    requires forall i :: 0 <= i < |s| ==> !IsDigit(s[i])
    ensures ParseInt(s) == None
  {
    var t := StripLeading(s);
    var unsigned := Unsigned(t);
    var u := StripLeading(unsigned);
    var body := StripTrailing(u);
    assert body == Body(s);
    StripLeadingIsSuffix(s);
    StripLeadingIsSuffix(unsigned);
    StripTrailingIsPrefix(u);
    if |body| > 0 {
      assert body[0] == u[0];
      assert u[0] == unsigned[|unsigned| - |u|];
      assert unsigned[|unsigned| - |u|] == t[|t| - |u|];
      assert t[|t| - |u|] == s[|s| - |u|];
    }
  }
}
