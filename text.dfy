/**
 * The pieces of `java.lang.String` and `Integer.toString` that the core relies on:
 * decimal rendering of an `int` (string concatenation `year + ":"`), `trim()`,
 * ASCII `toUpperCase()` and joining with a separator.
 */
module Text {

  /** The decimal digit character for `d`. */
  function DigitChar(d: nat): (c: char)
    requires d < 10
    ensures '0' <= c <= '9'
  {
    ['0', '1', '2', '3', '4', '5', '6', '7', '8', '9'][d]
  }

  /** The value of a decimal digit character. */
  function DigitValue(c: char): (d: nat)
    requires '0' <= c <= '9'
    ensures d < 10 && DigitChar(d) == c
  {
    (c as int - '0' as int) as nat
  }

  predicate IsDigits(s: string) {
    forall i :: 0 <= i < |s| ==> '0' <= s[i] <= '9'
  }

  /** Decimal digits of a natural number, most significant first, no leading zeros. */
  function NatToString(n: nat): (s: string)
    ensures |s| > 0 && IsDigits(s)
    decreases n
  {
    if n < 10 then [DigitChar(n)] else NatToString(n / 10) + [DigitChar(n % 10)]
  }

  /** Appending a digit to a positive number appends its character to the text. */
  lemma AppendDigit(n: nat, d: nat)
    requires 0 < n && d < 10
    ensures NatToString(10 * n + d) == NatToString(n) + [DigitChar(d)]
  {
    assert (10 * n + d) / 10 == n && (10 * n + d) % 10 == d;
  }

  /** `Integer.toString(n)`: a leading '-' for negative values, then the digits of |n|. */
  function IntToString(n: int): (s: string)
    ensures |s| > 0
    ensures s[0] == '-' <==> n < 0
    ensures IsDigits(if n < 0 then s[1..] else s)
  {
    if n < 0 then
      var d := NatToString(-n);
      assert ("-" + d)[1..] == d;
      "-" + d
    else NatToString(n)
  }

  /** The value of a string of decimal digits (the inverse of NatToString). */
  function ParseNat(s: string): (n: nat)
    requires IsDigits(s)
  {
    if s == [] then 0 else ParseNat(s[..|s| - 1]) * 10 + DigitValue(s[|s| - 1])
  }

  /** `Integer.parseInt` on the strings IntToString produces. */
  function ParseInt(s: string): (n: int)
    requires (|s| > 0 && s[0] == '-' && IsDigits(s[1..])) || IsDigits(s)
  {
    if |s| > 0 && s[0] == '-' then -(ParseNat(s[1..]) as int) else ParseNat(s)
  }

  lemma {:induction false} ParseNatToString(n: nat)
    ensures ParseNat(NatToString(n)) == n
    decreases n
  {
    if n >= 10 {
      var s := NatToString(n);
      var p := NatToString(n / 10);
      var last := DigitChar(n % 10);
      assert s == p + [last];
      assert s[..|s| - 1] == p;
      assert DigitValue(s[|s| - 1]) == n % 10;
      ParseNatToString(n / 10);
      assert ParseNat(s) == ParseNat(p) * 10 + n % 10;
    }
  }

  /** A '-' followed by digits parses as the negated value of the digits. */
  lemma ParseNegative(d: string)
    requires IsDigits(d)
    ensures ParseInt("-" + d) == -(ParseNat(d) as int)
  {
    assert ("-" + d)[0] == '-';
    assert ("-" + d)[1..] == d;
  }

  /** Digits alone parse as their value. */
  lemma ParseNonNegative(d: string)
    requires |d| > 0 && IsDigits(d)
    ensures ParseInt(d) == ParseNat(d) as int
  {
    assert '0' <= d[0] <= '9';
  }

  /** Rendering an int in decimal loses nothing: parsing it back gives the same int. */
  lemma IntToStringRoundTrip(n: int)
    ensures ParseInt(IntToString(n)) == n
  {
    if n < 0 {
      NegativeRoundTrip(n);
    } else {
      NonNegativeRoundTrip(n);
    }
  }

  lemma NegativeRoundTrip(n: int)
    requires n < 0
    ensures ParseInt(IntToString(n)) == n
  {
    var d := NatToString(-n);
    var s := IntToString(n);
    assert s == "-" + d;
    ParseNegative(d);
    ParseNatToString(-n);
    assert ParseNat(d) == -n;
    assert ParseInt(s) == -(ParseNat(d) as int);
  }

  lemma NonNegativeRoundTrip(n: nat)
    ensures ParseInt(IntToString(n)) == n
  {
    var d := NatToString(n);
    assert IntToString(n) == d;
    ParseNonNegative(d);
    ParseNatToString(n);
  }

  /** Distinct ints render as distinct strings. */
  lemma IntToStringInjective(a: int, b: int)
    requires IntToString(a) == IntToString(b)
    ensures a == b
  {
    IntToStringRoundTrip(a);
    IntToStringRoundTrip(b);
  }

  /** A rendered int never contains the separator ':' (only '-' and digits). */
  lemma IntToStringHasNoColon(n: int)
    ensures ':' !in IntToString(n)
  {
    var s := IntToString(n);
    if n < 0 {
      assert forall i :: 1 <= i < |s| ==> s[i] == NatToString(-n)[i - 1];
    }
  }

  // ---------------------------------------------------------------------
  // String.trim(): strips every leading and trailing char <= ' '.

  /** The characters `trim()` strips. */
  predicate IsTrimmable(c: char) {
    c <= ' '
  }

  function TrimStart(s: string): (r: string)
    ensures |r| <= |s| && r == s[|s| - |r|..]
    ensures r != [] ==> !IsTrimmable(r[0])
  {
    if s != [] && IsTrimmable(s[0]) then TrimStart(s[1..]) else s
  }

  function TrimEnd(s: string): (r: string)
    ensures |r| <= |s| && r == s[..|r|]
    ensures r != [] ==> !IsTrimmable(r[|r| - 1])
  {
    if s != [] && IsTrimmable(s[|s| - 1]) then TrimEnd(s[..|s| - 1]) else s
  }

  /** `s.trim()` */
  function Trim(s: string): (r: string)
  {
    TrimEnd(TrimStart(s))
  }

  /** `s.trim().isEmpty()` holds exactly when every char of `s` is <= ' '. */
  lemma {:induction false} TrimEmptyIff(s: string)
    ensures Trim(s) == [] <==> forall i :: 0 <= i < |s| ==> IsTrimmable(s[i])
  {
    TrimStartEmptyIff(s);
    var t := TrimStart(s);
    if t != [] {
      // TrimEnd keeps the first char of t, which is not trimmable.
      TrimEndKeepsNonBlank(t);
    }
  }

  lemma {:induction false} TrimStartEmptyIff(s: string)
    ensures TrimStart(s) == [] <==> forall i :: 0 <= i < |s| ==> IsTrimmable(s[i])
  {
    if s != [] && IsTrimmable(s[0]) {
      TrimStartEmptyIff(s[1..]);
      assert forall i :: 1 <= i < |s| ==> s[i] == s[1..][i - 1];
    }
  }

  lemma {:induction false} TrimEndKeepsNonBlank(t: string)
    requires t != [] && !IsTrimmable(t[0])
    ensures TrimEnd(t) != []
  {
    if IsTrimmable(t[|t| - 1]) {
      TrimEndKeepsNonBlank(t[..|t| - 1]);
    }
  }

  // ---------------------------------------------------------------------
  // String.toUpperCase(), restricted to ASCII letters.

  predicate IsLowerAscii(c: char) {
    'a' <= c <= 'z'
  }

  function UpperChar(c: char): (u: char)
    ensures !IsLowerAscii(u)
    ensures !IsLowerAscii(c) ==> u == c
    ensures IsLowerAscii(c) ==> 'A' <= u <= 'Z' && u as int - c as int == 'A' as int - 'a' as int
  {
    if IsLowerAscii(c) then (c as int - 'a' as int + 'A' as int) as char else c
  }

  /** `s.toUpperCase()` on ASCII: each lower-case letter replaced by its capital. */
  function ToUpper(s: string): (r: string)
    ensures |r| == |s|
    ensures forall i :: 0 <= i < |s| ==> r[i] == UpperChar(s[i])
  {
    if s == [] then [] else [UpperChar(s[0])] + ToUpper(s[1..])
  }

  /** Upper-casing twice is upper-casing once; an upper-cased string has no lower-case letter. */
  lemma ToUpperIdempotent(s: string)
    ensures ToUpper(ToUpper(s)) == ToUpper(s)
    ensures forall i :: 0 <= i < |s| ==> !IsLowerAscii(ToUpper(s)[i])
  {
  }

  // ---------------------------------------------------------------------
  // Joining.

  /** The items separated by `sep`, with no trailing separator (`String.join`). */
  function Join(items: seq<string>, sep: string): (r: string)
  {
    if items == [] then ""
    else if |items| == 1 then items[0]
    else Join(items[..|items| - 1], sep) + sep + items[|items| - 1]
  }

  /** Every item followed by `sep` (what a `forEach` appending `item + sep` builds). */
  function Terminated(items: seq<string>, sep: string): (r: string)
  {
    if items == [] then "" else Terminated(items[..|items| - 1], sep) + items[|items| - 1] + sep
  }

  /** Cutting the last separator off a terminated list gives the joined list. */
  lemma {:induction false} TerminatedIsJoinPlusSep(items: seq<string>, sep: string)
    requires items != []
    ensures Terminated(items, sep) == Join(items, sep) + sep
  {
    if |items| > 1 {
      var init := items[..|items| - 1];
      TerminatedIsJoinPlusSep(init, sep);
      assert Terminated(items, sep) == Join(init, sep) + sep + items[|items| - 1] + sep;
    } else {
      assert items[..0] == [];
    }
  }
}
