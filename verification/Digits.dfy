/** Unsigned numbers as text: what a C++ stream prints and what `std::from_chars` reads. */
module Digits {
  datatype Radix = Dec | Hex {
    function Base(): nat { match this case Dec => 10 case Hex => 16 }

    // The arithmetic is written per radix so that it stays linear.
    function Times(n: nat): nat { match this case Dec => n * 10 case Hex => n * 16 }
    function Div(n: nat): nat { match this case Dec => n / 10 case Hex => n / 16 }
    function Mod(n: nat): (d: nat) ensures d < Base() { match this case Dec => n % 10 case Hex => n % 16 }
  }

  // ----- Printing -----

  function DigitChar(d: nat): char
    requires d < 16
  {
    if d < 10 then '0' + d as char else 'a' + (d - 10) as char
  }

  /** `n` in lower-case digits without leading zeros. */
  function Print(n: nat, r: Radix): (s: string)
    ensures s != []
    decreases n
  {
    if n < r.Base() then [DigitChar(n)] else Print(r.Div(n), r) + [DigitChar(r.Mod(n))]
  }

  function Zeros(n: nat): string {
    seq(n, _ => '0')
  }

  /** `setw(width)` with `setfill('0')` */
  function Padded(s: string, width: nat): string {
    if |s| < width then Zeros(width - |s|) + s else s
  }

  // ----- Reading -----

  /** The value of a digit in either case, 36 for anything else. */
  function DigitVal(c: char): nat {
    if '0' <= c <= '9' then c as nat - '0' as nat
    else if 'a' <= c <= 'z' then c as nat - 'a' as nat + 10
    else if 'A' <= c <= 'Z' then c as nat - 'A' as nat + 10
    else 36
  }

  predicate AllDigits(s: string, r: Radix) {
    forall i :: 0 <= i < |s| ==> DigitVal(s[i]) < r.Base()
  }

  function Value(s: string, r: Radix): nat {
    if s == [] then 0 else r.Times(Value(s[..|s| - 1], r)) + DigitVal(s[|s| - 1])
  }

  /** How many leading characters are digits. */
  function DigitCount(s: string, r: Radix): (n: nat)
    ensures n <= |s| && AllDigits(s[..n], r)
    ensures n < |s| ==> DigitVal(s[n]) >= r.Base()
  {
    if s == [] || DigitVal(s[0]) >= r.Base() then 0
    else
      var n := DigitCount(s[1..], r);
      assert forall i :: 0 < i < n + 1 ==> s[i] == s[1..][i - 1];
      1 + n
  }

  /** What `from_chars` reports: no digits, out of range (the target is left alone), or a value
      and how many characters it took. */
  datatype Parsed = NoDigits | OutOfRange | Read(value: nat, used: nat)

  function FromChars(s: string, r: Radix, limit: nat): Parsed {
    var n := DigitCount(s, r);
    if n == 0 then NoDigits
    else if Value(s[..n], r) >= limit then OutOfRange
    else Read(Value(s[..n], r), n)
  }

  // ----- Round trips -----

  lemma {:induction false} PrintRoundTrip(n: nat, r: Radix)
    ensures AllDigits(Print(n, r), r) && Value(Print(n, r), r) == n
    decreases n
  {
    var s := Print(n, r);
    if n < r.Base() {
      assert s[..|s| - 1] == [];
    } else {
      PrintRoundTrip(r.Div(n), r);
      assert s[..|s| - 1] == Print(r.Div(n), r);
    }
  }

  lemma {:induction false} ZerosDoNotCount(k: nat, s: string, r: Radix)
    ensures Value(Zeros(k) + s, r) == Value(s, r)
  {
    if s != [] {
      assert (Zeros(k) + s)[..k + |s| - 1] == Zeros(k) + s[..|s| - 1];
      ZerosDoNotCount(k, s[..|s| - 1], r);
    } else if k > 0 {
      assert (Zeros(k) + s)[..k - 1] == Zeros(k - 1) + s;
      ZerosDoNotCount(k - 1, s, r);
    }
  }

  lemma {:induction false} DigitCountExact(s: string, r: Radix)
    requires AllDigits(s, r)
    ensures DigitCount(s, r) == |s|
  {
    if s != [] { DigitCountExact(s[1..], r); }
  }

  /** `from_chars` takes a string of digits whole. */
  lemma FromCharsReadsDigits(s: string, r: Radix, limit: nat)
    requires s != [] && AllDigits(s, r)
    ensures FromChars(s, r, limit) == if Value(s, r) < limit then Read(Value(s, r), |s|) else OutOfRange
  {
    DigitCountExact(s, r);
    assert s[..|s|] == s;
  }

  lemma PaddedRoundTrip(n: nat, r: Radix, width: nat)
    ensures var s := Padded(Print(n, r), width);
      s != [] && AllDigits(s, r) && Value(s, r) == n
  {
    PrintRoundTrip(n, r);
    if |Print(n, r)| < width {
      ZerosDoNotCount(width - |Print(n, r)|, Print(n, r), r);
    }
  }

  // ----- Canonical numerals -----

  predicate LowerDigits(s: string, r: Radix) {
    AllDigits(s, r) && forall i :: 0 <= i < |s| ==> !('A' <= s[i] <= 'Z')
  }

  /** A numeral without a superfluous leading zero. */
  predicate Minimal(s: string) {
    |s| == 1 || (|s| > 1 && s[0] != '0')
  }

  lemma {:induction false} ValuePositive(s: string, r: Radix)
    requires s != [] && DigitVal(s[0]) > 0
    ensures Value(s, r) > 0
  {
    if |s| > 1 { ValuePositive(s[..|s| - 1], r); }
  }

  lemma PrintAppend(v: nat, d: nat, r: Radix)
    requires v > 0 && d < r.Base()
    ensures Print(r.Times(v) + d, r) == Print(v, r) + [DigitChar(d)]
  {
    assert r.Div(r.Times(v) + d) == v && r.Mod(r.Times(v) + d) == d;
  }

  lemma CharRoundTrip(c: char)
    requires DigitVal(c) < 16 && !('A' <= c <= 'Z')
    ensures DigitChar(DigitVal(c)) == c
  {
  }

  lemma AppendIsPrinted(init: string, c: char, r: Radix)
    requires Value(init, r) > 0 && Print(Value(init, r), r) == init
    requires DigitVal(c) < r.Base() && DigitChar(DigitVal(c)) == c
    ensures Print(Value(init + [c], r), r) == init + [c]
  {
    ValueAppend(init, c, r);
    PrintAppend(Value(init, r), DigitVal(c), r);
  }

  lemma ValueAppend(init: string, c: char, r: Radix)
    ensures Value(init + [c], r) == r.Times(Value(init, r)) + DigitVal(c)
  {
    assert (init + [c])[..|init|] == init;
  }

  lemma SingleIsPrinted(c: char, r: Radix)
    requires DigitVal(c) < r.Base() && DigitChar(DigitVal(c)) == c
    ensures Print(Value([c], r), r) == [c]
  {
    ValueAppend([], c, r);
    assert [] + [c] == [c];
  }

  lemma MinimalInit(s: string, r: Radix)
    requires |s| > 1 && LowerDigits(s, r) && Minimal(s)
    ensures var init := s[..|s| - 1]; LowerDigits(init, r) && Minimal(init) && Value(init, r) > 0
  {
    ValuePositive(s[..|s| - 1], r);
  }

  /** Printing the value of a minimal lower-case numeral gives it back. */
  lemma {:induction false} MinimalIsPrinted(s: string, r: Radix)
    requires s != [] && LowerDigits(s, r) && Minimal(s)
    ensures Print(Value(s, r), r) == s
  {
    var init, c := s[..|s| - 1], s[|s| - 1];
    CharRoundTrip(c);
    SplitLast(s);
    if init == [] {
      SingleIsPrinted(c, r);
    } else {
      MinimalInit(s, r);
      MinimalIsPrinted(init, r);
      AppendIsPrinted(init, c, r);
    }
  }

  lemma SplitLast(s: string)
    requires s != []
    ensures s == s[..|s| - 1] + [s[|s| - 1]]
    ensures |s| == 1 ==> s == [s[|s| - 1]]
  {
  }

  lemma {:induction false} PrintIsMinimal(n: nat, r: Radix)
    ensures LowerDigits(Print(n, r), r) && Minimal(Print(n, r))
    ensures n > 0 ==> Print(n, r)[0] != '0'
    decreases n
  {
    if n >= r.Base() { PrintIsMinimal(r.Div(n), r); }
  }

  // ----- What the digits mean -----

  /** Decimal digits count by tens, hexadecimal ones, in either case, by sixteens. */
  lemma ValueLaw(s: string, c: char)
    ensures Value([], Dec) == 0 && Value([], Hex) == 0
    ensures '0' <= c <= '9' ==>
      Value(s + [c], Dec) == 10 * Value(s, Dec) + (c as int - '0' as int) &&
      Value(s + [c], Hex) == 16 * Value(s, Hex) + (c as int - '0' as int)
    ensures 'a' <= c <= 'f' ==> Value(s + [c], Hex) == 16 * Value(s, Hex) + 10 + (c as int - 'a' as int)
    ensures 'A' <= c <= 'F' ==> Value(s + [c], Hex) == 16 * Value(s, Hex) + 10 + (c as int - 'A' as int)
  {
    ValueAppend(s, c, Dec);
    ValueAppend(s, c, Hex);
  }

  /** Which characters are digits. */
  lemma DigitsAre(s: string)
    ensures AllDigits(s, Dec) <==> forall i :: 0 <= i < |s| ==> '0' <= s[i] <= '9'
    ensures AllDigits(s, Hex) <==>
      forall i :: 0 <= i < |s| ==> '0' <= s[i] <= '9' || 'a' <= s[i] <= 'f' || 'A' <= s[i] <= 'F'
  {
    assert forall c: char :: DigitVal(c) < 10 <==> '0' <= c <= '9';
    assert forall c: char :: DigitVal(c) < 16 <==> '0' <= c <= '9' || 'a' <= c <= 'f' || 'A' <= c <= 'F';
  }

  lemma {:induction false} DigitCountIs(s: string, rest: string, r: Radix)
    requires AllDigits(s, r) && (rest == [] || DigitVal(rest[0]) >= r.Base())
    ensures DigitCount(s + rest, r) == |s|
  {
    if s == [] {
      assert s + rest == rest;
    } else {
      assert (s + rest)[1..] == s[1..] + rest;
      DigitCountIs(s[1..], rest, r);
    }
  }

  /** `from_chars` reads the leading digits and stops at the first other character; without digits,
      or when the value does not fit below the limit, it reads nothing. */
  lemma FromCharsStops(s: string, rest: string, r: Radix, limit: nat)
    requires AllDigits(s, r) && (rest == [] || DigitVal(rest[0]) >= r.Base())
    ensures FromChars(s + rest, r, limit) ==
      if s == [] then NoDigits else if Value(s, r) < limit then Read(Value(s, r), |s|) else OutOfRange
  {
    DigitCountIs(s, rest, r);
    assert (s + rest)[..|s|] == s;
  }
}
