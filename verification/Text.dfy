/** Numerals, white space and splitting, as the code's formatting and parsing use them. */
module Text {
  import opened Wrappers

  // ---- Numerals ----

  predicate Base(b: nat) { b == 10 || b == 16 }

  function DigitChar(d: nat): char
    requires d < 16
  {
    if d < 10 then '0' + d as char else 'A' + (d - 10) as char
  }

  function DigitValue(c: char): nat {
    if '0' <= c <= '9' then (c - '0') as nat
    else if 'A' <= c <= 'F' then (c - 'A') as nat + 10
    else 0
  }

  predicate IsDecimalDigit(c: char) { '0' <= c <= '9' }

  /** The shortest numeral of `n` in base `b`, upper case. */
  function Numeral(n: nat, b: nat): string
    requires Base(b)
  {
    if n < b then [DigitChar(n)] else Numeral(n / b, b) + [DigitChar(n % b)]
  }

  function Value(s: string, b: nat): nat {
    if s == "" then 0 else Value(s[..|s| - 1], b) * b + DigitValue(s[|s| - 1])
  }

  function Decimal(n: nat): string { Numeral(n, 10) }

  /** `{:02X}`: upper-case hexadecimal, padded with one zero if it is a single digit. */
  function Hex2(n: nat): string { if n < 16 then "0" + Numeral(n, 16) else Numeral(n, 16) }

  lemma {:induction false} ValueOfNumeral(n: nat, b: nat)
    requires Base(b)
    ensures Value(Numeral(n, b), b) == n && Numeral(n, b) != ""
    ensures b == 10 ==> forall i | 0 <= i < |Numeral(n, b)| :: IsDecimalDigit(Numeral(n, b)[i])
  {
    if n < b {
      assert [DigitChar(n)][..0] == "";
    } else {
      var q, d := n / b, DigitChar(n % b);
      ValueOfNumeral(q, b);
      ValueAppend(Numeral(q, b), d, b);
      assert DigitValue(d) == n % b;
    }
  }

  lemma ValueAppend(s: string, d: char, b: nat)
    ensures Value(s + [d], b) == Value(s, b) * b + DigitValue(d)
  {
    assert (s + [d])[..|s|] == s;
  }

  lemma DecimalInjective(m: nat, n: nat)
    requires Decimal(m) == Decimal(n)
    ensures m == n
  {
    ValueOfNumeral(m, 10);
    ValueOfNumeral(n, 10);
  }

  lemma Hex2Value(n: nat)
    ensures Value(Hex2(n), 16) == n
  {
    ValueOfNumeral(n, 16);
    if n < 16 {
      assert Hex2(n)[..1] == "0" && Hex2(n)[1] == DigitChar(n);
      assert "0"[..0] == "";
    }
  }

  lemma Hex2Injective(m: nat, n: nat)
    requires Hex2(m) == Hex2(n)
    ensures m == n
  {
    Hex2Value(m);
    Hex2Value(n);
  }

  /** The digits of a decimal numeral, the last one last. */
  lemma DecimalDigits(q: nat, d: nat)
    requires d < 10
    ensures Decimal(d) == ["0123456789"[d]]
    ensures q > 0 ==> Decimal(10 * q + d) == Decimal(q) + ["0123456789"[d]]
  {
    assert (10 * q + d) / 10 == q && (10 * q + d) % 10 == d;
  }

  lemma DigitChars(d: nat)
    requires d < 16
    ensures DigitChar(d) == "0123456789ABCDEF"[d]
  {
  }

  /** Two upper-case hexadecimal digits, as long as two suffice. */
  lemma Hex2Digits(hi: nat, lo: nat)
    requires hi < 16 && lo < 16
    ensures Hex2(16 * hi + lo) == ["0123456789ABCDEF"[hi], "0123456789ABCDEF"[lo]]
  {
    var n := 16 * hi + lo;
    assert n / 16 == hi && n % 16 == lo;
    DigitChars(hi);
    DigitChars(lo);
    assert Numeral(hi, 16) == [DigitChar(hi)] && Numeral(lo, 16) == [DigitChar(lo)];
  }

  const U64_LIMIT: nat := 0x1_0000_0000_0000_0000

  /** Rust's `str::parse::<u64>`: an optional plus sign, then digits, and no overflow. */
  function ParseU64(s: string): Option<nat> { if s != "" && s[0] == '+' then ParseDigits(s[1..]) else ParseDigits(s) }

  function ParseDigits(digits: string): Option<nat> {
    if digits == "" || exists i :: 0 <= i < |digits| && !IsDecimalDigit(digits[i]) then None
    else if Value(digits, 10) >= U64_LIMIT then None
    else Some(Value(digits, 10))
  }

  predicate DigitsOf(s: string, n: nat) {
    s != "" && (forall i | 0 <= i < |s| :: '0' <= s[i] <= '9') && n == Value(s, 10) < 0x1_0000_0000_0000_0000
  }

  lemma ParseDigitsAccepts(s: string, n: nat)
    ensures ParseDigits(s) == Some(n) <==> DigitsOf(s, n)
  {
    hide Value;
    if forall i | 0 <= i < |s| :: '0' <= s[i] <= '9' {
      assert forall i | 0 <= i < |s| :: IsDecimalDigit(s[i]);
    } else {
      var i :| 0 <= i < |s| && !('0' <= s[i] <= '9');
      assert !IsDecimalDigit(s[i]);
    }
  }

  /** Exactly the digit strings of a 64-bit number are accepted, with or without a plus sign. */
  lemma ParseU64Accepts(s: string, n: nat)
    ensures ParseU64(s) == Some(n) <==> DigitsOf(s, n) || (s != "" && s[0] == '+' && DigitsOf(s[1..], n))
  {
    hide ParseDigits;
    ParseDigitsAccepts(s, n);
    if s != "" && s[0] == '+' {
      ParseDigitsAccepts(s[1..], n);
    }
  }

  /** Printing a 64-bit number and parsing it back returns the number. */
  lemma ParseOfDecimal(n: nat)
    ensures ParseU64(Decimal(n)) == if n < U64_LIMIT then Some(n) else None
  {
    ValueOfNumeral(n, 10);
  }

  // ---- Position of a character ----

  /** The position of the first `c`, or the length if there is none. */
  function IndexOf(s: string, c: char): (i: nat)
    ensures i <= |s| && (i < |s| ==> s[i] == c)
    ensures forall k | 0 <= k < i :: s[k] != c
  {
    if s == "" || s[0] == c then 0 else IndexOf(s[1..], c) + 1
  }

  /** It is the first occurrence. */
  lemma IndexOfFirst(s: string, c: char)
    ensures c !in s[..IndexOf(s, c)]
  {
  }

  /** A character that does not occur in a prefix is found after it. */
  lemma IndexOfAfter(a: string, b: string, c: char)
    requires c !in a && b != "" && b[0] == c
    ensures IndexOf(a + b, c) == |a|
  {
    assert forall k | 0 <= k < |a| :: (a + b)[k] == a[k];
    IndexOfIs(a + b, c, |a|);
  }

  /** There is only one first position. */
  lemma IndexOfIs(s: string, c: char, i: nat)
    requires i <= |s| && (i < |s| ==> s[i] == c) && forall k | 0 <= k < i :: s[k] != c
    ensures IndexOf(s, c) == i
  {
  }

  // ---- White space ----

  /** The Unicode White_Space characters. */
  predicate IsSpace(c: char) {
    var n := c as int;
    || 0x9 <= n <= 0xD || n == 0x20 || n == 0x85 || n == 0xA0 || n == 0x1680
    || 0x2000 <= n <= 0x200A || n == 0x2028 || n == 0x2029 || n == 0x202F || n == 0x205F || n == 0x3000
  }

  /** The ASCII ones, from tab to carriage return and the space, the two of Latin-1, and those beyond. */
  lemma SpacesAre(c: char)
    ensures IsSpace(c) <==>
      || c in "\t\n\U{000B}\U{000C}\r " || c in "\U{0085}\U{00A0}"
      || c in "\U{1680}\U{2028}\U{2029}\U{202F}\U{205F}\U{3000}"
      || '\U{2000}' <= c <= '\U{200A}'
  {
  }

  function TrimStart(s: string): string {
    if s != "" && IsSpace(s[0]) then TrimStart(s[1..]) else s
  }

  function TrimEnd(s: string): string {
    if s != "" && IsSpace(s[|s| - 1]) then TrimEnd(s[..|s| - 1]) else s
  }

  function Trim(s: string): string { TrimEnd(TrimStart(s)) }

  /** Neither end is white space. */
  predicate IsTrimmed(s: string) { s == "" || (!IsSpace(s[0]) && !IsSpace(s[|s| - 1])) }

  lemma {:induction false} TrimStartShape(s: string)
    ensures |TrimStart(s)| <= |s| && TrimStart(s) == s[|s| - |TrimStart(s)|..]
    ensures TrimStart(s) == "" || !IsSpace(TrimStart(s)[0])
    ensures forall i | 0 <= i < |s| - |TrimStart(s)| :: IsSpace(s[i])
  {
    if s != "" && IsSpace(s[0]) {
      var t, k := TrimStart(s[1..]), |s| - 1 - |TrimStart(s[1..])|;
      TrimStartShape(s[1..]);
      assert t == s[1..][k..] == s[k + 1..];
      assert forall i | 0 <= i < k :: IsSpace(s[1..][i]);
      assert forall i | 1 <= i < k + 1 :: s[i] == s[1..][i - 1];
    }
  }

  lemma {:induction false} TrimEndShape(s: string)
    ensures |TrimEnd(s)| <= |s| && TrimEnd(s) == s[..|TrimEnd(s)|]
    ensures TrimEnd(s) == "" || !IsSpace(TrimEnd(s)[|TrimEnd(s)| - 1])
    ensures forall i | |TrimEnd(s)| <= i < |s| :: IsSpace(s[i])
  {
    if s != "" && IsSpace(s[|s| - 1]) {
      TrimEndShape(s[..|s| - 1]);
    }
  }

  /** `Trim` keeps a slice whose ends are not white space, and drops only white space. */
  lemma TrimShape(s: string) returns (lo: nat, hi: nat)
    ensures lo <= hi <= |s| && Trim(s) == s[lo..hi] && IsTrimmed(Trim(s))
    ensures forall i | 0 <= i < lo || hi <= i < |s| :: IsSpace(s[i])
  {
    var t := TrimStart(s);
    TrimStartShape(s);
    TrimEndShape(t);
    lo := |s| - |t|;
    hi := lo + |TrimEnd(t)|;
    assert Trim(s) == s[lo..hi];
    forall i | hi <= i < |s|
      ensures IsSpace(s[i])
    {
      assert s[i] == t[i - lo];
    }
    if Trim(s) != "" {
      assert Trim(s)[0] == t[0];
    }
  }

  /** A string is its own trim exactly if its ends are not white space. */
  lemma TrimFixed(s: string)
    ensures Trim(s) == s <==> IsTrimmed(s)
  {
    var lo, hi := TrimShape(s);
    if IsTrimmed(s) && s != "" {
      assert lo == 0 && hi == |s|;
    }
  }

  /** Only a blank string trims to nothing. */
  lemma TrimEmpty(s: string)
    ensures Trim(s) == "" <==> forall i | 0 <= i < |s| :: IsSpace(s[i])
  {
    var lo, hi := TrimShape(s);
    if lo < hi {
      assert Trim(s)[0] == s[lo];
    }
  }

  // ---- Splitting at a separator ----

  /** Rust's `str::split`: `k` separators give `k + 1` pieces. */
  function Split(s: string, c: char): (pieces: seq<string>)
    ensures pieces != []
    decreases |s|
  {
    var i := IndexOf(s, c);
    if i == |s| then [s] else [s[..i]] + Split(s[i + 1..], c)
  }
}
