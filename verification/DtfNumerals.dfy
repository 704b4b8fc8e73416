/** Decimal numerals of the timestamp formatter (core/extensions/common/src/dtf.cpp). */
module DtfNumerals {

  type Uint64 = v: int | 0 <= v < 0x1_0000_0000_0000_0000

  // ---------------------------------------------------------------- numerals

  function Pow10(n: nat): (r: nat)
    ensures r >= 1
  {
    if n == 0 then 1 else 10 * Pow10(n - 1)
  }

  function DigitChar(d: nat): char
    requires d < 10
  {
    ('0' as int + d) as char
  }

  predicate IsDigit(c: char) {
    '0' <= c <= '9'
  }

  /** The last `n` decimal digits of `v`. */
  function Digits(v: nat, n: nat): (s: seq<char>)
    ensures |s| == n
    ensures forall i :: 0 <= i < n ==> IsDigit(s[i])
  {
    if n == 0 then [] else Digits(v / 10, n - 1) + [DigitChar(v % 10)]
  }

  /** The number a digit string denotes. */
  function Value(s: seq<char>): nat
    requires forall i :: 0 <= i < |s| ==> IsDigit(s[i])
  {
    if s == [] then 0
    else
      assert IsDigit(s[|s| - 1]);
      10 * Value(s[..|s| - 1]) + (s[|s| - 1] as int - '0' as int)
  }

  function DecimalLength(v: nat): (n: nat)
    ensures n >= 1
  {
    if v < 10 then 1 else 1 + DecimalLength(v / 10)
  }

  lemma BigMultiple(m: int, k: int)
    requires m > 0 && k != 0
    ensures m * k >= m || m * k <= -m
  {
    if k >= 1 { assert m * k >= m; } else { assert m * k <= -m; }
  }

  lemma ModUnique(x: int, m: int, q: int, r: int)
    requires 0 <= r < m && x == m * q + r
    ensures x % m == r && x / m == q
  {
    var k := x / m - q;
    assert m * k == m * (x / m) - m * q;
    if k != 0 { BigMultiple(m, k); }
  }

  lemma ModTen(v: nat, p: nat)
    requires p >= 1
    ensures v % (10 * p) == 10 * ((v / 10) % p) + v % 10
  {
    var q, r := (v / 10) / p, (v / 10) % p;
    assert v / 10 == p * q + r;
    assert (10 * p) * q == 10 * (p * q);
    ModUnique(v, 10 * p, q, 10 * r + v % 10);
  }

  /** Digit strings denote the number they were taken from, up to the digits they drop. */
  lemma {:induction false} DigitsValue(v: nat, n: nat)
    ensures Value(Digits(v, n)) == v % Pow10(n)
  {
    if n > 0 {
      DigitsValue(v / 10, n - 1);
      var s := Digits(v, n);
      assert s[..n - 1] == Digits(v / 10, n - 1);
      assert s[n - 1] == DigitChar(v % 10);
      ModTen(v, Pow10(n - 1));
    }
  }

  lemma {:induction false} LengthBounds(v: nat)
    ensures v < Pow10(DecimalLength(v))
    ensures v > 0 ==> Pow10(DecimalLength(v) - 1) <= v
  {
    if v >= 10 { LengthBounds(v / 10); }
  }

  lemma {:induction false} BoundsLength(v: nat, n: nat)
    requires n >= 1 && v < Pow10(n) && (n == 1 || Pow10(n - 1) <= v)
    ensures DecimalLength(v) == n
  {
    if n > 1 {
      assert Pow10(n) == 10 * Pow10(n - 1) && Pow10(n - 1) == 10 * Pow10(n - 2);
      assert v >= 10;
      BoundsLength(v / 10, n - 1);
    }
  }

  /** Digits beyond the length of a number are zeros. */
  lemma {:induction false} DigitsPad(v: nat, n: nat, w: nat)
    requires n <= w && v < Pow10(n)
    ensures Digits(v, w) == seq(w - n, i => '0') + Digits(v, n)
  {
    if n == 0 {
      if w > 0 {
        DigitsPad(v / 10, 0, w - 1);
        assert seq(w, i => '0') == seq(w - 1, i => '0') + ['0'];
      }
    } else {
      DigitsPad(v / 10, n - 1, w - 1);
    }
  }

  // ---------------------------------------------------------------- num_chars

  /** The numbers whose length the counter gets wrong. */
  predicate InShortBand(v: nat) {
    10_000_000_000_000_000 <= v < 100_000_000_000_000_000
  }

  /** What the counter returns: the decimal length, but one short of 17. */
  function NumCharsOf(v: nat): nat {
    if InShortBand(v) then 16 else DecimalLength(v)
  }

  lemma PowerTable()
    ensures Pow10(1) == 10 && Pow10(2) == 100 && Pow10(3) == 1000 && Pow10(4) == 10000
    ensures Pow10(5) == 100000 && Pow10(6) == 1000000 && Pow10(7) == 10000000 && Pow10(8) == 100000000
    ensures Pow10(9) == 1000000000 && Pow10(10) == 10000000000 && Pow10(11) == 100000000000
    ensures Pow10(12) == 1000000000000 && Pow10(13) == 10000000000000 && Pow10(14) == 100000000000000
    ensures Pow10(15) == 1000000000000000 && Pow10(16) == 10000000000000000
    ensures Pow10(17) == 100000000000000000 && Pow10(18) == 1000000000000000000
    ensures Pow10(19) == 10000000000000000000 && Pow10(20) == 100000000000000000000
  {
    assert Pow10(5) == 10 * Pow10(4);
    assert Pow10(10) == 10 * Pow10(9);
    assert Pow10(15) == 10 * Pow10(14);
  }

  method NumChars(v: Uint64) returns (n: nat)
    ensures n == NumCharsOf(v)
  {
    var w: nat := v;
    n := 1;
    if w >= 100_000_000_000_000_000 { n := n + 17; w := w / 100_000_000_000_000_000; }
    if w >= 100_000_000 { n := n + 8; w := w / 100_000_000; }
    if w >= 10_000 { n := n + 4; w := w / 10_000; }
    if w >= 100 { n := n + 2; w := w / 100; }
    n := if w >= 10 then n + 1 else n;
    PowerTable();
    if !InShortBand(v) { BoundsLength(v, n); }
  }

  // ---------------------------------------------------------------- utoa

  /** Writes the last `n` digits of `v` at `off`, last digit first; a count over 20 writes nothing. */
  method Utoa(buf: array<char>, off: nat, n: nat, v: Uint64)
    requires n <= 20 ==> off + n <= buf.Length
    modifies buf
    ensures n <= 20 ==> buf[..] == old(buf[..off]) + Digits(v, n) + old(buf[off + n..])
    ensures n > 20 ==> buf[..] == old(buf[..])
  {
    if n > 20 { return; }
    var p, w: nat := n, v;
    while p > 0
      invariant 0 <= p <= n
      invariant buf[..off] == old(buf[..off])
      invariant Digits(w, p) + buf[off + p..off + n] == Digits(v, n)
      invariant buf[off + n..] == old(buf[off + n..])
    {
      p := p - 1;
      ghost var done := buf[off + p + 1..off + n];
      buf[off + p] := DigitChar(w % 10);
      assert buf[off + p..off + n] == [DigitChar(w % 10)] + done;
      assert Digits(w, p + 1) + done == Digits(w / 10, p) + ([DigitChar(w % 10)] + done);
      w := w / 10;
    }
    assert buf[..] == buf[..off] + buf[off..off + n] + buf[off + n..];
  }

  // ---------------------------------------------------------------- numbers as text

  datatype Flag = YyyyMmDd | DdMmYyyy | Sep1 | Sep2 | Sep3 | FSecs | FMsecs | FUsecs | FNsecs

  /** A flag word, as the set of its bits. */
  type Flags = set<Flag>

  datatype Resolution = Secs | Msecs | Usecs | Nsecs

  /** The finer a resolution bit, the less it counts. */
  function ResolutionOf(f: Flags): Resolution {
    if FSecs in f then Secs else if FMsecs in f then Msecs else if FUsecs in f then Usecs else Nsecs
  }

  /** Nanoseconds in one unit of a resolution. */
  function Unit(r: Resolution): nat {
    match r
    case Secs => 1_000_000_000
    case Msecs => 1_000_000
    case Usecs => 1_000
    case Nsecs => 1
  }

  function NumberText(v: nat): seq<char> {
    Digits(v, NumCharsOf(v))
  }

  /** Digits that denote the whole units the flags ask for, but for the lost top digit of 17-digit numbers. */
  predicate ReadsAsCount(s: seq<char>, ts: nat, f: Flags) {
    var v := if FSecs in f then ts / 1_000_000_000
             else if FMsecs in f then ts / 1_000_000
             else if FUsecs in f then ts / 1_000
             else ts;
    && (forall i :: 0 <= i < |s| ==> IsDigit(s[i]))
    && Value(s) == if 10_000_000_000_000_000 <= v < 100_000_000_000_000_000 then v % 10_000_000_000_000_000 else v
  }

  method TimestampToChars(buf: array<char>, ts: Uint64, f: Flags) returns (n: nat)
    requires buf.Length >= 20
    modifies buf
    ensures n == NumCharsOf(ts / Unit(ResolutionOf(f))) && n <= 20
    ensures ReadsAsCount(buf[..n], ts, f)
    ensures buf[..] == NumberText(ts / Unit(ResolutionOf(f))) + old(buf[n..])
  {
    var v: Uint64 := if FSecs in f then ts / 1_000_000_000
                     else if FMsecs in f then ts / 1_000_000
                     else if FUsecs in f then ts / 1_000
                     else ts;
    assert v == ts / Unit(ResolutionOf(f)) by { DivOne(ts); }
    n := NumChars(v);
    AtMostTwenty(v);
    Utoa(buf, 0, n, v);
    assert buf[..n] == NumberText(ts / Unit(ResolutionOf(f)));
    CountReadsBack(ts, f);
  }

  lemma DivOne(v: int)
    ensures v / 1 == v
  {
  }

  lemma AtMostTwenty(v: Uint64)
    ensures NumCharsOf(v) <= 20
  {
    PowerTable();
    LengthBounds(v);
    if DecimalLength(v) > 20 { PowMonotone(20, DecimalLength(v) - 1); }
  }

  lemma {:induction false} PowMonotone(a: nat, b: nat)
    requires a <= b
    ensures Pow10(a) <= Pow10(b)
  {
    if a < b { PowMonotone(a, b - 1); }
  }

  /** The text denotes the number exactly outside the short band; inside it the top digit is lost. */
  lemma NumberTextDenotes(v: Uint64)
    ensures Value(NumberText(v)) == v <==> !InShortBand(v)
    ensures InShortBand(v) ==> Value(NumberText(v)) == v % 10_000_000_000_000_000
    ensures !InShortBand(v) && v > 0 ==> NumberText(v)[0] != '0'
  {
    var n := NumCharsOf(v);
    DigitsValue(v, n);
    PowerTable();
    if !InShortBand(v) {
      LengthBounds(v);
      ModUnique(v, Pow10(n), 0, v);
      if v > 0 { LeadingDigit(v, n); }
    }
  }

  lemma CountReadsBack(ts: Uint64, f: Flags)
    ensures ReadsAsCount(NumberText(ts / Unit(ResolutionOf(f))), ts, f)
  {
    DivOne(ts);
    NumberTextDenotes(ts / Unit(ResolutionOf(f)));
  }

  lemma {:induction false} LeadingDigit(v: nat, n: nat)
    requires n >= 1 && Pow10(n - 1) <= v < Pow10(n)
    ensures Digits(v, n)[0] != '0'
  {
    if n > 1 {
      assert Pow10(n) == 10 * Pow10(n - 1) && Pow10(n - 1) == 10 * Pow10(n - 2);
      LeadingDigit(v / 10, n - 1);
    } else {
      assert Digits(v, 1) == Digits(v / 10, 0) + [DigitChar(v % 10)];
    }
  }
}
