/**
 Date-time text of the timestamp formatter (core/extensions/common/src/dtf.cpp): what is
 written into the buffer, how texts order, and how the format is read back from a text.
 */
module DtfText {
  import opened DtfNumerals
  import opened DtfCalendar

  const BUFSIZE: nat := 32

  // ---------------------------------------------------------------- the text

  function DateSep(f: Flags): char {
    if Sep1 in f then '-' else '.'
  }

  function TimeSep(f: Flags): char {
    if Sep1 in f || Sep3 in f then ':' else '.'
  }

  function SepSep(f: Flags): char {
    if Sep1 in f then ' ' else '-'
  }

  function DateText(dt: DateTime, f: Flags): seq<char> {
    if YyyyMmDd in f
    then Digits(dt.year, 4) + [DateSep(f)] + Digits(dt.month + 1, 2) + [DateSep(f)] + Digits(dt.day, 2)
    else Digits(dt.day, 2) + [DateSep(f)] + Digits(dt.month + 1, 2) + [DateSep(f)] + Digits(dt.year, 4)
  }

  function ClockText(dt: DateTime, f: Flags): seq<char> {
    Digits(dt.hour, 2) + [TimeSep(f)] + Digits(dt.minute, 2) + [TimeSep(f)] + Digits(dt.second, 2)
  }

  /** Digits after the decimal point. */
  function Places(r: Resolution): nat {
    match r
    case Secs => 0
    case Msecs => 3
    case Usecs => 6
    case Nsecs => 9
  }

  /** `ps` nanoseconds, cut to the resolution. */
  function FractionText(ps: nat, r: Resolution): seq<char> {
    if r.Secs? then [] else ['.'] + Digits(ps / Unit(r), Places(r))
  }

  /** The text of already computed fields. */
  function FieldsText(dt: DateTime, ps: nat, f: Flags): seq<char> {
    DateText(dt, f) + [SepSep(f)] + ClockText(dt, f) + FractionText(ps, ResolutionOf(f))
  }

  function Text(ts: nat, f: Flags): seq<char> {
    FieldsText(Civil(ts / 1_000_000_000), ts % 1_000_000_000, f)
  }

  function TextLength(r: Resolution): nat {
    if r.Secs? then 19 else 20 + Places(r)
  }

  lemma TextHasFixedLength(ts: nat, f: Flags)
    ensures |Text(ts, f)| == TextLength(ResolutionOf(f)) < BUFSIZE
  {
    var dt := Civil(ts / 1_000_000_000);
    assert |DateText(dt, f)| == 10;
    assert |ClockText(dt, f)| == 8;
  }

  // ---------------------------------------------------------------- writing it

  /** `after` is `before` with `s` written over it at `p`. */
  ghost predicate Wrote(before: seq<char>, after: seq<char>, p: nat, s: seq<char>) {
    p + |s| <= |before| && after == before[..p] + s + before[p + |s|..]
  }

  lemma WroteThen(a: seq<char>, b: seq<char>, c: seq<char>, p: nat, s: seq<char>, t: seq<char>)
    requires Wrote(a, b, p, s) && Wrote(b, c, p + |s|, t)
    ensures Wrote(a, c, p, s + t)
  {
    assert b[..p + |s|] == a[..p] + s;
    assert b[p + |s| + |t|..] == a[p + |s + t|..];
  }

  /** `*p++ = c`. */
  method Put(buf: array<char>, p: nat, c: char) returns (q: nat)
    requires p < buf.Length
    modifies buf
    ensures q == p + 1 && Wrote(old(buf[..]), buf[..], p, [c])
  {
    buf[p] := c;
    q := p + 1;
  }

  /** The two-digit macros. */
  method Put2(buf: array<char>, p: nat, v: nat) returns (q: nat)
    requires p + 2 <= buf.Length
    modifies buf
    ensures q == p + 2 && Wrote(old(buf[..]), buf[..], p, Digits(v, 2))
  {
    ghost var b0 := buf[..];
    q := Put(buf, p, DigitChar((v / 10) % 10));
    ghost var b1 := buf[..];
    q := Put(buf, q, DigitChar(v % 10));
    WroteThen(b0, b1, buf[..], p, [DigitChar((v / 10) % 10)], [DigitChar(v % 10)]);
    TwoDigits(v);
  }

  /** The year macro. */
  method Put4(buf: array<char>, p: nat, v: nat) returns (q: nat)
    requires p + 4 <= buf.Length
    modifies buf
    ensures q == p + 4 && Wrote(old(buf[..]), buf[..], p, Digits(v, 4))
  {
    ghost var b0 := buf[..];
    q := Put(buf, p, DigitChar((v / 1000) % 10));
    ghost var b1 := buf[..];
    q := Put(buf, q, DigitChar((v / 100) % 10));
    ghost var b2 := buf[..];
    WroteThen(b0, b1, b2, p, [DigitChar((v / 1000) % 10)], [DigitChar((v / 100) % 10)]);
    TwoDigits(v / 100);
    assert v / 100 / 10 == v / 1000;
    q := Put2(buf, q, v);
    WroteThen(b0, b2, buf[..], p, Digits(v / 100, 2), Digits(v, 2));
    FourDigits(v);
  }

  lemma TwoDigits(v: nat)
    ensures Digits(v, 2) == [DigitChar((v / 10) % 10)] + [DigitChar(v % 10)]
  {
    assert Digits(v, 2) == Digits(v / 10, 1) + [DigitChar(v % 10)];
    assert Digits(v / 10, 1) == Digits(v / 10 / 10, 0) + [DigitChar((v / 10) % 10)];
  }

  lemma FourDigits(v: nat)
    ensures Digits(v, 4) == Digits(v / 100, 2) + Digits(v, 2)
  {
    assert v / 10 / 10 == v / 100;
    TwoDigits(v);
    assert Digits(v, 4) == Digits(v / 10, 3) + [DigitChar(v % 10)];
    assert Digits(v / 10, 3) == Digits(v / 10 / 10, 2) + [DigitChar(v / 10 % 10)];
  }

  /** Five pieces written one after the other. */
  lemma WroteFive(b0: seq<char>, b1: seq<char>, b2: seq<char>, b3: seq<char>, b4: seq<char>, b5: seq<char>, p: nat,
                  s1: seq<char>, s2: seq<char>, s3: seq<char>, s4: seq<char>, s5: seq<char>)
    requires Wrote(b0, b1, p, s1)
    requires Wrote(b1, b2, p + |s1|, s2)
    requires Wrote(b2, b3, p + |s1| + |s2|, s3)
    requires Wrote(b3, b4, p + |s1| + |s2| + |s3|, s4)
    requires Wrote(b4, b5, p + |s1| + |s2| + |s3| + |s4|, s5)
    ensures Wrote(b0, b5, p, s1 + s2 + s3 + s4 + s5)
  {
    WroteThen(b0, b1, b2, p, s1, s2);
    WroteThen(b0, b2, b3, p, s1 + s2, s3);
    WroteThen(b0, b3, b4, p, s1 + s2 + s3, s4);
    WroteThen(b0, b4, b5, p, s1 + s2 + s3 + s4, s5);
  }

  method PutYearFirst(buf: array<char>, p: nat, dt: DateTime, sep: char) returns (q: nat)
    requires p + 10 <= buf.Length
    modifies buf
    ensures q == p + 10
    ensures Wrote(old(buf[..]), buf[..], p,
                  Digits(dt.year, 4) + [sep] + Digits(dt.month + 1, 2) + [sep] + Digits(dt.day, 2))
  {
    ghost var b0 := buf[..];
    q := Put4(buf, p, dt.year);
    ghost var b1 := buf[..];
    q := Put(buf, q, sep);
    ghost var b2 := buf[..];
    q := Put2(buf, q, dt.month + 1);
    ghost var b3 := buf[..];
    q := Put(buf, q, sep);
    ghost var b4 := buf[..];
    q := Put2(buf, q, dt.day);
    WroteFive(b0, b1, b2, b3, b4, buf[..], p,
              Digits(dt.year, 4), [sep], Digits(dt.month + 1, 2), [sep], Digits(dt.day, 2));
  }

  method PutDayFirst(buf: array<char>, p: nat, dt: DateTime, sep: char) returns (q: nat)
    requires p + 10 <= buf.Length
    modifies buf
    ensures q == p + 10
    ensures Wrote(old(buf[..]), buf[..], p,
                  Digits(dt.day, 2) + [sep] + Digits(dt.month + 1, 2) + [sep] + Digits(dt.year, 4))
  {
    ghost var b0 := buf[..];
    q := Put2(buf, p, dt.day);
    ghost var b1 := buf[..];
    q := Put(buf, q, sep);
    ghost var b2 := buf[..];
    q := Put2(buf, q, dt.month + 1);
    ghost var b3 := buf[..];
    q := Put(buf, q, sep);
    ghost var b4 := buf[..];
    q := Put4(buf, q, dt.year);
    WroteFive(b0, b1, b2, b3, b4, buf[..], p,
              Digits(dt.day, 2), [sep], Digits(dt.month + 1, 2), [sep], Digits(dt.year, 4));
  }

  method PutClock(buf: array<char>, p: nat, dt: DateTime, sep: char) returns (q: nat)
    requires p + 8 <= buf.Length
    modifies buf
    ensures q == p + 8
    ensures Wrote(old(buf[..]), buf[..], p,
                  Digits(dt.hour, 2) + [sep] + Digits(dt.minute, 2) + [sep] + Digits(dt.second, 2))
  {
    ghost var b0 := buf[..];
    q := Put2(buf, p, dt.hour);
    ghost var b1 := buf[..];
    q := Put(buf, q, sep);
    ghost var b2 := buf[..];
    q := Put2(buf, q, dt.minute);
    ghost var b3 := buf[..];
    q := Put(buf, q, sep);
    ghost var b4 := buf[..];
    q := Put2(buf, q, dt.second);
    WroteFive(b0, b1, b2, b3, b4, buf[..], p,
              Digits(dt.hour, 2), [sep], Digits(dt.minute, 2), [sep], Digits(dt.second, 2));
  }

  /** A point, then a number skipped to the right over zeros already there. */
  method PutPadded(buf: array<char>, p: nat, v: Uint64, w: nat) returns (q: nat)
    requires NumCharsOf(v) <= w <= 9 && v < Pow10(NumCharsOf(v))
    requires p + 10 <= buf.Length
    requires forall i :: p <= i < p + 10 ==> buf[i] == '0'
    modifies buf
    ensures q == p + 1 + w
    ensures Wrote(old(buf[..]), buf[..], p, ['.'] + Digits(v, w))
  {
    ghost var b0 := buf[..];
    q := Put(buf, p, '.');
    ghost var b1 := buf[..];
    var n := NumChars(v);
    q := q + (w - n);
    Utoa(buf, q, n, v);
    assert Wrote(b1, buf[..], q, Digits(v, n));
    q := q + n;
    FractionWritten(b0, b1, buf[..], p, v, n, w);
  }

  /** The fraction's leading zeros are the ones the buffer was filled with. */
  method PutFraction(buf: array<char>, p: nat, ps: nat, r: Resolution) returns (q: nat)
    requires ps < 1_000_000_000
    requires p + 10 <= buf.Length
    requires forall i :: p <= i < p + 10 ==> buf[i] == '0'
    modifies buf
    ensures q == p + |FractionText(ps, r)|
    ensures Wrote(old(buf[..]), buf[..], p, FractionText(ps, r))
  {
    q := p;
    if r.Secs? { return; }
    var v: Uint64 := ps / Unit(r);
    FractionFits(ps, r);
    q := PutPadded(buf, p, v, Places(r));
  }

  /** A point, then digits right-aligned over zeros, is a point and zero-padded digits. */
  lemma FractionWritten(b0: seq<char>, b1: seq<char>, b2: seq<char>, p: nat, v: nat, n: nat, w: nat)
    requires n <= w && v < Pow10(n)
    requires p + 1 + w <= |b0| && forall i :: p <= i < p + 1 + w ==> b0[i] == '0'
    requires Wrote(b0, b1, p, ['.'])
    requires Wrote(b1, b2, p + 1 + w - n, Digits(v, n))
    ensures Wrote(b0, b2, p, ['.'] + Digits(v, w))
  {
    var zeros := seq(w - n, i => '0');
    ZerosKept(b0, b1, p, w, w - n);
    WroteThen(b1, b1, b2, p + 1, zeros, Digits(v, n));
    DigitsPad(v, n, w);
    WroteThen(b0, b1, b2, p, ['.'], Digits(v, w));
  }

  /** Skipping over zeros is writing zeros. */
  lemma ZerosKept(b0: seq<char>, b1: seq<char>, p: nat, w: nat, k: nat)
    requires k <= w && p + 1 + w <= |b0| && forall i :: p <= i < p + 1 + w ==> b0[i] == '0'
    requires Wrote(b0, b1, p, ['.'])
    ensures Wrote(b1, b1, p + 1, seq(k, i => '0'))
  {
    assert b1[p + 1..] == b0[p + 1..];
    assert forall i :: p + 1 <= i < p + 1 + w ==> b1[i] == b1[p + 1..][i - (p + 1)] == b0[i];
    assert b1[p + 1..p + 1 + k] == seq(k, i => '0');
  }

  lemma FractionFits(ps: nat, r: Resolution)
    requires ps < 1_000_000_000 && !r.Secs?
    ensures var v := ps / Unit(r);
            v < 1_000_000_000 && v < Pow10(Places(r))
            && NumCharsOf(v) <= Places(r) && v < Pow10(NumCharsOf(v))
  {
    var v := ps / Unit(r);
    DivOne(ps);
    PowerTable();
    LengthBounds(v);
    if DecimalLength(v) > Places(r) { PowMonotone(Places(r), DecimalLength(v) - 1); }
  }

  /** `std::memset` of the first `bufsize` bytes. */
  method Fill(buf: array<char>)
    requires buf.Length >= BUFSIZE
    modifies buf
    ensures buf[..] == seq(BUFSIZE, i => '0') + old(buf[BUFSIZE..])
  {
    for i := 0 to BUFSIZE
      invariant forall j :: 0 <= j < i ==> buf[j] == '0'
      invariant buf[BUFSIZE..] == old(buf[BUFSIZE..])
    {
      buf[i] := '0';
    }
    assert buf[..] == buf[..BUFSIZE] + buf[BUFSIZE..];
  }

  method PutDate(buf: array<char>, dt: DateTime, f: Flags) returns (n: nat)
    requires buf.Length >= BUFSIZE
    modifies buf
    ensures n == 10 == |DateText(dt, f)|
    ensures Wrote(old(buf[..]), buf[..], 0, DateText(dt, f))
  {
    if YyyyMmDd in f { n := PutYearFirst(buf, 0, dt, DateSep(f)); } else { n := PutDayFirst(buf, 0, dt, DateSep(f)); }
  }

  method PutSeconds(buf: array<char>, dt: DateTime, f: Flags) returns (n: nat)
    requires buf.Length >= BUFSIZE
    modifies buf
    ensures n == 19
    ensures Wrote(old(buf[..]), buf[..], 0, DateText(dt, f) + [SepSep(f)] + ClockText(dt, f))
  {
    ghost var b0 := buf[..];
    n := PutDate(buf, dt, f);
    ghost var b1 := buf[..];
    n := Put(buf, n, SepSep(f));
    ghost var b2 := buf[..];
    n := PutClock(buf, n, dt, TimeSep(f));
    WroteThen(b0, b1, b2, 0, DateText(dt, f), [SepSep(f)]);
    WroteThen(b0, b2, buf[..], 0, DateText(dt, f) + [SepSep(f)], ClockText(dt, f));
  }

  method PutFields(buf: array<char>, dt: DateTime, ps: nat, f: Flags) returns (n: nat)
    requires ps < 1_000_000_000
    requires buf.Length >= BUFSIZE
    requires forall i :: 0 <= i < BUFSIZE ==> buf[i] == '0'
    modifies buf
    ensures n == |FieldsText(dt, ps, f)|
    ensures Wrote(old(buf[..]), buf[..], 0, FieldsText(dt, ps, f))
  {
    ghost var b0 := buf[..];
    n := PutSeconds(buf, dt, f);
    ghost var b1 := buf[..];
    assert forall i :: n <= i < BUFSIZE ==> b1[i] == b0[i] == '0';
    n := PutFraction(buf, n, ps, ResolutionOf(f));
    WroteThen(b0, b1, buf[..], 0, DateText(dt, f) + [SepSep(f)] + ClockText(dt, f), FractionText(ps, ResolutionOf(f)));
  }

  // ---------------------------------------------------------------- reading it back

  /** Digits that denote `v`. */
  predicate Denotes(t: seq<char>, v: nat) {
    (forall i :: 0 <= i < |t| ==> IsDigit(t[i])) && Value(t) == v
  }

  /** The `n` characters from `at` on are digits and denote `v`. */
  predicate Spells(s: seq<char>, at: nat, n: nat, v: nat) {
    at + n <= |s| && Denotes(s[at..at + n], v)
  }

  /** The characters between the numbers: within the date, between date and time, within the time. */
  predicate Separators(f: Flags, date: char, middle: char, time: char) {
    if Sep1 in f then date == '-' && middle == ' ' && time == ':'
    else date == '.' && middle == '-' && time == if Sep3 in f then ':' else '.'
  }

  predicate FractionReads(s: seq<char>, nanos: nat, f: Flags) {
    if FSecs in f then |s| == 19
    else if FMsecs in f then |s| == 23 && s[19] == '.' && Spells(s, 20, 3, nanos / 1_000_000)
    else if FUsecs in f then |s| == 26 && s[19] == '.' && Spells(s, 20, 6, nanos / 1_000)
    else |s| == 29 && s[19] == '.' && Spells(s, 20, 9, nanos)
  }

  /** A text of 19 characters and a fraction reads as a date, a time and a part of a second, as the flags say. */
  ghost predicate ReadsAs(s: seq<char>, dt: DateTime, nanos: nat, f: Flags) {
    && |s| >= 19
    && (if YyyyMmDd in f
        then Spells(s, 0, 4, dt.year) && Spells(s, 5, 2, dt.month + 1) && Spells(s, 8, 2, dt.day) && s[4] == s[7]
        else Spells(s, 0, 2, dt.day) && Spells(s, 3, 2, dt.month + 1) && Spells(s, 6, 4, dt.year) && s[2] == s[5])
    && Separators(f, s[if YyyyMmDd in f then 4 else 2], s[10], s[13]) && s[13] == s[16]
    && Spells(s, 11, 2, dt.hour) && Spells(s, 14, 2, dt.minute) && Spells(s, 17, 2, dt.second)
    && FractionReads(s, nanos, f)
  }

  lemma DigitsDenote(v: nat, n: nat)
    requires v < Pow10(n)
    ensures Denotes(Digits(v, n), v)
  {
    DigitsValue(v, n);
    ModUnique(v, Pow10(n), 0, v);
  }

  /** A stretch of a text is where it was, further on by what was put before. */
  lemma Stretch(pre: seq<char>, t: seq<char>, post: seq<char>, a: nat, b: nat)
    requires a <= b <= |t|
    ensures (pre + t + post)[|pre| + a..|pre| + b] == t[a..b]
  {
  }

  lemma DigitsSpell(pre: seq<char>, v: nat, n: nat, post: seq<char>)
    requires v < Pow10(n)
    ensures Spells(pre + Digits(v, n) + post, |pre|, n, v)
  {
    DigitsDenote(v, n);
    Stretch(pre, Digits(v, n), post, 0, n);
  }

  /** Three numbers with a character between them, within a text. */
  function Trio(u: nat, i: nat, v: nat, j: nat, w: nat, k: nat, c: char): seq<char> {
    Digits(u, i) + [c] + Digits(v, j) + [c] + Digits(w, k)
  }

  /** Three numbers stand from `p` on, with `c` between them. */
  predicate TrioReads(s: seq<char>, p: nat, u: nat, i: nat, v: nat, j: nat, w: nat, k: nat, c: char) {
    && Spells(s, p, i, u) && Spells(s, p + i + 1, j, v) && Spells(s, p + i + j + 2, k, w)
    && p + i + j + 2 <= |s| && s[p + i] == c && s[p + i + j + 1] == c
  }

  lemma PiecesRead(x: seq<char>, y: seq<char>, z: seq<char>, u: nat, v: nat, w: nat, c: char)
    requires Denotes(x, u) && Denotes(y, v) && Denotes(z, w)
    ensures TrioReads(x + [c] + y + [c] + z, 0, u, |x|, v, |y|, w, |z|, c)
  {
    var t := x + [c] + y + [c] + z;
    assert t[0..|x|] == x;
    assert t[|x| + 1..|x| + 1 + |y|] == y;
    assert t[|x| + |y| + 2..|x| + |y| + 2 + |z|] == z;
  }

  lemma SpellsWithin(pre: seq<char>, t: seq<char>, post: seq<char>, at: nat, n: nat, v: nat)
    requires Spells(t, at, n, v)
    ensures Spells(pre + t + post, |pre| + at, n, v)
  {
    Stretch(pre, t, post, at, at + n);
  }

  lemma TrioWithin(pre: seq<char>, t: seq<char>, post: seq<char>,
                   u: nat, i: nat, v: nat, j: nat, w: nat, k: nat, c: char)
    requires TrioReads(t, 0, u, i, v, j, w, k, c)
    ensures TrioReads(pre + t + post, |pre|, u, i, v, j, w, k, c)
  {
    SpellsWithin(pre, t, post, 0, i, u);
    SpellsWithin(pre, t, post, i + 1, j, v);
    SpellsWithin(pre, t, post, i + j + 2, k, w);
  }

  lemma TrioReadsBack(pre: seq<char>, u: nat, i: nat, v: nat, j: nat, w: nat, k: nat, c: char, post: seq<char>)
    requires u < Pow10(i) && v < Pow10(j) && w < Pow10(k)
    ensures TrioReads(pre + Trio(u, i, v, j, w, k, c) + post, |pre|, u, i, v, j, w, k, c)
  {
    DigitsDenote(u, i);
    DigitsDenote(v, j);
    DigitsDenote(w, k);
    PiecesRead(Digits(u, i), Digits(v, j), Digits(w, k), u, v, w, c);
    TrioWithin(pre, Trio(u, i, v, j, w, k, c), post, u, i, v, j, w, k, c);
  }

  lemma PointReadsBack(pre: seq<char>, v: nat, n: nat)
    requires v < Pow10(n)
    ensures var s := pre + (['.'] + Digits(v, n));
            |s| == |pre| + 1 + n && s[|pre|] == '.' && Spells(s, |pre| + 1, n, v)
  {
    DigitsSpell(pre + ['.'], v, n, []);
    assert pre + (['.'] + Digits(v, n)) == (pre + ['.']) + Digits(v, n) + [];
  }

  lemma DateReadsBack(dt: DateTime, f: Flags, post: seq<char>)
    requires Valid(dt) && dt.year < 10000
    ensures var s, c := DateText(dt, f) + post, DateSep(f);
            if YyyyMmDd in f then TrioReads(s, 0, dt.year, 4, dt.month + 1, 2, dt.day, 2, c)
            else TrioReads(s, 0, dt.day, 2, dt.month + 1, 2, dt.year, 4, c)
  {
    PowerTable();
    var s := DateText(dt, f);
    assert [] + s + post == s + post;
    if YyyyMmDd in f {
      assert s == Trio(dt.year, 4, dt.month + 1, 2, dt.day, 2, DateSep(f));
      TrioReadsBack([], dt.year, 4, dt.month + 1, 2, dt.day, 2, DateSep(f), post);
    } else {
      assert s == Trio(dt.day, 2, dt.month + 1, 2, dt.year, 4, DateSep(f));
      TrioReadsBack([], dt.day, 2, dt.month + 1, 2, dt.year, 4, DateSep(f), post);
    }
  }

  lemma ClockReadsBack(pre: seq<char>, dt: DateTime, f: Flags, post: seq<char>)
    requires Valid(dt)
    ensures TrioReads(pre + ClockText(dt, f) + post, |pre|, dt.hour, 2, dt.minute, 2, dt.second, 2, TimeSep(f))
  {
    PowerTable();
    assert ClockText(dt, f) == Trio(dt.hour, 2, dt.minute, 2, dt.second, 2, TimeSep(f));
    TrioReadsBack(pre, dt.hour, 2, dt.minute, 2, dt.second, 2, TimeSep(f), post);
  }

  lemma FractionAsFlagged(pre: seq<char>, nanos: nat, f: Flags)
    requires |pre| == 19 && nanos < 1_000_000_000
    ensures FractionReads(pre + FractionText(nanos, ResolutionOf(f)), nanos, f)
  {
    var r := ResolutionOf(f);
    if r.Secs? {
      assert pre + [] == pre;
    } else {
      FractionFits(nanos, r);
      PointReadsBack(pre, nanos / Unit(r), Places(r));
      DivOne(nanos);
    }
  }

  /** The text of a timestamp spells the one date and time of its second, and its part of a second. */
  lemma TextReadsBack(ts: Uint64, f: Flags, dt: DateTime)
    requires Valid(dt) && Posix(dt) == ts / 1_000_000_000
    ensures ReadsAs(Text(ts, f), dt, ts % 1_000_000_000, f)
  {
    CivilUnique(ts / 1_000_000_000, dt);
    YearRange(ts / 1_000_000_000, dt);
    FieldsReadBack(dt, ts % 1_000_000_000, f);
  }

  lemma FieldsReadBack(dt: DateTime, nanos: nat, f: Flags)
    requires Valid(dt) && dt.year < 10000 && nanos < 1_000_000_000
    ensures ReadsAs(FieldsText(dt, nanos, f), dt, nanos, f)
  {
    var date, sep, clock := DateText(dt, f), [SepSep(f)], ClockText(dt, f);
    var fraction := FractionText(nanos, ResolutionOf(f));
    var s := FieldsText(dt, nanos, f);
    DateReadsBack(dt, f, sep + clock + fraction);
    assert s == date + (sep + clock + fraction);
    ClockReadsBack(date + sep, dt, f, fraction);
    assert s == (date + sep) + clock + fraction;
    assert |date| == 10 && |clock| == 8;
    assert s[10] == sep[0];
    FractionAsFlagged(date + sep + clock, nanos, f);
  }

  /** It reads as whatever valid date has the formula's value: there is one. */
  lemma TextReadsAsAny(ts: Uint64, f: Flags)
    ensures forall dt: DateTime :: Valid(dt) && Posix(dt) == ts / 1_000_000_000 ==>
              ReadsAs(Text(ts, f), dt, ts % 1_000_000_000, f)
  {
    forall dt: DateTime | Valid(dt) && Posix(dt) == ts / 1_000_000_000
      ensures ReadsAs(Text(ts, f), dt, ts % 1_000_000_000, f)
    {
      TextReadsBack(ts, f, dt);
    }
  }

  lemma WroteOverZeros(before: seq<char>, after: seq<char>, s: seq<char>, tail: seq<char>)
    requires |s| <= BUFSIZE && before == seq(BUFSIZE, i => '0') + tail
    requires Wrote(before, after, 0, s)
    ensures after == s + seq(BUFSIZE - |s|, i => '0') + tail
  {
    assert before[|s|..] == seq(BUFSIZE - |s|, i => '0') + tail;
  }

  method TimestampToDtChars(buf: array<char>, ts: Uint64, f: Flags) returns (n: nat)
    requires buf.Length >= BUFSIZE
    requires YyyyMmDd in f || DdMmYyyy in f
    modifies buf
    ensures n == |Text(ts, f)| < BUFSIZE
    ensures forall dt: DateTime :: Valid(dt) && Posix(dt) == ts / 1_000_000_000 ==>
              ReadsAs(buf[..n], dt, ts % 1_000_000_000, f)
    ensures buf[..] == Text(ts, f) + seq(BUFSIZE - n, i => '0') + old(buf[BUFSIZE..])
  {
    var ss := ts / 1_000_000_000;
    var ps := ts % 1_000_000_000;
    var dt := CivilFields(ss);
    Fill(buf);
    ghost var b0 := buf[..];
    n := PutFields(buf, dt, ps, f);
    TextHasFixedLength(ts, f);
    WroteOverZeros(b0, buf[..], Text(ts, f), old(buf[BUFSIZE..]));
    assert buf[..n] == Text(ts, f);
    TextReadsAsAny(ts, f);
  }

  // ---------------------------------------------------------------- texts in order

  /** Lexicographic order of equally long texts. */
  predicate LexLess(s: seq<char>, t: seq<char>)
    requires |s| == |t|
  {
    s != [] && (s[0] < t[0] || (s[0] == t[0] && LexLess(s[1..], t[1..])))
  }

  lemma {:induction false} LexAppend(s: seq<char>, s': seq<char>, t: seq<char>, t': seq<char>)
    requires |s| == |t| && |s'| == |t'|
    ensures LexLess(s + s', t + t') <==> LexLess(s, t) || (s == t && LexLess(s', t'))
  {
    if s == [] {
      assert s + s' == s' && t + t' == t';
    } else {
      LexAppend(s[1..], s', t[1..], t');
      assert (s + s')[1..] == s[1..] + s' && (t + t')[1..] == t[1..] + t';
      assert s == [s[0]] + s[1..] && t == [t[0]] + t[1..];
    }
  }

  lemma {:induction false} LexTotal(s: seq<char>, t: seq<char>)
    requires |s| == |t|
    ensures !(LexLess(s, t) && LexLess(t, s))
    ensures LexLess(s, t) ==> s != t
  {
    if s != [] { LexTotal(s[1..], t[1..]); }
  }

  /** Digit strings of one width order as the numbers they hold. */
  lemma {:induction false} DigitsOrder(v: nat, w: nat, n: nat)
    requires v < w < Pow10(n)
    ensures LexLess(Digits(v, n), Digits(w, n))
  {
    if n > 0 {
      LexAppend(Digits(v / 10, n - 1), [DigitChar(v % 10)], Digits(w / 10, n - 1), [DigitChar(w % 10)]);
      if v / 10 < w / 10 {
        DigitsOrder(v / 10, w / 10, n - 1);
      } else {
        assert v % 10 < w % 10;
        assert LexLess([DigitChar(v % 10)], [DigitChar(w % 10)]);
      }
    }
  }

  /** A timestamp in whole units of a resolution. */
  function Truncated(ts: nat, r: Resolution): nat {
    ts / Unit(r)
  }

  lemma TruncatedSplits(ts: nat, r: Resolution)
    ensures var ss, frac := ts / 1_000_000_000, (ts % 1_000_000_000) / Unit(r);
            Truncated(ts, r) == ss * Pow10(Places(r)) + frac && frac < Pow10(Places(r))
  {
    PowerTable();
  }

  lemma Prefixed(a: seq<char>, s: seq<char>, t: seq<char>)
    requires |s| == |t| && LexLess(s, t)
    ensures LexLess(a + s, a + t)
  {
    LexAppend(a, s, a, t);
  }

  lemma Extended(s: seq<char>, s': seq<char>, t: seq<char>, t': seq<char>)
    requires |s| == |t| && |s'| == |t'| && LexLess(s, t)
    ensures LexLess(s + s', t + t')
  {
    LexAppend(s, s', t, t');
  }

  lemma DateOrder(a: DateTime, b: DateTime, f: Flags)
    requires YyyyMmDd in f && Valid(a) && Valid(b) && Before(a, b) && b.year < 10000
    requires (a.year, a.month, a.day) != (b.year, b.month, b.day)
    ensures LexLess(DateText(a, f), DateText(b, f))
  {
    PowerTable();
    var sep := [DateSep(f)];
    var a1, b1 := Digits(a.year, 4) + sep, Digits(b.year, 4) + sep;
    var a2, b2 := a1 + Digits(a.month + 1, 2) + sep, b1 + Digits(b.month + 1, 2) + sep;
    if a.year < b.year {
      DigitsOrder(a.year, b.year, 4);
      Extended(Digits(a.year, 4), sep, Digits(b.year, 4), sep);
      Extended(a1, Digits(a.month + 1, 2), b1, Digits(b.month + 1, 2));
      Extended(a1 + Digits(a.month + 1, 2), sep, b1 + Digits(b.month + 1, 2), sep);
      Extended(a2, Digits(a.day, 2), b2, Digits(b.day, 2));
    } else if a.month < b.month {
      DigitsOrder(a.month + 1, b.month + 1, 2);
      Prefixed(a1, Digits(a.month + 1, 2), Digits(b.month + 1, 2));
      Extended(a1 + Digits(a.month + 1, 2), sep, b1 + Digits(b.month + 1, 2), sep);
      Extended(a2, Digits(a.day, 2), b2, Digits(b.day, 2));
    } else {
      DigitsOrder(a.day, b.day, 2);
      Prefixed(a2, Digits(a.day, 2), Digits(b.day, 2));
    }
  }

  lemma ClockOrder(a: DateTime, b: DateTime, f: Flags)
    requires Valid(a) && Valid(b) && Before(a, b)
    requires (a.year, a.month, a.day) == (b.year, b.month, b.day)
    ensures LexLess(ClockText(a, f), ClockText(b, f))
  {
    PowerTable();
    var sep := [TimeSep(f)];
    var a1, b1 := Digits(a.hour, 2) + sep, Digits(b.hour, 2) + sep;
    var a2, b2 := a1 + Digits(a.minute, 2) + sep, b1 + Digits(b.minute, 2) + sep;
    if a.hour < b.hour {
      DigitsOrder(a.hour, b.hour, 2);
      Extended(Digits(a.hour, 2), sep, Digits(b.hour, 2), sep);
      Extended(a1, Digits(a.minute, 2), b1, Digits(b.minute, 2));
      Extended(a1 + Digits(a.minute, 2), sep, b1 + Digits(b.minute, 2), sep);
      Extended(a2, Digits(a.second, 2), b2, Digits(b.second, 2));
    } else if a.minute < b.minute {
      DigitsOrder(a.minute, b.minute, 2);
      Prefixed(a1, Digits(a.minute, 2), Digits(b.minute, 2));
      Extended(a1 + Digits(a.minute, 2), sep, b1 + Digits(b.minute, 2), sep);
      Extended(a2, Digits(a.second, 2), b2, Digits(b.second, 2));
    } else {
      DigitsOrder(a.second, b.second, 2);
      Prefixed(a2, Digits(a.second, 2), Digits(b.second, 2));
    }
  }

  function Prefix(dt: DateTime, f: Flags): (s: seq<char>)
    ensures |s| == 19
  {
    DateText(dt, f) + [SepSep(f)] + ClockText(dt, f)
  }

  lemma PrefixOrder(a: DateTime, b: DateTime, f: Flags)
    requires YyyyMmDd in f && Valid(a) && Valid(b) && Before(a, b) && b.year < 10000
    ensures LexLess(Prefix(a, f), Prefix(b, f))
  {
    var sep := [SepSep(f)];
    if (a.year, a.month, a.day) == (b.year, b.month, b.day) {
      ClockOrder(a, b, f);
      Prefixed(DateText(a, f) + sep, ClockText(a, f), ClockText(b, f));
    } else {
      DateOrder(a, b, f);
      Extended(DateText(a, f), sep, DateText(b, f), sep);
      Extended(DateText(a, f) + sep, ClockText(a, f), DateText(b, f) + sep, ClockText(b, f));
    }
  }

  lemma FractionOrder(a: nat, b: nat, r: Resolution)
    requires a < 1_000_000_000 && b < 1_000_000_000 && a / Unit(r) < b / Unit(r)
    ensures |FractionText(a, r)| == |FractionText(b, r)|
    ensures LexLess(FractionText(a, r), FractionText(b, r))
  {
    FractionFits(b, r);
    DigitsOrder(a / Unit(r), b / Unit(r), Places(r));
    Prefixed(['.'], Digits(a / Unit(r), Places(r)), Digits(b / Unit(r), Places(r)));
  }

  lemma EarlierSecond(a: nat, b: nat, f: Flags)
    requires YyyyMmDd in f && a < b <= 18_446_744_073
    ensures LexLess(Prefix(Civil(a), f), Prefix(Civil(b), f))
  {
    PosixOrders(Civil(a), Civil(b));
    YearRange(b, Civil(b));
    PrefixOrder(Civil(a), Civil(b), f);
  }

  lemma EarlierIsLess(a: Uint64, b: Uint64, f: Flags)
    requires YyyyMmDd in f
    requires Truncated(a, ResolutionOf(f)) < Truncated(b, ResolutionOf(f))
    ensures |Text(a, f)| == |Text(b, f)| && LexLess(Text(a, f), Text(b, f))
  {
    var r := ResolutionOf(f);
    var sa, sb := a / 1_000_000_000, b / 1_000_000_000;
    var pa, pb := Prefix(Civil(sa), f), Prefix(Civil(sb), f);
    var fa, fb := FractionText(a % 1_000_000_000, r), FractionText(b % 1_000_000_000, r);
    SecondsFirst(a, b, r);
    assert Text(a, f) == pa + fa && Text(b, f) == pb + fb;
    if sa < sb {
      EarlierSecond(sa, sb, f);
      Extended(pa, fa, pb, fb);
    } else {
      FractionOrder(a % 1_000_000_000, b % 1_000_000_000, r);
      Prefixed(pa, fa, fb);
    }
  }

  lemma LargerMultiple(x: nat, y: nat, p: nat)
    requires x > y
    ensures x * p >= y * p + p
  {
    assert x * p == (y + 1) * p + (x - y - 1) * p;
  }

  lemma Pairs(x: nat, y: nat, x': nat, y': nat, p: nat)
    requires y < p && y' < p && x * p + y <= x' * p + y'
    ensures x <= x'
    ensures x == x' ==> (x * p + y < x' * p + y' <==> y < y')
  {
    if x > x' { LargerMultiple(x, x', p); }
  }

  lemma SecondsFirst(a: nat, b: nat, r: Resolution)
    requires Truncated(a, r) <= Truncated(b, r)
    ensures a / 1_000_000_000 <= b / 1_000_000_000
    ensures a / 1_000_000_000 == b / 1_000_000_000 ==>
              (Truncated(a, r) < Truncated(b, r)
               <==> (a % 1_000_000_000) / Unit(r) < (b % 1_000_000_000) / Unit(r))
  {
    TruncatedSplits(a, r);
    TruncatedSplits(b, r);
    Pairs(a / 1_000_000_000, (a % 1_000_000_000) / Unit(r),
          b / 1_000_000_000, (b % 1_000_000_000) / Unit(r), Pow10(Places(r)));
  }

  /** Year-first texts of one format order, and coincide, exactly as the timestamps cut to the resolution. */
  lemma TextOrder(a: Uint64, b: Uint64, f: Flags)
    requires YyyyMmDd in f
    ensures |Text(a, f)| == |Text(b, f)|
    ensures LexLess(Text(a, f), Text(b, f)) <==> Truncated(a, ResolutionOf(f)) < Truncated(b, ResolutionOf(f))
    ensures Text(a, f) == Text(b, f) <==> Truncated(a, ResolutionOf(f)) == Truncated(b, ResolutionOf(f))
  {
    TextHasFixedLength(a, f);
    TextHasFixedLength(b, f);
    LexTotal(Text(a, f), Text(b, f));
    LexTotal(Text(b, f), Text(a, f));
    var r := ResolutionOf(f);
    if Truncated(a, r) < Truncated(b, r) {
      EarlierIsLess(a, b, f);
    } else if Truncated(b, r) < Truncated(a, r) {
      EarlierIsLess(b, a, f);
    } else {
      SecondsFirst(a, b, r);
      SecondsFirst(b, a, r);
      TruncatedSplits(a, r);
      TruncatedSplits(b, r);
    }
  }

  // ---------------------------------------------------------------- the format of a text

  function DetectedFlags(s: seq<char>, n: nat): Flags
    requires |s| >= 14
  {
    {if IsDigit(s[2]) then YyyyMmDd else DdMmYyyy,
     if s[10] == ' ' then Sep1 else if s[13] == '.' then Sep2 else Sep3,
     if n == 19 then FSecs else if n == 23 then FMsecs else if n == 26 then FUsecs else FNsecs}
  }

  lemma Positions(date: seq<char>, sep: char, clock: seq<char>, fraction: seq<char>, tail: seq<char>)
    requires |date| == 10 && |clock| == 8
    ensures var s := date + [sep] + clock + fraction + tail;
            s[2] == date[2] && s[10] == sep && s[13] == clock[2]
  {
  }

  lemma DateMark(dt: DateTime, f: Flags)
    ensures |DateText(dt, f)| == 10
    ensures IsDigit(DateText(dt, f)[2]) <==> YyyyMmDd in f
  {
    if YyyyMmDd in f {
      assert DateText(dt, f)[2] == Digits(dt.year, 4)[2];
    } else {
      assert DateText(dt, f)[2] == DateSep(f);
    }
  }

  lemma ClockMark(dt: DateTime, f: Flags)
    ensures |ClockText(dt, f)| == 8 && ClockText(dt, f)[2] == TimeSep(f)
  {
  }

  lemma MarkedPositions(ts: nat, f: Flags, tail: seq<char>)
    ensures |Text(ts, f)| >= 19
    ensures var s := Text(ts, f) + tail;
            s[10] == SepSep(f) && s[13] == TimeSep(f) && (IsDigit(s[2]) <==> YyyyMmDd in f)
  {
    var dt := Civil(ts / 1_000_000_000);
    DateMark(dt, f);
    ClockMark(dt, f);
    Positions(DateText(dt, f), SepSep(f), ClockText(dt, f), FractionText(ts % 1_000_000_000, ResolutionOf(f)), tail);
  }

  predicate IsLayout(f: Flag) { f == YyyyMmDd || f == DdMmYyyy }
  predicate IsStyle(f: Flag) { f == Sep1 || f == Sep2 || f == Sep3 }
  predicate IsResolution(f: Flag) { f == FSecs || f == FMsecs || f == FUsecs || f == FNsecs }

  /** A text tells the one layout, separator style and resolution it was written with. */
  lemma FlagsRoundTrip(ts: nat, layout: Flag, sep: Flag, res: Flag, tail: seq<char>)
    requires IsLayout(layout) && IsStyle(sep) && IsResolution(res)
    ensures var text := Text(ts, {layout, sep, res});
            |text| >= 19 && DetectedFlags(text + tail, |text|) == {layout, sep, res}
  {
    MarkedPositions(ts, {layout, sep, res}, tail);
    TextHasFixedLength(ts, {layout, sep, res});
  }

  /** The first `n` characters are what is written for a timestamp with these flags. */
  ghost predicate WrittenAs(s: seq<char>, n: nat, ts: nat, layout: Flag, sep: Flag, res: Flag) {
    n <= |s| && s[..n] == Text(ts, {layout, sep, res})
  }

  lemma WrittenIsDetected(s: seq<char>, n: nat, ts: nat, layout: Flag, sep: Flag, res: Flag)
    requires IsLayout(layout) && IsStyle(sep) && IsResolution(res) && WrittenAs(s, n, ts, layout, sep, res)
    ensures |s| >= 14 && DetectedFlags(s, n) == {layout, sep, res}
  {
    FlagsRoundTrip(ts, layout, sep, res, s[n..]);
    assert s == s[..n] + s[n..];
  }

  /** The flag word guessed from the third, eleventh and fourteenth characters and the length. */
  method DtStrFlags(buf: array<char>, n: nat) returns (r: Flags)
    requires buf.Length >= 14
    ensures forall ts, layout, sep, res :: IsLayout(layout) && IsStyle(sep) && IsResolution(res) ==>
              WrittenAs(buf[..], n, ts, layout, sep, res) ==> r == {layout, sep, res}
    ensures r == DetectedFlags(buf[..], n)
  {
    var c2, c10, c13 := buf[2], buf[10], buf[13];
    r := {};
    r := r + if IsDigit(c2) then {YyyyMmDd} else {DdMmYyyy};
    r := r + if c10 == ' ' then {Sep1} else if c13 == '.' then {Sep2} else {Sep3};
    r := r + if n == 19 then {FSecs} else if n == 23 then {FMsecs} else if n == 26 then {FUsecs} else {FNsecs};
    assert r == DetectedFlags(buf[..], n);
    forall ts, layout, sep, res
      | IsLayout(layout) && IsStyle(sep) && IsResolution(res) && WrittenAs(buf[..], n, ts, layout, sep, res)
      ensures r == {layout, sep, res}
    {
      WrittenIsDetected(buf[..], n, ts, layout, sep, res);
    }
  }
}
