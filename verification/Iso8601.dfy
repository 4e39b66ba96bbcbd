/** `format_iso8601`: the fixed-width timestamp text, its order and its inverse. */
module Iso8601 {
  import opened Layout
  import opened Decimal
  import opened Calendar

  const NANOS_PER_SEC := 1_000_000_000
  const NANOS_PER_DAY := 86_400 * NANOS_PER_SEC
  const I64_MAX := 0x7fff_ffff_ffff_ffff
  const MIN_TZ_OFFSET := -43_200
  const MAX_TZ_OFFSET := 50_400

  /** An instant, in nanoseconds since the Unix epoch. */
  type Instant = x: int | 0 <= x < 0x1_0000_0000_0000_0000
  type Offset = x: int | MIN_TZ_OFFSET <= x <= MAX_TZ_OFFSET

  // ---------------------------------------------------------------- Local time

  /** The cast to i64, and the wrap-around of i64 sums. */
  function AsI64(x: int): int {
    (x + 0x8000_0000_0000_0000) % 0x1_0000_0000_0000_0000 - 0x8000_0000_0000_0000
  }

  function LocalNs(ns: Instant, off: Offset): int { AsI64(AsI64(ns) + off * NANOS_PER_SEC) }

  /** The first instant whose local time no longer fits an i64. */
  function WrapsAt(off: Offset): int { 0x8000_0000_0000_0000 - off * NANOS_PER_SEC }

  lemma LocalNsWraps(ns: Instant, off: Offset)
    ensures LocalNs(ns, off)
            == ns + off * NANOS_PER_SEC - (if ns < WrapsAt(off) then 0 else 0x1_0000_0000_0000_0000)
    ensures -0x8000_0000_0000_0000 <= LocalNs(ns, off) <= I64_MAX
  {
  }

  /** A local time as a day and the nanoseconds since its midnight. */
  datatype Local = Local(days: int, ns: int)

  /** `l` is the Euclidean split of `local`. */
  predicate Splits(l: Local, local: int) {
    0 <= l.ns < NANOS_PER_DAY && local == l.days * NANOS_PER_DAY + l.ns
  }

  lemma SplitIsUnique(k: Local, l: Local, local: int)
    requires Splits(k, local) && Splits(l, local)
    ensures k == l
  {
  }

  /** `div_euclid` and `rem_euclid`. */
  method SplitLocal(local: int) returns (l: Local)
    ensures Splits(l, local)
  {
    l := Local(local / NANOS_PER_DAY, local % NANOS_PER_DAY);
  }

  datatype Time = Time(hour: int, minute: int, second: int, nanos: int)

  /** `time_from_ns`. */
  function TimeFromNs(ns: int): Time {
    var secs := ns / NANOS_PER_SEC;
    Time(secs / 3600, secs % 3600 / 60, secs % 60, ns % NANOS_PER_SEC)
  }

  predicate ValidTime(t: Time) {
    0 <= t.hour < 24 && 0 <= t.minute < 60 && 0 <= t.second < 60 && 0 <= t.nanos < NANOS_PER_SEC
  }

  function NsOfTime(t: Time): int { ((t.hour * 60 + t.minute) * 60 + t.second) * NANOS_PER_SEC + t.nanos }

  predicate TimeEarlier(s: Time, t: Time) {
    s.hour < t.hour || (s.hour == t.hour && (s.minute < t.minute || (s.minute == t.minute &&
      (s.second < t.second || (s.second == t.second && s.nanos < t.nanos)))))
  }

  lemma TimeRoundTrip(ns: int)
    requires 0 <= ns < NANOS_PER_DAY
    ensures ValidTime(TimeFromNs(ns)) && NsOfTime(TimeFromNs(ns)) == ns
  {
    var secs := ns / NANOS_PER_SEC;
    var t := TimeFromNs(ns);
    assert (t.hour * 60 + t.minute) * 60 + t.second == secs;
  }

  lemma TimeOrder(s: int, t: int)
    requires 0 <= s < NANOS_PER_DAY && 0 <= t < NANOS_PER_DAY
    ensures TimeEarlier(TimeFromNs(s), TimeFromNs(t)) <==> s < t
  {
    TimeRoundTrip(s);
    TimeRoundTrip(t);
    ValidTimeOrder(TimeFromNs(s), TimeFromNs(t));
  }

  lemma ValidTimeOrder(s: Time, t: Time)
    requires ValidTime(s) && ValidTime(t)
    ensures TimeEarlier(s, t) <==> NsOfTime(s) < NsOfTime(t)
  {
  }

  /** The calendar reading of a local time. */
  datatype Reading = Reading(date: Date, time: Time)

  function ReadingOf(l: Local): Reading { Reading(CivilFromDays(l.days), TimeFromNs(l.ns)) }

  predicate ReadingEarlier(x: Reading, y: Reading) {
    Earlier(x.date, y.date) || (x.date == y.date && TimeEarlier(x.time, y.time))
  }

  lemma ReadingsOrder(x: Reading, y: Reading, l: Local, m: Local)
    requires Earlier(x.date, y.date) <==> l.days < m.days
    requires x.date == y.date <==> l.days == m.days
    requires TimeEarlier(x.time, y.time) <==> l.ns < m.ns
    requires 0 <= l.ns < NANOS_PER_DAY && 0 <= m.ns < NANOS_PER_DAY
    ensures ReadingEarlier(x, y) <==> l.days * NANOS_PER_DAY + l.ns < m.days * NANOS_PER_DAY + m.ns
  {
  }

  /** Readings sort as the local times they come from. */
  lemma ReadingOrder(l: Local, a: int, m: Local, b: int)
    requires Splits(l, a) && Splits(m, b)
    ensures ReadingEarlier(ReadingOf(l), ReadingOf(m)) <==> a < b
  {
    CivilOrder(l.days, m.days);
    TimeOrder(l.ns, m.ns);
    ReadingsOrder(ReadingOf(l), ReadingOf(m), l, m);
  }

  lemma ReadingRoundTrip(l: Local)
    requires 0 <= l.ns < NANOS_PER_DAY
    ensures ValidDate(ReadingOf(l).date) && ValidTime(ReadingOf(l).time)
    ensures DaysFromCivil(ReadingOf(l).date) == l.days && NsOfTime(ReadingOf(l).time) == l.ns
  {
    CivilIsValid(l.days);
    CivilRoundTrip(l.days, UNIX_EPOCH);
    TimeRoundTrip(l.ns);
  }

  lemma YearBounds(x: MarchDay)
    requires ValidMarch(x) && -106_752 <= DaysFromMarch(x) <= 106_751
    ensures 1600 <= CivilFromMarch(x).year <= 2400
  {
    YearFound(x.yoe, x.doy);
    assert 4 <= x.era <= 5;
  }

  lemma DayBounds(l: Local, local: int)
    requires Splits(l, local) && -0x8000_0000_0000_0000 <= local <= I64_MAX
    ensures -106_752 <= l.days <= 106_751
  {
  }

  lemma YearOfDay(d: int)
    requires -106_752 <= d <= 106_751
    ensures 1600 <= CivilFromDays(d).year <= 2400
  {
    var x := MarchFromDays(d);
    MarchIsValid(d);
    YearBounds(x);
  }

  /** Every local time of an i64 falls in a year of four digits. */
  lemma YearHasFourDigits(l: Local, local: int)
    requires Splits(l, local) && -0x8000_0000_0000_0000 <= local <= I64_MAX
    ensures 1600 <= CivilFromDays(l.days).year <= 2400
  {
    DayBounds(l, local);
    YearOfDay(l.days);
  }

  // ---------------------------------------------------------------- Order of digits

  /** Dictionary order. */
  predicate LexLess(a: seq<Byte>, b: seq<Byte>)
    decreases |a|
  {
    if a == [] then b != []
    else b != [] && (a[0] < b[0] || (a[0] == b[0] && LexLess(a[1..], b[1..])))
  }

  /** Texts that agree in length on a first block compare block by block. */
  lemma {:induction false} LexBlocks(a: seq<Byte>, a': seq<Byte>, b: seq<Byte>, b': seq<Byte>)
    requires |a| == |b|
    ensures LexLess(a + a', b + b') <==> LexLess(a, b) || (a == b && LexLess(a', b'))
    decreases |a|
  {
    if a == [] {
      assert a + a' == a' && b + b' == b';
    } else {
      LexBlocks(a[1..], a', b[1..], b');
      assert (a + a')[1..] == a[1..] + a' && (b + b')[1..] == b[1..] + b';
      assert a == [a[0]] + a[1..] && b == [b[0]] + b[1..];
    }
  }

  lemma LexOne(x: Byte, y: Byte)
    ensures LexLess([x], [y]) <==> x < y
  {
  }

  /** Digit blocks sort as the numbers they show. */
  lemma {:induction false} DigitsOrder(u: nat, v: nat, n: nat)
    requires u < Pow10(n) && v < Pow10(n)
    ensures LexLess(Digits(u, n), Digits(v, n)) <==> u < v
    ensures Digits(u, n) == Digits(v, n) <==> u == v
    decreases n
  {
    if n > 0 {
      DigitsOrder(u / 10, v / 10, n - 1);
      LexBlocks(Digits(u / 10, n - 1), [ZERO + u % 10], Digits(v / 10, n - 1), [ZERO + v % 10]);
      LexOne(ZERO + u % 10, ZERO + v % 10);
      DigitsRoundTrip(u, n);
      DigitsRoundTrip(v, n);
    }
  }

  // ---------------------------------------------------------------- Text

  const DASH: Byte := 45
  const TEE: Byte := 84
  const COLON: Byte := 58
  const DOT: Byte := 46
  const ZULU: Byte := 90
  const PLUS: Byte := 43

  /** A number of fixed width, a separator, and the rest of the text. */
  function Block(v: nat, n: nat, sep: Byte, rest: seq<Byte>): (s: seq<Byte>)
    ensures |s| == n + 1 + |rest|
  {
    Digits(v, n) + ([sep] + rest)
  }

  function Abs(x: int): nat { if x < 0 then -x else x }

  /** The offset shown: whole minutes, cut toward zero. */
  function ShownOffset(off: Offset): int {
    var m := Abs(off) / 60 * 60;
    if off < 0 then -m else m
  }

  function Suffix(off: Offset): (s: seq<Byte>)
    ensures |s| == if off == 0 then 1 else 6
  {
    if off == 0 then [ZULU]
    else [if off < 0 then DASH else PLUS] + Block(Abs(off) / 3600, 2, COLON, Digits(Abs(off) % 3600 / 60, 2))
  }

  predicate Printable(r: Reading) {
    ValidDate(r.date) && ValidTime(r.time) && 0 <= r.date.year <= 9999
  }

  function ClockText(t: Time, suffix: seq<Byte>): (s: seq<Byte>)
    requires ValidTime(t)
    ensures |s| == 18 + |suffix|
  {
    Block(t.hour, 2, COLON, Block(t.minute, 2, COLON, Block(t.second, 2, DOT, Digits(t.nanos, 9) + suffix)))
  }

  function Text(r: Reading, suffix: seq<Byte>): (s: seq<Byte>)
    requires Printable(r)
    ensures |s| == 29 + |suffix|
  {
    Block(r.date.year, 4, DASH, Block(r.date.month, 2, DASH, Block(r.date.day, 2, TEE, ClockText(r.time, suffix))))
  }

  // ---------------------------------------------------------------- Order

  lemma {:induction false} LexIrreflexive(a: seq<Byte>)
    ensures !LexLess(a, a)
  {
    if a != [] { LexIrreflexive(a[1..]); }
  }

  lemma BlockOrder(u: nat, v: nat, n: nat, sep: Byte, a: seq<Byte>, b: seq<Byte>)
    requires u < Pow10(n) && v < Pow10(n)
    ensures LexLess(Block(u, n, sep, a), Block(v, n, sep, b)) <==> u < v || (u == v && LexLess(a, b))
  {
    DigitsOrder(u, v, n);
    LexBlocks(Digits(u, n), [sep] + a, Digits(v, n), [sep] + b);
    assert ([sep] + a)[1..] == a && ([sep] + b)[1..] == b;
  }

  lemma NanosOrder(u: nat, v: nat, suffix: seq<Byte>)
    requires u < NANOS_PER_SEC && v < NANOS_PER_SEC
    ensures LexLess(Digits(u, 9) + suffix, Digits(v, 9) + suffix) <==> u < v
  {
    assert Pow10(9) == NANOS_PER_SEC;
    DigitsOrder(u, v, 9);
    LexBlocks(Digits(u, 9), suffix, Digits(v, 9), suffix);
    LexIrreflexive(suffix);
  }

  lemma ClockOrder(s: Time, t: Time, suffix: seq<Byte>)
    requires ValidTime(s) && ValidTime(t)
    ensures LexLess(ClockText(s, suffix), ClockText(t, suffix)) <==> TimeEarlier(s, t)
  {
    assert Pow10(2) == 100;
    var s3, t3 := Digits(s.nanos, 9) + suffix, Digits(t.nanos, 9) + suffix;
    var s2, t2 := Block(s.second, 2, DOT, s3), Block(t.second, 2, DOT, t3);
    NanosOrder(s.nanos, t.nanos, suffix);
    BlockOrder(s.second, t.second, 2, DOT, s3, t3);
    BlockOrder(s.minute, t.minute, 2, COLON, s2, t2);
    BlockOrder(s.hour, t.hour, 2, COLON, Block(s.minute, 2, COLON, s2), Block(t.minute, 2, COLON, t2));
  }

  /** Texts with the same suffix sort as the readings they show. */
  lemma TextOrder(x: Reading, y: Reading, suffix: seq<Byte>)
    requires Printable(x) && Printable(y)
    ensures LexLess(Text(x, suffix), Text(y, suffix)) <==> ReadingEarlier(x, y)
  {
    assert Pow10(2) == 100 && Pow10(4) == 10_000;
    var x3, y3 := ClockText(x.time, suffix), ClockText(y.time, suffix);
    var x2, y2 := Block(x.date.day, 2, TEE, x3), Block(y.date.day, 2, TEE, y3);
    ClockOrder(x.time, y.time, suffix);
    BlockOrder(x.date.day, y.date.day, 2, TEE, x3, y3);
    BlockOrder(x.date.month, y.date.month, 2, DASH, x2, y2);
    BlockOrder(x.date.year, y.date.year, 4, DASH, Block(x.date.month, 2, DASH, x2), Block(y.date.month, 2, DASH, y2));
  }

  lemma LocalIsPrintable(ns: Instant, off: Offset, l: Local)
    requires Splits(l, LocalNs(ns, off))
    ensures Printable(ReadingOf(l))
  {
    LocalNsWraps(ns, off);
    ReadingRoundTrip(l);
    YearHasFourDigits(l, LocalNs(ns, off));
  }

  /** For one offset, the texts of two instants sort as the instants do if and
  only if both lie on the same side of the i64 limit. */
  lemma TextsSortAsInstants(a: Instant, l: Local, b: Instant, m: Local, off: Offset)
    requires Splits(l, LocalNs(a, off)) && Splits(m, LocalNs(b, off)) && a < b
    ensures Printable(ReadingOf(l)) && Printable(ReadingOf(m))
    ensures LexLess(Text(ReadingOf(l), Suffix(off)), Text(ReadingOf(m), Suffix(off)))
            <==> (b < WrapsAt(off) || WrapsAt(off) <= a)
  {
    LocalIsPrintable(a, off, l);
    LocalIsPrintable(b, off, m);
    TextOrder(ReadingOf(l), ReadingOf(m), Suffix(off));
    ReadingOrder(l, LocalNs(a, off), m, LocalNs(b, off));
    LocalNsWraps(a, off);
    LocalNsWraps(b, off);
  }

  // ---------------------------------------------------------------- Reading the text back

  lemma BlockReads(v: nat, n: nat, sep: Byte, rest: seq<Byte>)
    requires v < Pow10(n)
    ensures Number(Block(v, n, sep, rest)[..n]) == v && Block(v, n, sep, rest)[n + 1..] == rest
  {
    DigitsRoundTrip(v, n);
    assert Block(v, n, sep, rest)[..n] == Digits(v, n);
  }

  function ParseTime(s: seq<Byte>): Time
    requires |s| >= 18
  {
    Time(Number(s[..2]), Number(s[3..][..2]), Number(s[6..][..2]), Number(s[9..][..9]))
  }

  function ParseOffset(s: seq<Byte>): int
    requires |s| == 1 || |s| == 6
  {
    if |s| == 1 then 0
    else
      var o := Number(s[1..][..2]) * 3600 + Number(s[4..][..2]) * 60;
      if s[0] == DASH then -o else o
  }

  /** The instant a timestamp of either width stands for. */
  function ParseInstant(s: seq<Byte>): int
    requires |s| == 30 || |s| == 35
  {
    var date := Date(Number(s[..4]), Number(s[5..][..2]), Number(s[8..][..2]));
    DaysFromCivil(date) * NANOS_PER_DAY + NsOfTime(ParseTime(s[11..])) - ParseOffset(s[29..]) * NANOS_PER_SEC
  }

  lemma ClockReads(t: Time, suffix: seq<Byte>)
    requires ValidTime(t)
    ensures ParseTime(ClockText(t, suffix)) == t
    ensures ClockText(t, suffix)[18..] == suffix
  {
    assert Pow10(2) == 100 && Pow10(9) == NANOS_PER_SEC;
    var s3 := Digits(t.nanos, 9) + suffix;
    var s2 := Block(t.second, 2, DOT, s3);
    var s1 := Block(t.minute, 2, COLON, s2);
    var s := ClockText(t, suffix);
    BlockReads(t.hour, 2, COLON, s1);
    BlockReads(t.minute, 2, COLON, s2);
    BlockReads(t.second, 2, DOT, s3);
    DigitsRoundTrip(t.nanos, 9);
    assert s[6..] == s[3..][3..] && s[9..] == s[6..][3..] && s[18..] == s[9..][9..];
    assert s3[..9] == Digits(t.nanos, 9) && s3[9..] == suffix;
  }

  lemma SuffixSlices(sign: Byte, hs: seq<Byte>, ms: seq<Byte>)
    requires |hs| == 2 && |ms| == 2
    ensures var s := [sign] + (hs + ([COLON] + ms));
            |s| == 6 && s[0] == sign && s[1..][..2] == hs && s[4..][..2] == ms
  {
  }

  lemma SuffixReads(sign: Byte, h: nat, m: nat)
    requires h < 100 && m < 100
    ensures var s := [sign] + Block(h, 2, COLON, Digits(m, 2));
            |s| == 6 && s[0] == sign && Number(s[1..][..2]) == h && Number(s[4..][..2]) == m
  {
    TwoDigits(h);
    TwoDigits(m);
    SuffixSlices(sign, Digits(h, 2), Digits(m, 2));
  }

  lemma TwoDigits(v: nat)
    requires v < 100
    ensures Number(Digits(v, 2)) == v
  {
    assert Pow10(2) == 100;
    DigitsRoundTrip(v, 2);
  }

  lemma WholeMinutes(a: nat)
    requires a <= 50_400
    ensures a / 3600 < 100 && a % 3600 / 60 < 100
    ensures a / 3600 * 3600 + a % 3600 / 60 * 60 == a / 60 * 60
  {
    var h, m, s := a / 3600, a % 3600 / 60, a % 60;
    assert a == 3600 * h + 60 * m + s;
    assert a / 60 == 60 * h + m;
  }

  lemma OffsetReads(off: Offset)
    ensures ParseOffset(Suffix(off)) == ShownOffset(off)
  {
    if off != 0 {
      var a := Abs(off);
      WholeMinutes(a);
      SuffixReads(if off < 0 then DASH else PLUS, a / 3600, a % 3600 / 60);
    }
  }

  lemma DateReads(d: Date, rest: seq<Byte>)
    requires ValidDate(d) && 0 <= d.year <= 9999
    ensures var s := Block(d.year, 4, DASH, Block(d.month, 2, DASH, Block(d.day, 2, TEE, rest)));
            && Date(Number(s[..4]), Number(s[5..][..2]), Number(s[8..][..2])) == d
            && s[11..] == rest
  {
    assert Pow10(2) == 100 && Pow10(4) == 10_000;
    var s2 := Block(d.day, 2, TEE, rest);
    var s1 := Block(d.month, 2, DASH, s2);
    var s := Block(d.year, 4, DASH, s1);
    BlockReads(d.year, 4, DASH, s1);
    BlockReads(d.month, 2, DASH, s2);
    BlockReads(d.day, 2, TEE, rest);
    assert s[8..] == s[5..][3..] && s[11..] == s[8..][3..];
  }

  lemma TextReads(r: Reading, off: Offset)
    requires Printable(r)
    ensures ParseInstant(Text(r, Suffix(off)))
            == DaysFromCivil(r.date) * NANOS_PER_DAY + NsOfTime(r.time) - ShownOffset(off) * NANOS_PER_SEC
  {
    var s := Text(r, Suffix(off));
    DateReads(r.date, ClockText(r.time, Suffix(off)));
    ClockReads(r.time, Suffix(off));
    OffsetReads(off);
    assert s[29..] == s[11..][18..];
  }

  lemma ShownOffsetUndoes(ns: Instant, off: Offset)
    ensures LocalNs(ns, off) - ShownOffset(off) * NANOS_PER_SEC == ns <==> off % 60 == 0 && ns < WrapsAt(off)
  {
    LocalNsWraps(ns, off);
    assert off % 60 == 0 <==> ShownOffset(off) == off;
  }

  lemma TextParses(r: Reading, l: Local, local: int, off: Offset)
    requires Printable(r) && Splits(l, local) && DaysFromCivil(r.date) == l.days && NsOfTime(r.time) == l.ns
    ensures ParseInstant(Text(r, Suffix(off))) == local - ShownOffset(off) * NANOS_PER_SEC
  {
    TextReads(r, off);
  }

  /** The text stands for the instant it was made from if and only if the offset
  is a whole number of minutes and the local time fits an i64. */
  lemma TextParsesBack(ns: Instant, off: Offset, l: Local)
    requires Splits(l, LocalNs(ns, off))
    ensures Printable(ReadingOf(l)) && |Text(ReadingOf(l), Suffix(off))| == if off == 0 then 30 else 35
    ensures ParseInstant(Text(ReadingOf(l), Suffix(off))) == ns
            <==> off % 60 == 0 && ns < WrapsAt(off)
  {
    LocalIsPrintable(ns, off, l);
    ReadingRoundTrip(l);
    TextParses(ReadingOf(l), l, LocalNs(ns, off), off);
    ShownOffsetUndoes(ns, off);
  }

  // ---------------------------------------------------------------- The shape of a text

  predicate Numerals(s: seq<Byte>, from: nat, to: nat)
    requires from <= to <= |s|
  {
    forall k | from <= k < to :: 48 <= s[k] <= 57
  }

  lemma BlockShape(v: nat, n: nat, sep: Byte, rest: seq<Byte>)
    ensures var s := Block(v, n, sep, rest);
            Numerals(s, 0, n) && s[n] == sep && s[n + 1..] == rest
  {
    DigitsAreNumerals(v, n);
  }

  /** hh:mm:ss.nnnnnnnnn */
  predicate ClockShaped(s: seq<Byte>)
    requires |s| >= 18
  {
    && Numerals(s, 0, 2) && s[2] == 58 && Numerals(s, 3, 5) && s[5] == 58
    && Numerals(s, 6, 8) && s[8] == 46 && Numerals(s, 9, 18)
  }

  lemma ClockShape(t: Time, suffix: seq<Byte>)
    requires ValidTime(t)
    ensures ClockShaped(ClockText(t, suffix)) && ClockText(t, suffix)[18..] == suffix
  {
    var s, s3 := ClockText(t, suffix), Digits(t.nanos, 9) + suffix;
    var s2 := Block(t.second, 2, DOT, s3);
    var s1 := Block(t.minute, 2, COLON, s2);
    BlockShape(t.hour, 2, COLON, s1);
    BlockShape(t.minute, 2, COLON, s2);
    BlockShape(t.second, 2, DOT, s3);
    DigitsAreNumerals(t.nanos, 9);
    assert forall k | 0 <= k < |s1| :: s[3 + k] == s[3..][k];
    assert forall k | 0 <= k < |s2| :: s[6 + k] == s1[3..][k];
    assert forall k | 0 <= k < |s3| :: s[9 + k] == s2[3..][k];
    assert s[18..] == s3[9..] == suffix;
  }

  /** yyyy-mm-ddT, then the time of day */
  predicate StampShaped(s: seq<Byte>)
    requires |s| >= 29
  {
    && Numerals(s, 0, 4) && s[4] == 45 && Numerals(s, 5, 7) && s[7] == 45
    && Numerals(s, 8, 10) && s[10] == 84 && ClockShaped(s[11..])
  }

  lemma TextShape(r: Reading, suffix: seq<Byte>)
    requires Printable(r)
    ensures StampShaped(Text(r, suffix)) && Text(r, suffix)[29..] == suffix
  {
    var s, s3 := Text(r, suffix), ClockText(r.time, suffix);
    var s2 := Block(r.date.day, 2, TEE, s3);
    var s1 := Block(r.date.month, 2, DASH, s2);
    BlockShape(r.date.year, 4, DASH, s1);
    BlockShape(r.date.month, 2, DASH, s2);
    BlockShape(r.date.day, 2, TEE, s3);
    ClockShape(r.time, suffix);
    assert forall k | 0 <= k < |s1| :: s[5 + k] == s[5..][k];
    assert forall k | 0 <= k < |s2| :: s[8 + k] == s1[3..][k];
    assert s[11..] == s2[3..] == s3;
    assert s[29..] == s3[18..];
  }

  /** Z, or a sign and hh:mm */
  predicate SuffixShaped(s: seq<Byte>, off: Offset) {
    if off == 0 then s == [90]
    else
      && |s| == 6 && s[0] == (if off < 0 then 45 else 43)
      && Numerals(s, 1, 3) && s[3] == 58 && Numerals(s, 4, 6)
  }

  lemma SuffixShape(off: Offset)
    ensures SuffixShaped(Suffix(off), off)
  {
    if off != 0 {
      var s, m := Suffix(off), Digits(Abs(off) % 3600 / 60, 2);
      var b := Block(Abs(off) / 3600, 2, COLON, m);
      BlockShape(Abs(off) / 3600, 2, COLON, m);
      DigitsAreNumerals(Abs(off) % 3600 / 60, 2);
      assert s[1..] == b && forall k | 0 <= k < 5 :: s[1 + k] == b[k];
      assert forall k | 0 <= k < 2 :: b[3 + k] == m[k];
    }
  }

  /** Every text is a date-time of section 5.6 of RFC 3339, byte by byte. */
  lemma EveryTextIsShaped(ns: Instant, off: Offset, l: Local)
    requires Splits(l, LocalNs(ns, off))
    ensures Printable(ReadingOf(l))
    ensures var s := Text(ReadingOf(l), Suffix(off));
            && StampShaped(s) && SuffixShaped(s[29..], off)
            && (forall k | 0 <= k < 29 :: 48 <= s[k] <= 57 || k in {4, 7, 10, 13, 16, 19})
            && s[4] == s[7] == 45 && s[10] == 84 && s[13] == s[16] == 58 && s[19] == 46
  {
    LocalIsPrintable(ns, off, l);
    TextShape(ReadingOf(l), Suffix(off));
    SuffixShape(off);
    var s := Text(ReadingOf(l), Suffix(off));
    assert forall k | 0 <= k < 18 :: s[11 + k] == s[11..][k];
  }

  lemma OneMoreDigit(v: nat, n: nat, s: seq<Byte>, c: Byte)
    requires Digits(v / 10, n) == s && c as int == 48 + v % 10
    ensures Digits(v, n + 1) == s + [c]
  {
  }

  lemma {:induction false} NoughtDigits(n: nat)
    ensures Digits(0, n) == seq(n, _ => 48)
  {
    if n > 0 { NoughtDigits(n - 1); }
  }

  lemma YearDigits()
    ensures Digits(1970, 4) == [49, 57, 55, 48]
  {
    OneMoreDigit(1, 0, [], 49);
    OneMoreDigit(19, 1, [49], 57);
    OneMoreDigit(197, 2, [49, 57], 55);
    OneMoreDigit(1970, 3, [49, 57, 55], 48);
  }

  lemma MidnightText(t: Time)
    requires t == Time(0, 0, 0, 0)
    ensures ClockText(t, [90]) == Ascii("00:00:00.000000000Z")
  {
    NoughtDigits(2);
    NoughtDigits(9);
  }

  lemma TextFrom(r: Reading, suffix: seq<Byte>, y: seq<Byte>, m: seq<Byte>, d: seq<Byte>, clock: seq<Byte>)
    requires Printable(r) && Digits(r.date.year, 4) == y && Digits(r.date.month, 2) == m
    requires Digits(r.date.day, 2) == d && ClockText(r.time, suffix) == clock
    ensures Text(r, suffix) == y + ([DASH] + (m + ([DASH] + (d + ([TEE] + clock)))))
  {
  }

  lemma TwoNumerals(v: nat, s: seq<Byte>)
    requires v < 10 && s == [48, 48 + v]
    ensures Digits(v, 2) == s
  {
    NoughtDigits(1);
    OneMoreDigit(v, 1, [48], 48 + v);
  }

  lemma NewYearText(r: Reading)
    requires r == Reading(Date(1970, 1, 1), Time(0, 0, 0, 0))
    ensures Printable(r) && Text(r, [90]) == Ascii("1970-01-01T00:00:00.000000000Z")
  {
    NewYearIsValid(r);
    NewYearParts(r);
    EpochJoins();
  }

  lemma NewYearParts(r: Reading)
    requires r == Reading(Date(1970, 1, 1), Time(0, 0, 0, 0)) && Printable(r)
    ensures var clock := Ascii("00:00:00.000000000Z");
            Text(r, [90]) == [49, 57, 55, 48] + ([DASH] + ([48, 49] + ([DASH] + ([48, 49] + ([TEE] + clock)))))
  {
    MidnightText(r.time);
    TwoNumerals(1, [48, 49]);
    YearDigits();
    TextFrom(r, [90], [49, 57, 55, 48], [48, 49], [48, 49], Ascii("00:00:00.000000000Z"));
  }

  lemma EpochJoins()
    ensures var clock := Ascii("00:00:00.000000000Z");
            [49, 57, 55, 48] + ([DASH] + ([48, 49] + ([DASH] + ([48, 49] + ([TEE] + clock)))))
            == Ascii("1970-01-01T00:00:00.000000000Z")
  {
  }

  lemma NewYearIsValid(r: Reading)
    requires r == Reading(Date(1970, 1, 1), Time(0, 0, 0, 0))
    ensures Printable(r)
  {
  }

  /** The text of the epoch, letter by letter. */
  lemma EpochText(l: Local)
    requires Splits(l, LocalNs(0, 0))
    ensures Printable(ReadingOf(l))
    ensures Text(ReadingOf(l), Suffix(0)) == Ascii("1970-01-01T00:00:00.000000000Z")
  {
    LocalNsWraps(0, 0);
    SplitIsUnique(l, Local(0, 0), LocalNs(0, 0));
    EpochIsDayZero();
    NewYearText(ReadingOf(l));
  }

  // ---------------------------------------------------------------- Failing inputs

  /** What a text reads back as, for every offset. */
  lemma TextReadsBackAs(ns: Instant, off: Offset, l: Local)
    requires Splits(l, LocalNs(ns, off))
    ensures Printable(ReadingOf(l))
    ensures ParseInstant(Text(ReadingOf(l), Suffix(off))) == LocalNs(ns, off) - ShownOffset(off) * NANOS_PER_SEC
  {
    LocalIsPrintable(ns, off, l);
    ReadingRoundTrip(l);
    TextParses(ReadingOf(l), l, LocalNs(ns, off), off);
  }

  lemma OddOffsetShown(off: Offset)
    requires off == 90
    ensures LocalNs(0, off) == 90 * NANOS_PER_SEC && ShownOffset(off) == 60
    ensures Splits(Local(0, 90 * NANOS_PER_SEC), LocalNs(0, off))
  {
    LocalNsWraps(0, off);
  }

  /** An offset of 90 seconds at the epoch: the text shows one minute, and reads back
  as thirty seconds past the epoch. */
  lemma OddOffsetMisreads(off: Offset, l: Local)
    requires off == 90 && Splits(l, LocalNs(0, off))
    ensures Printable(ReadingOf(l))
    ensures ParseInstant(Text(ReadingOf(l), Suffix(off))) == 30 * NANOS_PER_SEC
  {
    OddOffsetShown(off);
    TextReadsBackAs(0, off, l);
  }

  /** The last instant whose local time fits an i64 and the one after it, at offset
  zero: the later text sorts first. */
  lemma LimitMissorts()
    ensures var l, m := Local(106751, 85636854775807), Local(-106752, 763145224192);
            && Splits(l, LocalNs(0x7fff_ffff_ffff_ffff, 0)) && Splits(m, LocalNs(0x8000_0000_0000_0000, 0))
            && Printable(ReadingOf(l)) && Printable(ReadingOf(m))
            && LexLess(Text(ReadingOf(m), Suffix(0)), Text(ReadingOf(l), Suffix(0)))
  {
    var l, m := Local(106751, 85636854775807), Local(-106752, 763145224192);
    LocalNsWraps(0x7fff_ffff_ffff_ffff, 0);
    LocalNsWraps(0x8000_0000_0000_0000, 0);
    LocalIsPrintable(0x7fff_ffff_ffff_ffff, 0, l);
    LocalIsPrintable(0x8000_0000_0000_0000, 0, m);
    ReadingOrder(m, -0x8000_0000_0000_0000, l, I64_MAX);
    TextOrder(ReadingOf(m), ReadingOf(l), Suffix(0));
  }

  // ---------------------------------------------------------------- The formatter

  /** `push_u32!`: `d` zero-padded digits, written from the last one back. */
  method PushDigits(buf: array<Byte>, pos: nat, v: nat, d: nat) returns (next: nat)
    requires 0 < d && pos + d <= buf.Length
    modifies buf
    ensures next == pos + d && buf[..next] == old(buf[..pos]) + Digits(v, d)
  {
    var i, remaining := pos + d - 1, v;
    while true
      invariant pos <= i < pos + d
      invariant forall k | 0 <= k < pos :: buf[k] == old(buf[k])
      invariant forall k | i < k < pos + d :: buf[k] == Digits(v, d)[k - pos]
      invariant Digits(remaining, i - pos + 1) == Digits(v, d)[..i - pos + 1]
      decreases i
    {
      buf[i] := ZERO + remaining % 10;
      LastDigit(remaining, i - pos, Digits(v, d));
      if i == pos { break; }
      remaining := remaining / 10;
      i := i - 1;
    }
    next := pos + d;
    assert buf[..next] == old(buf[..pos]) + Digits(v, d);
  }

  lemma LastDigit(v: nat, n: nat, all: seq<Byte>)
    requires n < |all| && Digits(v, n + 1) == all[..n + 1]
    ensures all[n] == ZERO + v % 10 && Digits(v / 10, n) == all[..n]
  {
    assert all[..n + 1][n] == all[n] && all[..n + 1][..n] == all[..n];
    assert Digits(v, n + 1)[..n] == Digits(v / 10, n);
  }

  /** A number and the separator after it. */
  method PushField(buf: array<Byte>, pos: nat, v: nat, d: nat, sep: Byte, ghost rest: seq<Byte>) returns (next: nat)
    requires 0 < d && pos + d < buf.Length
    modifies buf
    ensures next == pos + d + 1 && buf[..next] + rest == old(buf[..pos]) + Block(v, d, sep, rest)
  {
    next := PushDigits(buf, pos, v, d);
    ghost var before := buf[..next];
    buf[next] := sep;
    next := next + 1;
    assert buf[..next] == before + [sep];
    Assoc(before, [sep], rest);
    Assoc(old(buf[..pos]), Digits(v, d), [sep] + rest);
  }

  method PushSuffix(buf: array<Byte>, pos: nat, off: Offset) returns (next: nat)
    requires pos + 6 <= buf.Length
    modifies buf
    ensures next == pos + |Suffix(off)| && buf[..next] == old(buf[..pos]) + Suffix(off)
  {
    ghost var before := buf[..pos];
    if off == 0 {
      buf[pos] := ZULU;
      next := pos + 1;
      assert buf[..next] == before + [ZULU];
    } else {
      var sign := if off < 0 then DASH else PLUS;
      var a := Abs(off);
      ghost var minutes := Digits(a % 3600 / 60, 2);
      buf[pos] := sign;
      next := pos + 1;
      assert buf[..next] == before + [sign];
      next := PushField(buf, next, a / 3600, 2, COLON, minutes);
      next := PushDigits(buf, next, a % 3600 / 60, 2);
      Assoc(before, [sign], Block(a / 3600, 2, COLON, minutes));
    }
  }

  method PushClock(buf: array<Byte>, pos: nat, t: Time, off: Offset) returns (next: nat)
    requires ValidTime(t) && pos + 24 <= buf.Length
    modifies buf
    ensures next == pos + 18 + |Suffix(off)| && buf[..next] == old(buf[..pos]) + ClockText(t, Suffix(off))
  {
    ghost var s3 := Digits(t.nanos, 9) + Suffix(off);
    ghost var s2 := Block(t.second, 2, DOT, s3);
    next := PushField(buf, pos, t.hour, 2, COLON, Block(t.minute, 2, COLON, s2));
    next := PushField(buf, next, t.minute, 2, COLON, s2);
    next := PushField(buf, next, t.second, 2, DOT, s3);
    ghost var before := buf[..next];
    next := PushDigits(buf, next, t.nanos, 9);
    next := PushSuffix(buf, next, off);
    Assoc(before, Digits(t.nanos, 9), Suffix(off));
  }

  /** The text, in a stack buffer of 64 bytes. */
  method PushReading(buf: array<Byte>, r: Reading, off: Offset) returns (next: nat)
    requires Printable(r) && buf.Length == 64
    modifies buf
    ensures next <= 64 && buf[..next] == Text(r, Suffix(off))
  {
    ghost var s3 := ClockText(r.time, Suffix(off));
    ghost var s2 := Block(r.date.day, 2, TEE, s3);
    next := PushField(buf, 0, r.date.year, 4, DASH, Block(r.date.month, 2, DASH, s2));
    next := PushField(buf, next, r.date.month, 2, DASH, s2);
    next := PushField(buf, next, r.date.day, 2, TEE, s3);
    next := PushClock(buf, next, r.time, off);
  }

  /** `format_iso8601`: appends the text of the instant's local reading. */
  method FormatIso8601(ns: Instant, off: Offset, buf: seq<Byte>) returns (out: seq<Byte>)
    ensures forall l :: Splits(l, LocalNs(ns, off)) ==>
              Printable(ReadingOf(l)) && out == buf + Text(ReadingOf(l), Suffix(off))
  {
    var local := LocalNs(ns, off);
    var l := SplitLocal(local);
    LocalIsPrintable(ns, off, l);
    var tsBuf := new Byte[64](_ => 0);
    var pos := PushReading(tsBuf, ReadingOf(l), off);
    out := buf + tsBuf[..pos];
    forall k | Splits(k, local) ensures k == l { SplitIsUnique(k, l, local); }
  }
}
