/** Format specs: what follows the colon of a placeholder.

The repository has three hand-written readers of the same little language: one
that runs at compile time inside a longer string (`parse_spec_const`), one that
runs on a body alone (`validate_spec_rt`), and one that trusts its input and
extracts the fields (`parse_spec_body`). Each is a method with its loops here,
proved against a function on the remaining bytes; the functions are then shown
to agree with each other and with a printer of well-formed specs. */
module FormatSpecs {
  import opened Layout
  import opened Wire
  import Decimal

  const OPEN: Byte := 123
  const CLOSE: Byte := 125
  const COLON: Byte := 58
  const DOT: Byte := 46
  const HASH: Byte := 35
  const ZERO: Byte := 48

  predicate IsDigit(c: Byte) { 48 <= c <= 57 }

  /** `<`, `>` and `^`. */
  predicate IsAlign(c: Byte) { c == 60 || c == 62 || c == 94 }

  /** Anything but `+`, `-`, `0` and `#`. */
  predicate IsValidFill(c: Byte) { c != 43 && c != 45 && c != 48 && c != 35 }

  /** `?`, `x`, `X`, `o`, `b`, `e`, `E`. */
  predicate IsType(c: Byte) { c == 63 || c == 120 || c == 88 || c == 111 || c == 98 || c == 101 || c == 69 }

  predicate IsSign(c: Byte) { c == 43 || c == 45 }

  datatype Error =
    | Unclosed | Unmatched | Positional
    | InvalidFill | NoPrecision | SignFlag | BadType | Trailing
    | Unnamed | UnknownField | DuplicateMessage | SpecNotAccepted

  datatype Result<T> = Ok(value: T) | Err(error: Error)

  // ---------------------------------------------------------------- The language

  /** The components of a spec, as written. */
  datatype Parts = Parts(
    fill: Option<Byte>, align: Option<Byte>, zero: bool,
    width: seq<Byte>, precision: Option<seq<Byte>>, alt: bool, kind: Option<Byte>)

  function Opt(o: Option<Byte>): seq<Byte> { if o.Some? then [o.value] else [] }

  function Flag(b: bool, c: Byte): seq<Byte> { if b then [c] else [] }

  predicate AllDigits(s: seq<Byte>) { forall i | 0 <= i < |s| :: IsDigit(s[i]) }

  /** The printer, from the back: `#`, `.` and `0` in their places. */
  function PrintTail(p: Parts): seq<Byte> { Flag(p.alt, 35) + Opt(p.kind) }

  function PrintPrecision(p: Parts): seq<Byte> {
    (if p.precision.Some? then [46] + p.precision.value else []) + PrintTail(p)
  }

  function PrintNumbers(p: Parts): seq<Byte> { Flag(p.zero, 48) + (p.width + PrintPrecision(p)) }

  function Print(p: Parts): seq<Byte> { Opt(p.fill) + (Opt(p.align) + PrintNumbers(p)) }

  predicate Numerals(s: seq<Byte>) { forall i | 0 <= i < |s| :: 48 <= s[i] <= 57 }

  /** The components are what the grammar says: any fill but `+`, `-`, `0` and `#`,
  the alignments `<`, `>` and `^`, the types `?`, `x`, `X`, `o`, `b`, `e` and `E`. */
  predicate WellFormed(p: Parts) {
    && (p.fill.Some? ==> p.align.Some? && p.fill.value !in [43, 45, 48, 35])
    && (p.align.Some? ==> p.align.value in [60, 62, 94])
    && Numerals(p.width)
    && (p.precision.Some? ==> p.precision.value != [] && Numerals(p.precision.value))
    && (p.kind.Some? ==> p.kind.value in [63, 120, 88, 111, 98, 101, 69])
  }

  /** Written the way the reader splits it: a width with a leading zero and no
  zero flag would be read as the flag. */
  predicate Canonical(p: Parts) {
    WellFormed(p) && (!p.zero && p.width != [] ==> p.width[0] != 48)
  }

  // ---------------------------------------------------------------- Scanning

  function Starts(s: seq<Byte>, c: Byte): bool { s != [] && s[0] == c }

  function SkipIf(s: seq<Byte>, b: bool): seq<Byte> { if b && s != [] then s[1..] else s }

  /** Length of the leading run of digits. */
  function DigitRun(s: seq<Byte>): (n: nat)
    ensures n <= |s|
  {
    if s == [] || !IsDigit(s[0]) then 0 else 1 + DigitRun(s[1..])
  }

  lemma {:induction false} DigitRunIs(s: seq<Byte>)
    ensures AllDigits(s[..DigitRun(s)]) && (DigitRun(s) < |s| ==> !IsDigit(s[DigitRun(s)]))
  {
    if s != [] && IsDigit(s[0]) {
      DigitRunIs(s[1..]);
      var n := DigitRun(s);
      assert s[..n] == [s[0]] + s[1..][..n - 1];
    }
  }

  datatype Lead = Lead(fill: Option<Byte>, align: Option<Byte>, rest: seq<Byte>)

  /** Fill and alignment, with the two-byte lookahead. */
  function ScanLead(s: seq<Byte>): Lead {
    if |s| > 1 && IsAlign(s[1]) then Lead(Some(s[0]), Some(s[1]), s[2..])
    else if s != [] && IsAlign(s[0]) then Lead(None, Some(s[0]), s[1..])
    else Lead(None, None, s)
  }

  datatype Tail = Tail(alt: bool, kind: Option<Byte>, rest: seq<Byte>)

  function ScanTail(s: seq<Byte>): Tail {
    var alt := Starts(s, HASH);
    var s1 := SkipIf(s, alt);
    if s1 != [] && IsType(s1[0]) then Tail(alt, Some(s1[0]), s1[1..]) else Tail(alt, None, s1)
  }

  datatype Digits = Digits(value: seq<Byte>, rest: seq<Byte>)

  function ScanDigits(s: seq<Byte>): Digits { Digits(s[..DigitRun(s)], s[DigitRun(s)..]) }

  datatype Precision = Precision(value: Option<seq<Byte>>, rest: seq<Byte>)

  function ScanPrecision(s: seq<Byte>): Precision {
    if Starts(s, DOT) then
      var d := ScanDigits(s[1..]);
      Precision(Some(d.value), d.rest)
    else Precision(None, s)
  }

  datatype Scanned = Scanned(parts: Parts, rest: seq<Byte>)

  /** Every component in turn, each taken if it is there. */
  function Scan(s: seq<Byte>): Scanned {
    var lead := ScanLead(s);
    var zero := Starts(lead.rest, ZERO);
    var width := ScanDigits(SkipIf(lead.rest, zero));
    var precision := ScanPrecision(width.rest);
    var tail := ScanTail(precision.rest);
    Scanned(Parts(lead.fill, lead.align, zero, width.value, precision.value, tail.alt, tail.kind), tail.rest)
  }

  /** What stops a scan that must go on to a closing brace. */
  function Complaint(p: Parts, rest: seq<Byte>): Option<Error> {
    if p.fill.Some? && !IsValidFill(p.fill.value) then Some(InvalidFill)
    else if p.precision == Some([]) then Some(NoPrecision)
    else if rest != [] && p.kind.None? then Some(if IsSign(rest[0]) then SignFlag else BadType)
    else None
  }

  /** `validate_spec_rt`. */
  function CheckBody(s: seq<Byte>): Result<()> {
    var sc := Scan(s);
    var c := Complaint(sc.parts, sc.rest);
    if c.Some? then Err(c.value) else if sc.rest != [] then Err(Trailing) else Ok(())
  }

  /** `parse_spec_const` on the bytes after the colon: the bytes it leaves. */
  function ReadInline(s: seq<Byte>): Result<seq<Byte>> {
    if s == [] then Err(Unclosed)
    else if s[0] == CLOSE then Ok(s)
    else
      var sc := Scan(s);
      var c := Complaint(sc.parts, if Starts(sc.rest, CLOSE) then [] else sc.rest);
      if c.Some? then Err(c.value) else Ok(sc.rest)
  }

  /** The caller's check for the closing brace: what comes after it. */
  function Close(r: Result<seq<Byte>>): Result<seq<Byte>> {
    if r.Err? then r
    else if r.value == [] then Err(Unclosed)
    else if r.value[0] != CLOSE then Err(Trailing)
    else Ok(r.value[1..])
  }

  function CheckInline(s: seq<Byte>): Result<seq<Byte>> { Close(ReadInline(s)) }

  // ---------------------------------------------------------------- The readers agree

  lemma {:induction false} DigitRunStops(s: seq<Byte>, t: seq<Byte>)
    requires t == [] || !IsDigit(t[0])
    ensures DigitRun(s + t) == DigitRun(s)
    decreases |s|
  {
    if s == [] {
      assert s + t == t;
    } else if IsDigit(s[0]) {
      assert (s + t)[1..] == s[1..] + t;
      DigitRunStops(s[1..], t);
    }
  }

  lemma DigitsStop(s: seq<Byte>, t: seq<Byte>)
    requires t == [] || !IsDigit(t[0])
    ensures ScanDigits(s + t) == ScanDigits(s).(rest := ScanDigits(s).rest + t)
  {
    DigitRunStops(s, t);
    var n := DigitRun(s);
    assert (s + t)[..n] == s[..n] && (s + t)[n..] == s[n..] + t;
  }

  /** Text that starts with a closing brace. */
  predicate Closed(t: seq<Byte>) { Starts(t, CLOSE) }

  lemma StartsStops(s: seq<Byte>, t: seq<Byte>, c: Byte)
    requires Closed(t) && c != CLOSE
    ensures Starts(s + t, c) == Starts(s, c)
    ensures SkipIf(s + t, Starts(s + t, c)) == SkipIf(s, Starts(s, c)) + t
  {
    if s == [] { assert s + t == t; } else { assert (s + t)[1..] == s[1..] + t; }
  }

  lemma LeadStops(s: seq<Byte>, t: seq<Byte>)
    requires Closed(t) && s != [] && s[0] != CLOSE
    ensures ScanLead(s + t) == ScanLead(s).(rest := ScanLead(s).rest + t)
  {
    assert (s + t)[1..] == s[1..] + t;
    if |s| > 1 { assert (s + t)[2..] == s[2..] + t; }
  }

  lemma PrecisionStops(s: seq<Byte>, t: seq<Byte>)
    requires Closed(t)
    ensures ScanPrecision(s + t) == ScanPrecision(s).(rest := ScanPrecision(s).rest + t)
  {
    StartsStops(s, t, DOT);
    if Starts(s, DOT) { DigitsStop(s[1..], t); }
  }

  lemma TailStops(s: seq<Byte>, t: seq<Byte>)
    requires Closed(t)
    ensures ScanTail(s + t) == ScanTail(s).(rest := ScanTail(s).rest + t)
  {
    StartsStops(s, t, HASH);
    var s1 := SkipIf(s, Starts(s, HASH));
    if s1 == [] { assert s1 + t == t; } else { assert (s1 + t)[1..] == s1[1..] + t; }
  }

  /** A scan never looks past a closing brace. */
  lemma ScanStops(s: seq<Byte>, t: seq<Byte>)
    requires Closed(t) && s != [] && s[0] != CLOSE
    ensures Scan(s + t) == Scan(s).(rest := Scan(s).rest + t)
  {
    var lead := ScanLead(s);
    LeadStops(s, t);
    StartsStops(lead.rest, t, ZERO);
    var s1 := SkipIf(lead.rest, Starts(lead.rest, ZERO));
    DigitsStop(s1, t);
    var s2 := ScanDigits(s1).rest;
    PrecisionStops(s2, t);
    TailStops(ScanPrecision(s2).rest, t);
  }

  /** The inline reader's answer, from the body reader's. */
  function Inline(r: Result<()>, rest: seq<Byte>): Result<seq<Byte>> {
    match r case Ok(_) => Ok(rest) case Err(e) => Err(e)
  }

  lemma ClosedByBrace(p: Parts, rest: seq<Byte>, t: seq<Byte>)
    requires CLOSE !in rest
    ensures var all := rest + ([CLOSE] + t);
            var c := Complaint(p, if Starts(all, CLOSE) then [] else all);
            Close(if c.Some? then Err(c.value) else Ok(all))
            == (var d := Complaint(p, rest);
                if d.Some? then Err(d.value) else if rest != [] then Err(Trailing) else Ok(t))
  {
    var all := rest + ([CLOSE] + t);
    if rest == [] { assert all == [CLOSE] + t; } else { assert all[0] == rest[0]; }
  }

  /** The compile-time reader, standing in front of a body without closing brace,
  answers exactly as the run-time reader does on the body alone, error for
  error, and stops right behind the brace. */
  lemma ReadersAgree(body: seq<Byte>, t: seq<Byte>)
    requires CLOSE !in body
    ensures CheckInline(body + ([CLOSE] + t)) == Inline(CheckBody(body), t)
  {
    if body == [] {
      assert body + ([CLOSE] + t) == [CLOSE] + t;
    } else {
      var sc := Scan(body);
      ScanStops(body, [CLOSE] + t);
      ScanKeeps(body);
      ClosedByBrace(sc.parts, sc.rest, t);
    }
  }

  /** Without a closing brace the compile-time reader never succeeds. */
  lemma NoBraceNoSpec(s: seq<Byte>)
    requires CLOSE !in s
    ensures CheckInline(s).Err?
  {
    if s != [] { ScanKeeps(s); }
  }

  // ---------------------------------------------------------------- Printing

  lemma PrintTailBack(p: Parts, s: seq<Byte>, rest: seq<Byte>)
    requires ScanTail(s) == Tail(p.alt, p.kind, rest)
    ensures PrintTail(p) + rest == s
  {
    Assoc(Flag(p.alt, HASH), Opt(p.kind), rest);
    var s1 := SkipIf(s, Starts(s, HASH));
    if p.kind.Some? { assert s1 == [s1[0]] + s1[1..]; } else { assert [] + rest == rest; }
    assert Flag(p.alt, 35) + s1 == s;
  }

  lemma PrintPrecisionBack(p: Parts, s: seq<Byte>, s': seq<Byte>, rest: seq<Byte>)
    requires ScanPrecision(s) == Precision(p.precision, s') && PrintTail(p) + rest == s'
    ensures PrintPrecision(p) + rest == s
  {
    var dot := if p.precision.Some? then [DOT] + p.precision.value else [];
    Assoc(dot, PrintTail(p), rest);
    assert dot + s' == s;
  }

  lemma PrintNumbersBack(p: Parts, s: seq<Byte>, s': seq<Byte>, rest: seq<Byte>)
    requires Starts(s, ZERO) == p.zero && ScanDigits(SkipIf(s, p.zero)) == Digits(p.width, s')
    requires PrintPrecision(p) + rest == s'
    ensures PrintNumbers(p) + rest == s
  {
    Assoc(Flag(p.zero, ZERO), p.width + PrintPrecision(p), rest);
    Assoc(p.width, PrintPrecision(p), rest);
    assert p.width + s' == SkipIf(s, p.zero);
  }

  lemma PrintBack(p: Parts, s: seq<Byte>, s': seq<Byte>, rest: seq<Byte>)
    requires ScanLead(s) == Lead(p.fill, p.align, s') && PrintNumbers(p) + rest == s'
    ensures Print(p) + rest == s
  {
    Assoc(Opt(p.fill), Opt(p.align) + PrintNumbers(p), rest);
    Assoc(Opt(p.align), PrintNumbers(p), rest);
    assert Opt(p.fill) + (Opt(p.align) + s') == s;
  }

  /** A scan loses nothing: printing the parts gives back what was consumed. */
  lemma PrintInvertsScan(s: seq<Byte>)
    ensures Print(Scan(s).parts) + Scan(s).rest == s
  {
    var p, rest := Scan(s).parts, Scan(s).rest;
    var s1 := ScanLead(s).rest;
    var s2 := ScanDigits(SkipIf(s1, p.zero)).rest;
    var s3 := ScanPrecision(s2).rest;
    PrintTailBack(p, s3, rest);
    PrintPrecisionBack(p, s2, s3, rest);
    PrintNumbersBack(p, s1, s2, rest);
    PrintBack(p, s, s1, rest);
  }

  /** What a scan leaves is the end of its input. */
  lemma ScanKeeps(s: seq<Byte>)
    ensures forall c | c in Scan(s).rest :: c in s
  {
    PrintInvertsScan(s);
    var a, b := Print(Scan(s).parts), Scan(s).rest;
    assert forall c | c in b :: c in a + b;
  }

  lemma ScanIsCanonical(s: seq<Byte>)
    ensures CheckBody(s).Ok? ==> Canonical(Scan(s).parts)
  {
    ScanHasDigits(s);
    WidthNotZero(ScanLead(s).rest);
  }

  lemma WidthNotZero(s: seq<Byte>)
    ensures var zero := Starts(s, ZERO);
            var width := ScanDigits(SkipIf(s, zero)).value;
            !zero && width != [] ==> width[0] != ZERO
  {
  }

  lemma ScanTailOfPrint(p: Parts)
    requires WellFormed(p)
    ensures ScanTail(PrintTail(p)) == Tail(p.alt, p.kind, [])
  {
    var s := PrintTail(p);
    if p.alt { assert s[1..] == Opt(p.kind); } else { assert s == Opt(p.kind); }
  }

  lemma ScanDigitsOfPrint(d: seq<Byte>, rest: seq<Byte>)
    requires AllDigits(d) && (rest == [] || !IsDigit(rest[0]))
    ensures ScanDigits(d + rest) == Digits(d, rest)
  {
    DigitRunStops(d, rest);
    AllDigitsRun(d);
    assert (d + rest)[..|d|] == d && (d + rest)[|d|..] == rest;
  }

  lemma AllDigitsRun(d: seq<Byte>)
    requires AllDigits(d)
    ensures DigitRun(d) == |d|
  {
  }

  lemma ScanPrecisionOfPrint(p: Parts)
    requires WellFormed(p)
    ensures ScanPrecision(PrintPrecision(p)) == Precision(p.precision, PrintTail(p))
  {
    var s := PrintPrecision(p);
    if p.precision.Some? {
      assert s[1..] == p.precision.value + PrintTail(p);
      ScanDigitsOfPrint(p.precision.value, PrintTail(p));
    } else {
      assert s == PrintTail(p);
    }
  }

  lemma PrecisionIsNoDigit(p: Parts)
    requires WellFormed(p)
    ensures PrintPrecision(p) != [] ==> !IsDigit(PrintPrecision(p)[0])
  {
  }

  lemma ScanNumbersOfPrint(p: Parts)
    requires Canonical(p)
    ensures Starts(PrintNumbers(p), ZERO) == p.zero
    ensures ScanDigits(SkipIf(PrintNumbers(p), p.zero)) == Digits(p.width, PrintPrecision(p))
  {
    var s, more := PrintNumbers(p), p.width + PrintPrecision(p);
    PrecisionIsNoDigit(p);
    ScanDigitsOfPrint(p.width, PrintPrecision(p));
    if p.zero {
      assert s[1..] == more;
    } else {
      assert s == more;
      assert p.width == [] ==> more == PrintPrecision(p);
    }
  }

  lemma NumbersHaveNoAlign(p: Parts)
    requires WellFormed(p)
    ensures forall c | c in PrintNumbers(p) :: !IsAlign(c) && c != CLOSE
  {
    PrecisionHasNoAlign(p);
    assert forall c | c in p.width :: IsDigit(c);
    assert forall c | c in p.width + PrintPrecision(p) :: !IsAlign(c) && c != CLOSE;
  }

  lemma PrecisionHasNoAlign(p: Parts)
    requires WellFormed(p)
    ensures forall c | c in PrintPrecision(p) :: !IsAlign(c) && c != CLOSE
  {
    assert forall c | c in PrintTail(p) :: !IsAlign(c) && c != CLOSE;
    assert p.precision.Some? ==> forall c | c in p.precision.value :: IsDigit(c);
  }

  lemma ScanLeadOfPrint(p: Parts)
    requires WellFormed(p)
    ensures ScanLead(Print(p)) == Lead(p.fill, p.align, PrintNumbers(p))
  {
    NumbersHaveNoAlign(p);
    LeadOf(p.fill, p.align, PrintNumbers(p));
  }

  lemma LeadOf(fill: Option<Byte>, align: Option<Byte>, n: seq<Byte>)
    requires (fill.Some? ==> align.Some?) && (align.Some? ==> IsAlign(align.value))
    requires forall c | c in n :: !IsAlign(c)
    ensures ScanLead(Opt(fill) + (Opt(align) + n)) == Lead(fill, align, n)
  {
    var s := Opt(fill) + (Opt(align) + n);
    if fill.Some? {
      assert s[2..] == n && s[1] == align.value;
    } else if align.Some? {
      assert s[1..] == n;
      assert |n| > 0 ==> s[1] == n[0];
    } else {
      assert s == n;
    }
  }

  /** Scanning inverts printing. */
  lemma ScanInvertsPrint(p: Parts)
    requires Canonical(p)
    ensures Scan(Print(p)) == Scanned(p, [])
  {
    ScanLeadOfPrint(p);
    ScanNumbersOfPrint(p);
    ScanPrecisionOfPrint(p);
    ScanTailOfPrint(p);
  }

  /** The language: a body is accepted exactly when it is the printed form of
  some canonical spec, and then of only one. */
  lemma AcceptedIffPrinted(s: seq<Byte>)
    ensures CheckBody(s).Ok? <==> exists p :: Canonical(p) && Print(p) == s
    ensures forall p | Canonical(p) && Print(p) == s :: p == Scan(s).parts
  {
    forall p | Canonical(p) && Print(p) == s ensures CheckBody(s).Ok? && p == Scan(s).parts {
      ScanInvertsPrint(p);
    }
    if CheckBody(s).Ok? {
      ScanIsCanonical(s);
      PrintInvertsScan(s);
      assert Print(Scan(s).parts) == s;
    }
  }

  // ---------------------------------------------------------------- Faults

  /** What a scan leaves over continues none of the parts before it. */
  lemma ScanIsGreedy(s: seq<Byte>)
    requires Scan(s).rest != [] && Scan(s).parts.kind.None?
    ensures var p, c := Scan(s).parts, Scan(s).rest[0];
            && c !in [63, 120, 88, 111, 98, 101, 69]
            && (!p.alt ==> c != 35)
            && (!p.alt && p.precision.None? ==> c != 46)
            && (!p.alt && p.precision.Some? ==> !(48 <= c <= 57))
            && (!p.alt && p.precision.None? ==> !(48 <= c <= 57))
  {
    var s1 := ScanLead(s).rest;
    var s2 := SkipIf(s1, Starts(s1, ZERO));
    DigitRunIs(s2);
    var s3 := ScanDigits(s2).rest;
    if Starts(s3, DOT) { DigitRunIs(s3[1..]); }
    TailIsGreedy(ScanPrecision(s3).rest);
  }

  lemma TailIsGreedy(s: seq<Byte>)
    ensures var tail := ScanTail(s);
            tail.rest != [] && tail.kind.None? ==>
              && tail.rest[0] !in [63, 120, 88, 111, 98, 101, 69]
              && (!tail.alt ==> tail.rest == s && s[0] != 35)
  {
  }

  /** The verdict on any body, by the parts it is made of: the first fault of a bad
  fill, a point without digits, a sign, another letter, or something behind the
  type, and no fault otherwise. */
  lemma FirstFault(s: seq<Byte>)
    ensures var p, rest := Scan(s).parts, Scan(s).rest;
            && s == Print(p) + rest
            && CheckBody(s) == if p.fill.Some? && p.fill.value in [43, 45, 48, 35] then Err(InvalidFill)
                               else if p.precision == Some([]) then Err(NoPrecision)
                               else if rest == [] then Ok(())
                               else if p.kind.Some? then Err(Trailing)
                               else if rest[0] in [43, 45] then Err(SignFlag)
                               else Err(BadType)
  {
    PrintInvertsScan(s);
    ComplaintIs(Scan(s).parts, Scan(s).rest);
  }

  lemma ComplaintIs(p: Parts, rest: seq<Byte>)
    ensures Complaint(p, rest)
            == if p.fill.Some? && p.fill.value in [43, 45, 48, 35] then Some(InvalidFill)
               else if p.precision == Some([]) then Some(NoPrecision)
               else if rest == [] || p.kind.Some? then None
               else if rest[0] in [43, 45] then Some(SignFlag)
               else Some(BadType)
  {
  }

  /** Without a closing brace the compile-time reader reports the fault of the body
  and, if it has none, the missing brace. */
  lemma UnclosedBody(s: seq<Byte>)
    requires CLOSE !in s
    ensures CheckInline(s) == Err(if CheckBody(s).Err? then CheckBody(s).error else Unclosed)
  {
    if s != [] { ScanKeeps(s); }
  }

  // ---------------------------------------------------------------- Meaning

  datatype Align = NoAlign | Left | Right | Center

  datatype FormatSpec = FormatSpec(
    fill: Byte, align: Align, zeroFill: bool, width: Option<nat>, precision: Option<nat>,
    alternate: bool, typeChar: Option<Byte>)

  const DEFAULT_SPEC := FormatSpec(32, NoAlign, false, None, None, false, None)

  function AlignOf(c: Byte): Align {
    if c == 60 then Left else if c == 62 then Right else if c == 94 then Center else NoAlign
  }

  /** What each field of a spec is, byte by byte. */
  predicate SpecIs(fs: FormatSpec, p: Parts) {
    && fs.fill == (if p.fill.Some? then p.fill.value else 32)
    && (fs.align.Left? <==> p.align == Some(60)) && (fs.align.Right? <==> p.align == Some(62))
    && (fs.align.Center? <==> p.align == Some(94))
    && fs.zeroFill == p.zero && fs.alternate == p.alt && fs.typeChar == p.kind
    && (fs.width.None? <==> p.width == [])
    && (fs.width.Some? ==> IsHeld(fs.width.value, Decimal.Number(p.width)))
    && (fs.precision.None? <==> p.precision.None?)
    && (fs.precision.Some? ==> IsHeld(fs.precision.value, Decimal.Number(p.precision.value)))
  }

  /** A number, held at the largest u16. */
  predicate IsHeld(n: nat, d: int) { n as int == if d <= 65535 then d else 65535 }

  lemma MeaningIs(p: Parts)
    requires Canonical(p)
    ensures DigitParts(p) && SpecIs(Meaning(p), p)
  {
  }

  /** A number, held at the largest u16. */
  function Clamped(d: seq<Byte>): nat
    requires AllDigits(d)
  {
    NumberIsNat(d);
    if Decimal.Number(d) < 65535 then Decimal.Number(d) else 65535
  }

  lemma {:induction false} NumberIsNat(d: seq<Byte>)
    requires AllDigits(d)
    ensures Decimal.Number(d) >= 0
  {
    if d != [] { NumberIsNat(d[..|d| - 1]); }
  }

  /** The parts of every scan, good or not. */
  predicate DigitParts(p: Parts) {
    AllDigits(p.width) && (p.precision.Some? ==> AllDigits(p.precision.value))
  }

  function Meaning(p: Parts): FormatSpec
    requires DigitParts(p)
  {
    FormatSpec(
      if p.fill.Some? then p.fill.value else 32,
      if p.align.Some? then AlignOf(p.align.value) else NoAlign,
      p.zero,
      if p.width == [] then None else Some(Clamped(p.width)),
      if p.precision.Some? then Some(Clamped(p.precision.value)) else None,
      p.alt, p.kind)
  }

  lemma ScanHasDigits(s: seq<Byte>)
    ensures DigitParts(Scan(s).parts)
  {
    var lead := ScanLead(s);
    var s1 := SkipIf(lead.rest, Starts(lead.rest, ZERO));
    DigitRunIs(s1);
    var s2 := ScanDigits(s1).rest;
    if Starts(s2, DOT) { DigitRunIs(s2[1..]); }
  }

  // ---------------------------------------------------------------- The three readers

  lemma DropNext(s: seq<Byte>, i: nat)
    requires i < |s|
    ensures s[i..] != [] && s[i..][0] == s[i] && s[i..][1..] == s[i + 1..]
  {
  }

  method SkipDigits(s: seq<Byte>, i: nat) returns (j: nat)
    requires i <= |s|
    ensures i <= j <= |s| && j - i == DigitRun(s[i..])
    ensures ScanDigits(s[i..]) == Digits(s[i..j], s[j..])
  {
    j := i;
    while j < |s| && IsDigit(s[j])
      invariant i <= j <= |s| && DigitRun(s[i..]) == j - i + DigitRun(s[j..])
    {
      DropNext(s, j);
      j := j + 1;
    }
    RunEnds(s, i, j);
  }

  /** Positions stand for the bytes that follow them. */
  function Located(s: seq<Byte>, r: Result<nat>): Result<seq<Byte>>
    requires r.Ok? ==> r.value <= |s|
  {
    match r case Ok(i) => Ok(s[i..]) case Err(e) => Err(e)
  }

  /** The same answers, stage by stage: after the alignment, after the numbers. */
  function InlineTail(s: seq<Byte>): Result<seq<Byte>> {
    var tail := ScanTail(s);
    if tail.kind.None? && tail.rest != [] && tail.rest[0] != CLOSE
    then Err(if IsSign(tail.rest[0]) then SignFlag else BadType)
    else Ok(tail.rest)
  }

  function InlineNumbers(s: seq<Byte>): Result<seq<Byte>> {
    var precision := ScanPrecision(ScanDigits(SkipIf(s, Starts(s, ZERO))).rest);
    if precision.value == Some([]) then Err(NoPrecision) else InlineTail(precision.rest)
  }

  function BodyTail(s: seq<Byte>): Result<()> {
    var tail := ScanTail(s);
    if tail.rest == [] then Ok(())
    else if tail.kind.Some? then Err(Trailing)
    else Err(if IsSign(tail.rest[0]) then SignFlag else BadType)
  }

  function BodyNumbers(s: seq<Byte>): Result<()> {
    var precision := ScanPrecision(ScanDigits(SkipIf(s, Starts(s, ZERO))).rest);
    if precision.value == Some([]) then Err(NoPrecision) else BodyTail(precision.rest)
  }

  predicate BadFill(s: seq<Byte>) { ScanLead(s).fill.Some? && !IsValidFill(ScanLead(s).fill.value) }

  lemma BodyStages(s: seq<Byte>)
    ensures CheckBody(s) == if BadFill(s) then Err(InvalidFill) else BodyNumbers(ScanLead(s).rest)
  {
  }

  lemma InlineStages(s: seq<Byte>)
    requires s != [] && s[0] != CLOSE
    ensures ReadInline(s) == if BadFill(s) then Err(InvalidFill) else InlineNumbers(ScanLead(s).rest)
  {
  }

  lemma NothingAtBrace(s: seq<Byte>)
    requires Starts(s, CLOSE)
    ensures InlineTail(s) == Ok(s) && InlineNumbers(s) == Ok(s)
  {
  }

  method ConstTail(bytes: seq<Byte>, start: nat) returns (r: Result<nat>)
    requires start <= |bytes|
    ensures r.Ok? ==> start <= r.value <= |bytes|
    ensures Located(bytes, r) == InlineTail(bytes[start..])
  {
    var i := start;
    if i < |bytes| && bytes[i] == HASH { i := i + 1; }
    assert bytes[i..] == SkipIf(bytes[start..], Starts(bytes[start..], HASH));
    if i < |bytes| && bytes[i] == CLOSE { return Ok(i); }
    if i < |bytes| {
      DropNext(bytes, i);
      if IsType(bytes[i]) { i := i + 1; }
      else if bytes[i] == CLOSE { }
      else if IsSign(bytes[i]) { return Err(SignFlag); }
      else { return Err(BadType); }
    }
    return Ok(i);
  }

  method ConstPrecision(bytes: seq<Byte>, start: nat) returns (r: Result<nat>)
    requires start <= |bytes|
    ensures r.Ok? ==> start <= r.value <= |bytes|
    ensures r == Err(NoPrecision) <==> ScanPrecision(bytes[start..]).value == Some([])
    ensures r.Ok? ==> bytes[r.value..] == ScanPrecision(bytes[start..]).rest
    ensures r.Err? ==> r.error.NoPrecision?
  {
    var i := start;
    if i < |bytes| && bytes[i] == DOT {
      DropNext(bytes, i);
      i := i + 1;
      if i >= |bytes| || !IsDigit(bytes[i]) { return Err(NoPrecision); }
      i := SkipDigits(bytes, i);
    }
    return Ok(i);
  }

  /** The zero flag and the width. */
  method SkipWidth(bytes: seq<Byte>, start: nat) returns (i: nat)
    requires start <= |bytes|
    ensures start <= i <= |bytes|
    ensures bytes[i..] == ScanDigits(SkipIf(bytes[start..], Starts(bytes[start..], ZERO))).rest
  {
    i := start;
    if i < |bytes| && bytes[i] == ZERO { i := i + 1; }
    assert bytes[i..] == SkipIf(bytes[start..], Starts(bytes[start..], ZERO));
    if i < |bytes| && IsDigit(bytes[i]) { i := SkipDigits(bytes, i); }
  }

  method ConstNumbers(bytes: seq<Byte>, start: nat) returns (r: Result<nat>)
    requires start <= |bytes|
    ensures r.Ok? ==> start <= r.value <= |bytes|
    ensures Located(bytes, r) == InlineNumbers(bytes[start..])
  {
    if start < |bytes| && bytes[start] == CLOSE { NothingAtBrace(bytes[start..]); return Ok(start); }
    var i := SkipWidth(bytes, start);
    r := ConstPrecision(bytes, i);
    if r.Err? { return r; }
    i := r.value;
    if i < |bytes| && bytes[i] == CLOSE { NothingAtBrace(bytes[i..]); return Ok(i); }
    r := ConstTail(bytes, i);
  }

  /** `parse_spec_const`: the position it stops at. */
  method ParseSpecConst(bytes: seq<Byte>, start: nat) returns (r: Result<nat>)
    requires start <= |bytes|
    ensures r.Ok? ==> start <= r.value <= |bytes|
    ensures Located(bytes, r) == ReadInline(bytes[start..])
  {
    var i := start;
    if i >= |bytes| { return Err(Unclosed); }
    if bytes[i] == CLOSE { return Ok(i); }
    InlineStages(bytes[start..]);
    if i + 1 < |bytes| && IsAlign(bytes[i + 1]) {
      if !IsValidFill(bytes[i]) { return Err(InvalidFill); }
      i := i + 2;
    } else if IsAlign(bytes[i]) {
      i := i + 1;
    }
    assert bytes[i..] == ScanLead(bytes[start..]).rest;
    r := ConstNumbers(bytes, i);
  }

  /** `validate_spec_rt`. */
  method ValidateSpecRt(bytes: seq<Byte>) returns (r: Result<()>)
    ensures r == CheckBody(bytes)
  {
    BodyStages(bytes);
    var i := 0;
    if i >= |bytes| { return Ok(()); }
    if i + 1 < |bytes| && IsAlign(bytes[i + 1]) {
      if !IsValidFill(bytes[i]) { return Err(InvalidFill); }
      i := i + 2;
    } else if IsAlign(bytes[i]) {
      i := i + 1;
    }
    assert bytes[i..] == ScanLead(bytes).rest;
    r := RtNumbers(bytes, i);
  }

  method RtNumbers(bytes: seq<Byte>, start: nat) returns (r: Result<()>)
    requires start <= |bytes|
    ensures r == BodyNumbers(bytes[start..])
  {
    if start >= |bytes| { return Ok(()); }
    var i := SkipWidth(bytes, start);
    var p := ConstPrecision(bytes, i);
    if p.Err? { return Err(p.error); }
    r := RtTail(bytes, p.value);
  }

  method RtTail(bytes: seq<Byte>, start: nat) returns (r: Result<()>)
    requires start <= |bytes|
    ensures r == BodyTail(bytes[start..])
  {
    var i := start;
    if i >= |bytes| { return Ok(()); }
    if bytes[i] == HASH { i := i + 1; }
    assert bytes[i..] == SkipIf(bytes[start..], Starts(bytes[start..], HASH));
    if i >= |bytes| { return Ok(()); }
    DropNext(bytes, i);
    if IsType(bytes[i]) { i := i + 1; }
    else if IsSign(bytes[i]) { return Err(SignFlag); }
    else { return Err(BadType); }
    if i < |bytes| { return Err(Trailing); }
    return Ok(());
  }

  lemma GrowSlice(s: seq<Byte>, start: nat, i: nat)
    requires start <= i < |s|
    ensures s[start..i + 1] == s[start..i] + [s[i]]
  {
  }

  /** The loop of the digit fold. */
  method FoldLoop(s: seq<Byte>, start: nat) returns (w: nat, i: nat)
    requires start <= |s|
    ensures start <= i <= |s| && DigitRun(s[start..]) == i - start && w == Fold(s[start..i])
  {
    w, i := 0, start;
    ghost var seen: seq<Byte> := [];
    while i < |s| && IsDigit(s[i])
      invariant start <= i <= |s| && DigitRun(s[start..]) == i - start + DigitRun(s[i..])
      invariant seen == s[start..i] && w == Fold(seen)
    {
      DropNext(s, i);
      FoldStep(seen, s[i]);
      GrowSlice(s, start, i);
      seen := seen + [s[i]];
      w := SatAdd(SatMul10(w), s[i] as int - ZERO as int);
      i := i + 1;
    }
  }

  /** The digit fold: saturating u16 arithmetic gives the number, held at 65535. */
  method FoldDigits(s: seq<Byte>, start: nat) returns (w: nat, i: nat)
    requires start <= |s|
    ensures start <= i <= |s| && ScanDigits(s[start..]) == Digits(s[start..i], s[i..])
    ensures AllDigits(s[start..i]) && w == Clamped(s[start..i])
  {
    w, i := FoldLoop(s, start);
    RunEnds(s, start, i);
    FoldIsClamped(s[start..i]);
  }

  lemma RunEnds(s: seq<Byte>, start: nat, i: nat)
    requires start <= i <= |s| && DigitRun(s[start..]) == i - start
    ensures ScanDigits(s[start..]) == Digits(s[start..i], s[i..]) && AllDigits(s[start..i])
  {
    DigitRunIs(s[start..]);
    assert s[start..][..i - start] == s[start..i] && s[start..][i - start..] == s[i..];
  }

  function SatMul10(x: nat): nat { if x * 10 < 65535 then x * 10 else 65535 }

  function SatAdd(x: nat, y: int): nat { if x + y < 0 then 0 else if x + y < 65535 then x + y else 65535 }

  function Fold(d: seq<Byte>): nat {
    if d == [] then 0 else SatAdd(SatMul10(Fold(d[..|d| - 1])), d[|d| - 1] as int - ZERO as int)
  }

  lemma FoldStep(d: seq<Byte>, c: Byte)
    ensures Fold(d + [c]) == SatAdd(SatMul10(Fold(d)), c as int - ZERO as int)
  {
    assert (d + [c])[..|d|] == d;
  }

  lemma {:induction false} FoldIsClamped(d: seq<Byte>)
    requires AllDigits(d)
    ensures Fold(d) == Clamped(d)
  {
    if d != [] {
      FoldIsClamped(d[..|d| - 1]);
      NumberIsNat(d[..|d| - 1]);
    }
  }

  method BodyPrecision(spec: seq<Byte>, start: nat, fs0: FormatSpec) returns (fs: FormatSpec, i: nat)
    requires start <= |spec|
    ensures start <= i <= |spec|
    ensures var p := ScanPrecision(spec[start..]);
            && spec[i..] == p.rest && (p.value.Some? ==> AllDigits(p.value.value))
            && fs == fs0.(precision := if p.value.Some? then Some(Clamped(p.value.value)) else fs0.precision)
  {
    fs, i := fs0, start;
    if i < |spec| && spec[i] == DOT {
      DropNext(spec, i);
      i := i + 1;
      var p;
      p, i := FoldDigits(spec, i);
      fs := fs.(precision := Some(p));
    }
  }

  method BodyWidth(spec: seq<Byte>, start: nat, fs0: FormatSpec) returns (fs: FormatSpec, i: nat)
    requires start <= |spec|
    ensures start <= i <= |spec|
    ensures var zero := Starts(spec[start..], ZERO);
            var w := ScanDigits(SkipIf(spec[start..], zero));
            && spec[i..] == w.rest && AllDigits(w.value)
            && fs == fs0.(zeroFill := zero || fs0.zeroFill,
                          width := if w.value == [] then fs0.width else Some(Clamped(w.value)))
  {
    fs, i := fs0, start;
    if i < |spec| && spec[i] == ZERO {
      fs := fs.(zeroFill := true);
      i := i + 1;
    }
    assert spec[i..] == SkipIf(spec[start..], Starts(spec[start..], ZERO));
    if i < |spec| && IsDigit(spec[i]) {
      var w;
      w, i := FoldDigits(spec, i);
      fs := fs.(width := Some(w));
    }
  }

  method BodyKind(spec: seq<Byte>, start: nat, fs0: FormatSpec) returns (fs: FormatSpec)
    requires start <= |spec|
    ensures var tail := ScanTail(spec[start..]);
            fs == fs0.(alternate := tail.alt || fs0.alternate,
                       typeChar := if tail.kind.Some? then tail.kind else fs0.typeChar)
  {
    fs := fs0;
    var i := start;
    if i < |spec| && spec[i] == HASH {
      fs := fs.(alternate := true);
      i := i + 1;
    }
    assert spec[i..] == SkipIf(spec[start..], Starts(spec[start..], HASH));
    if i < |spec| && IsType(spec[i]) {
      fs := fs.(typeChar := Some(spec[i]));
    }
  }

  /** `parse_spec_body`: the meaning of the scanned parts, valid or not. */
  method ParseSpecBody(spec: seq<Byte>) returns (fs: FormatSpec)
    ensures DigitParts(Scan(spec).parts) && fs == Meaning(Scan(spec).parts)
  {
    fs := DEFAULT_SPEC;
    var i := 0;
    if i >= |spec| { return; }
    if i + 1 < |spec| && IsAlign(spec[i + 1]) {
      fs := fs.(fill := spec[i], align := AlignOf(spec[i + 1]));
      i := i + 2;
    } else if IsAlign(spec[i]) {
      fs := fs.(align := AlignOf(spec[i]));
      i := i + 1;
    }
    assert spec[i..] == ScanLead(spec).rest;
    fs, i := BodyWidth(spec, i, fs);
    fs, i := BodyPrecision(spec, i, fs);
    fs := BodyKind(spec, i, fs);
  }

  /** On a canonical spec the extracting reader gives its meaning, whatever the
  widths: numbers beyond a u16 are held at 65535. */
  lemma BodyInvertsPrint(p: Parts)
    requires Canonical(p)
    ensures CheckBody(Print(p)).Ok? && DigitParts(Scan(Print(p)).parts)
    ensures Meaning(Scan(Print(p)).parts) == Meaning(p)
  {
    ScanInvertsPrint(p);
  }
}
