/** Line patterns: `Template::parse` against a printer of patterns. */
module Templates {
  import opened Layout
  import opened Wire
  import opened FormatSpecs
  import opened FormatStrings

  datatype Field = Timestamp | LevelName | File | Line | ThreadName | ThreadNumber | Message

  /** The names, in ASCII. */
  function NameOf(f: Field): seq<Byte> {
    match f
    case Timestamp => [116, 105, 109, 101, 115, 116, 97, 109, 112] // timestamp
    case LevelName => [108, 101, 118, 101, 108] // level
    case File => [102, 105, 108, 101] // file
    case Line => [108, 105, 110, 101] // line
    case ThreadName => [116, 104, 114, 101, 97, 100, 95, 110, 97, 109, 101] // thread_name
    case ThreadNumber => [116, 104, 114, 101, 97, 100, 95, 105, 100] // thread_id
    case Message => [109, 101, 115, 115, 97, 103, 101] // message
  }

  /** `Field::from_str`. */
  function FieldOf(name: seq<Byte>): Option<Field> {
    if name == NameOf(Timestamp) then Some(Timestamp)
    else if name == NameOf(LevelName) then Some(LevelName)
    else if name == NameOf(File) then Some(File)
    else if name == NameOf(Line) then Some(Line)
    else if name == NameOf(ThreadName) then Some(ThreadName)
    else if name == NameOf(ThreadNumber) then Some(ThreadNumber)
    else if name == NameOf(Field.Message) then Some(Field.Message)
    else None
  }

  /** A pattern byte by byte: literals unmerged. */
  datatype Flat = Text(b: Byte) | Slot(field: Field, spec: FormatSpec)

  function Prefixed(fs: seq<Flat>, r: Result<seq<Flat>>): Result<seq<Flat>> {
    if r.Ok? then Ok(fs + r.value) else r
  }

  /** What reads a spec body. Line patterns use `BodySpec`; their structure does not
  depend on it. */
  type Reader = seq<Byte> -> Result<FormatSpec>

  ghost predicate IsBodyReader(read: Reader) {
    forall b {:trigger BodySpec(b)} :: read(b) == BodySpec(b)
  }

  /** A placeholder behind its opening brace. */
  datatype Placed = Placed(field: Field, spec: FormatSpec, rest: seq<Byte>)

  /** The checks on a placeholder's name; `colon` says that a spec follows it. */
  function CheckName(name: seq<Byte>, colon: bool, seen: bool): Result<Field> {
    if name != [] && AllDigits(name) then Err(Positional)
    else if name == [] then Err(Unnamed)
    else
      var f := FieldOf(name);
      if f.None? then Err(UnknownField)
      else if f.value.Message? && seen then Err(DuplicateMessage)
      else if (f.value.Message? || f.value.Timestamp?) && colon then Err(SpecNotAccepted)
      else Ok(f.value)
  }

  function ReadField(read: Reader, s: seq<Byte>, seen: bool): Result<Placed> {
    var n := RunTo(s, COLON, CLOSE);
    if n == |s| then Err(Unclosed)
    else
      var f := CheckName(s[..n], s[n] == COLON, seen);
      if f.Err? then Err(f.error)
      else if s[n] == COLON then ReadSpec(read, f.value, s[n + 1..])
      else Ok(Placed(f.value, DEFAULT_SPEC, s[n + 1..]))
  }

  /** A spec body, checked and read. */
  function BodySpec(body: seq<Byte>): Result<FormatSpec> {
    if CheckBody(body).Err? then Err(CheckBody(body).error)
    else
      ScanHasDigits(body);
      Ok(Meaning(Scan(body).parts))
  }

  function ReadSpec(read: Reader, f: Field, s: seq<Byte>): Result<Placed> {
    var k := RunTo(s, CLOSE, CLOSE);
    if k == |s| then Err(Unclosed)
    else
      var spec := read(s[..k]);
      if spec.Err? then Err(spec.error) else Ok(Placed(f, spec.value, s[k + 1..]))
  }

  /** `Template::parse`, literals unmerged. */
  function Parse(read: Reader, s: seq<Byte>, seen: bool): Result<seq<Flat>>
    decreases |s|
  {
    if s == [] then Ok([])
    else if s[0] == OPEN then
      if |s| > 1 && s[1] == OPEN then Prefixed([Text(OPEN)], Parse(read, s[2..], seen))
      else
        var r := ReadField(read, s[1..], seen);
        if r.Err? then Err(r.error)
        else Prefixed([Slot(r.value.field, r.value.spec)], Parse(read, r.value.rest, seen || r.value.field.Message?))
    else if s[0] == CLOSE then
      if |s| > 1 && s[1] == CLOSE then Prefixed([Text(CLOSE)], Parse(read, s[2..], seen)) else Err(Unmatched)
    else Prefixed([Text(s[0])], Parse(read, s[1..], seen))
  }

  function Messages(fs: seq<Flat>): nat {
    if fs == [] then 0 else (if fs[0].Slot? && fs[0].field.Message? then 1 else 0) + Messages(fs[1..])
  }

  lemma MessagesCons(x: Flat, fs: seq<Flat>)
    ensures Messages([x] + fs) == (if x.Slot? && x.field.Message? then 1 else 0) + Messages(fs)
  {
    assert ([x] + fs)[1..] == fs;
  }

  lemma FieldParsed(read: Reader, s: seq<Byte>, seen: bool)
    requires s != [] && s[0] == OPEN && !(|s| > 1 && s[1] == OPEN) && Parse(read, s, seen).Ok?
    ensures ReadField(read, s[1..], seen).Ok?
    ensures var p := ReadField(read, s[1..], seen).value;
            && |p.rest| < |s| && !(p.field.Message? && seen)
            && Parse(read, s, seen) == Prefixed([Slot(p.field, p.spec)], Parse(read, p.rest, seen || p.field.Message?))
  {
  }

  /** Every accepted pattern has at most one message field, so the argument
  cursor of a record is walked at most once. */
  lemma {:induction false} AtMostOneMessage(read: Reader, s: seq<Byte>, seen: bool)
    requires Parse(read, s, seen).Ok?
    ensures Messages(Parse(read, s, seen).value) <= if seen then 0 else 1
    decreases |s|
  {
    if s != [] {
      if s[0] == OPEN && !(|s| > 1 && s[1] == OPEN) {
        FieldParsed(read, s, seen);
        var p := ReadField(read, s[1..], seen).value;
        AtMostOneMessage(read, p.rest, seen || p.field.Message?);
        MessagesCons(Slot(p.field, p.spec), Parse(read, p.rest, seen || p.field.Message?).value);
      } else if s[0] == OPEN || s[0] == CLOSE {
        AtMostOneMessage(read, s[2..], seen);
        MessagesCons(Text(s[0]), Parse(read, s[2..], seen).value);
      } else {
        AtMostOneMessage(read, s[1..], seen);
        MessagesCons(Text(s[0]), Parse(read, s[1..], seen).value);
      }
    }
  }

  // ---------------------------------------------------------------- Printing

  /** A pattern as its author means it. */
  datatype Pattern =
    | Stop
    | Literal(b: Byte, more: Pattern)
    | Hole(field: Field, parts: Option<Parts>, more: Pattern)

  /** The name of a field, as a pattern's author writes it. */
  function Word(f: Field): seq<Byte> {
    match f
    case Timestamp => Ascii("timestamp")
    case LevelName => Ascii("level")
    case File => Ascii("file")
    case Line => Ascii("line")
    case ThreadName => Ascii("thread_name")
    case ThreadNumber => Ascii("thread_id")
    case Message => Ascii("message")
  }

  lemma WordIsName(f: Field)
    ensures Word(f) == NameOf(f)
  {
  }

  function PrintHole(f: Field, parts: Option<Parts>): seq<Byte> {
    Word(f) + (if parts.Some? then [58] + Print(parts.value) else [])
  }

  /** Literal braces are doubled. */
  function PrintPattern(p: Pattern): seq<Byte> {
    match p
    case Stop => []
    case Literal(b, more) => (if b == 123 || b == 125 then [b, b] else [b]) + PrintPattern(more)
    case Hole(f, parts, more) => [123] + (PrintHole(f, parts) + ([125] + PrintPattern(more)))
  }

  /** Specs are canonical, the fill is no closing brace, `message` and `timestamp`
  have no spec, and there is one `message` at most, none if `seen`. */
  predicate GoodPattern(p: Pattern, seen: bool) {
    match p
    case Stop => true
    case Literal(_, more) => GoodPattern(more, seen)
    case Hole(f, parts, more) =>
      && (parts.Some? ==> Canonical(parts.value) && parts.value.fill != Some(125))
      && (f.Message? || f.Timestamp? ==> parts.None?)
      && !(f.Message? && seen)
      && GoodPattern(more, seen || f.Message?)
  }

  function SpecOf(parts: Option<Parts>): FormatSpec
    requires parts.Some? ==> Canonical(parts.value)
  {
    if parts.Some? then Meaning(parts.value) else DEFAULT_SPEC
  }

  function Flatten(p: Pattern, seen: bool): seq<Flat>
    requires GoodPattern(p, seen)
  {
    match p
    case Stop => []
    case Literal(b, more) => [Text(b)] + Flatten(more, seen)
    case Hole(f, parts, more) => [Slot(f, SpecOf(parts))] + Flatten(more, seen || f.Message?)
  }

  lemma NamesDiffer(f: Field)
    ensures FieldOf(NameOf(f)) == Some(f)
  {
    assert NameOf(File)[1] != NameOf(Line)[1] || NameOf(File)[0] != NameOf(Line)[0];
    assert NameOf(Timestamp)[1] != NameOf(ThreadNumber)[1];
  }

  lemma NamesAreLetters(f: Field)
    ensures NameOf(f) != [] && 97 <= NameOf(f)[0] <= 122 && !AllDigits(NameOf(f))
    ensures COLON !in NameOf(f) && CLOSE !in NameOf(f) && OPEN !in NameOf(f)
  {
    assert 97 <= NameOf(f)[0] <= 122;
  }

  lemma SpecHasNoBrace(p: Parts)
    requires Canonical(p) && p.fill != Some(CLOSE)
    ensures CLOSE !in Print(p)
  {
    NumbersHaveNoAlign(p);
  }

  lemma BraceAt(c: seq<Byte>, t: seq<Byte>)
    requires CLOSE !in c
    ensures var s := c + ([CLOSE] + t);
            RunTo(s, CLOSE, CLOSE) == |c| < |s| && s[..|c|] == c && s[|c| + 1..] == t
  {
    var s := c + ([CLOSE] + t);
    assert s[..|c|] == c && s[|c| + 1..] == t;
    RunToIs(s, CLOSE, CLOSE, |c|);
  }

  lemma ReadSpecOf(read: Reader, f: Field, c: seq<Byte>, t: seq<Byte>)
    requires IsBodyReader(read)
    requires CLOSE !in c && CheckBody(c).Ok?
    ensures DigitParts(Scan(c).parts)
    ensures ReadSpec(read, f, c + ([CLOSE] + t)) == Ok(Placed(f, Meaning(Scan(c).parts), t))
  {
    ScanHasDigits(c);
    BraceAt(c, t);
    assert read(c) == BodySpec(c);
  }

  lemma ReadSpecOfPrint(read: Reader, f: Field, p: Parts, t: seq<Byte>)
    requires IsBodyReader(read)
    requires Canonical(p) && p.fill != Some(CLOSE)
    ensures ReadSpec(read, f, Print(p) + ([CLOSE] + t)) == Ok(Placed(f, Meaning(p), t))
  {
    SpecHasNoBrace(p);
    BodyInvertsPrint(p);
    ReadSpecOf(read, f, Print(p), t);
  }

  lemma NameChecks(f: Field, colon: bool, seen: bool)
    requires (f.Message? || f.Timestamp? ==> !colon) && !(f.Message? && seen)
    ensures CheckName(NameOf(f), colon, seen) == Ok(f)
  {
    NamesAreLetters(f);
    NamesDiffer(f);
  }

  /** A checked name stops at the colon or brace behind it. */
  lemma NamedField(read: Reader, name: seq<Byte>, f: Field, c: Byte, t: seq<Byte>, seen: bool)
    requires (c == COLON || c == CLOSE) && COLON !in name && CLOSE !in name
    requires CheckName(name, c == COLON, seen) == Ok(f)
    ensures ReadField(read, name + ([c] + t), seen) == if c == COLON then ReadSpec(read, f, t) else Ok(Placed(f, DEFAULT_SPEC, t))
  {
    NameStops(name, c, t);
    FieldBy(read, name + ([c] + t), |name|, name, f, seen);
  }

  lemma FieldBy(read: Reader, s: seq<Byte>, n: nat, name: seq<Byte>, f: Field, seen: bool)
    requires RunTo(s, COLON, CLOSE) == n < |s| && s[..n] == name && CheckName(name, s[n] == COLON, seen) == Ok(f)
    ensures ReadField(read, s, seen) == if s[n] == COLON then ReadSpec(read, f, s[n + 1..]) else Ok(Placed(f, DEFAULT_SPEC, s[n + 1..]))
  {
  }

  lemma NameStops(name: seq<Byte>, c: Byte, t: seq<Byte>)
    requires (c == COLON || c == CLOSE) && COLON !in name && CLOSE !in name
    ensures var s := name + ([c] + t);
            RunTo(s, COLON, CLOSE) == |name| < |s| && s[..|name|] == name && s[|name|] == c && s[|name| + 1..] == t
  {
    var s, n := name + ([c] + t), |name|;
    assert s[..n] == name && s[n] == c && s[n + 1..] == t;
    RunToIs(s, COLON, CLOSE, n);
  }

  lemma ReadFieldOfPrint(read: Reader, f: Field, parts: Option<Parts>, t: seq<Byte>, seen: bool)
    requires IsBodyReader(read)
    requires parts.Some? ==> Canonical(parts.value) && parts.value.fill != Some(CLOSE)
    requires (f.Message? || f.Timestamp? ==> parts.None?) && !(f.Message? && seen)
    ensures ReadField(read, PrintHole(f, parts) + ([CLOSE] + t), seen) == Ok(Placed(f, SpecOf(parts), t))
  {
    var name := NameOf(f);
    WordIsName(f);
    NamesAreLetters(f);
    NameChecks(f, parts.Some?, seen);
    if parts.Some? {
      var spec := Print(parts.value);
      NamedField(read, name, f, COLON, spec + ([CLOSE] + t), seen);
      ReadSpecOfPrint(read, f, parts.value, t);
      Assoc(name, [COLON] + spec, [CLOSE] + t);
      Assoc([COLON], spec, [CLOSE] + t);
    } else {
      NamedField(read, name, f, CLOSE, t, seen);
      assert name + [] == name;
    }
  }

  lemma HoleIsNoBrace(f: Field, parts: Option<Parts>)
    ensures PrintHole(f, parts) != [] && PrintHole(f, parts)[0] != OPEN
  {
    WordIsName(f);
    NamesAreLetters(f);
  }

  lemma HoleParses(read: Reader, f: Field, parts: Option<Parts>, t: seq<Byte>, seen: bool)
    requires IsBodyReader(read)
    requires parts.Some? ==> Canonical(parts.value) && parts.value.fill != Some(CLOSE)
    requires (f.Message? || f.Timestamp? ==> parts.None?) && !(f.Message? && seen)
    ensures Parse(read, [OPEN] + (PrintHole(f, parts) + ([CLOSE] + t)), seen)
            == Prefixed([Slot(f, SpecOf(parts))], Parse(read, t, seen || f.Message?))
  {
    var b := PrintHole(f, parts) + ([CLOSE] + t);
    var s := [OPEN] + b;
    HoleIsNoBrace(f, parts);
    assert s[1..] == b && s[1] == b[0];
    ReadFieldOfPrint(read, f, parts, t, seen);
  }

  /** Parsing inverts printing, up to how literals are grouped. */
  lemma {:induction false} ParseInvertsPrint(read: Reader, p: Pattern, seen: bool)
    requires IsBodyReader(read)
    requires GoodPattern(p, seen)
    ensures Parse(read, PrintPattern(p), seen) == Ok(Flatten(p, seen))
    decreases p
  {
    var s := PrintPattern(p);
    match p
    case Stop =>
    case Literal(b, more) =>
      ParseInvertsPrint(read, more, seen);
      if b == OPEN || b == CLOSE { assert s[2..] == PrintPattern(more); } else { assert s[1..] == PrintPattern(more); }
    case Hole(f, parts, more) =>
      ParseInvertsPrint(read, more, seen || f.Message?);
      HoleParses(read, f, parts, PrintPattern(more), seen);
  }

  lemma FieldOfNames(name: seq<Byte>)
    ensures FieldOf(name).Some? ==> name == NameOf(FieldOf(name).value)
  {
  }

  /** An accepted placeholder is the printed form of a good one. */
  lemma FieldPrints(read: Reader, s: seq<Byte>, seen: bool) returns (parts: Option<Parts>)
    requires IsBodyReader(read)
    requires ReadField(read, s, seen).Ok?
    ensures var p := ReadField(read, s, seen).value;
            && (parts.Some? ==> Canonical(parts.value) && parts.value.fill != Some(CLOSE))
            && (p.field.Message? || p.field.Timestamp? ==> parts.None?) && !(p.field.Message? && seen)
            && p.spec == SpecOf(parts) && s == PrintHole(p.field, parts) + ([CLOSE] + p.rest)
  {
    var n, p := RunTo(s, COLON, CLOSE), ReadField(read, s, seen).value;
    FieldOfNames(s[..n]);
    WordIsName(p.field);
    SplitAt(s, n);
    if s[n] == COLON {
      var body := SpecPrints(read, p.field, s[n + 1..]);
      parts := Some(body);
      Assoc(NameOf(p.field), [COLON] + Print(body), [CLOSE] + p.rest);
      Assoc([COLON], Print(body), [CLOSE] + p.rest);
    } else {
      parts := None;
    }
  }

  lemma BodyPrints(b: seq<Byte>)
    requires CLOSE !in b
    ensures var body := Scan(b).parts;
            BodySpec(b).Ok? ==>
              && Canonical(body) && body.fill != Some(CLOSE)
              && BodySpec(b).value == Meaning(body) && Print(body) == b
  {
    var body := Scan(b).parts;
    ScanIsCanonical(b);
    PrintInvertsScan(b);
    if BodySpec(b).Ok? {
      assert Print(body) + [] == Print(body);
      if body.fill.Some? { assert Print(body)[0] == body.fill.value; }
    }
  }

  lemma SpecPrints(read: Reader, f: Field, s: seq<Byte>) returns (body: Parts)
    requires IsBodyReader(read)
    requires ReadSpec(read, f, s).Ok?
    ensures Canonical(body) && body.fill != Some(CLOSE) && ReadSpec(read, f, s).value.spec == Meaning(body)
    ensures s == Print(body) + ([CLOSE] + ReadSpec(read, f, s).value.rest)
  {
    SplitAtBrace(s);
    var b := s[..RunTo(s, CLOSE, CLOSE)];
    body := Scan(b).parts;
    assert read(b) == BodySpec(b);
    BodyPrints(b);
  }

  /** Every accepted pattern string is the printed form of a good pattern. */
  lemma {:induction false} AcceptedIsPrinted(read: Reader, s: seq<Byte>, seen: bool) returns (p: Pattern)
    requires IsBodyReader(read)
    requires Parse(read, s, seen).Ok?
    ensures GoodPattern(p, seen) && PrintPattern(p) == s && Flatten(p, seen) == Parse(read, s, seen).value
    decreases |s|
  {
    if s == [] {
      p := Stop;
    } else if s[0] == OPEN && !(|s| > 1 && s[1] == OPEN) {
      var x := ReadField(read, s[1..], seen).value;
      var parts := FieldPrints(read, s[1..], seen);
      var more := AcceptedIsPrinted(read, x.rest, seen || x.field.Message?);
      p := Hole(x.field, parts, more);
      assert s == [OPEN] + s[1..];
    } else if s[0] == OPEN || s[0] == CLOSE {
      var more := AcceptedIsPrinted(read, s[2..], seen);
      p := Literal(s[0], more);
      assert s == [s[0], s[0]] + s[2..];
    } else {
      var more := AcceptedIsPrinted(read, s[1..], seen);
      p := Literal(s[0], more);
      assert s == [s[0]] + s[1..];
    }
  }

  /** The spec a good pattern asks for is the one the parsed pattern has. */
  lemma HoleSpec(parts: Option<Parts>)
    requires parts.Some? ==> Canonical(parts.value)
    ensures if parts.Some? then SpecIs(SpecOf(parts), parts.value)
            else SpecOf(parts) == FormatSpec(32, NoAlign, false, None, None, false, None)
  {
    if parts.Some? { MeaningIs(parts.value); }
  }

  // ---------------------------------------------------------------- Faults

  /** Whether a message field has been seen behind `p`. */
  function SeenAfter(p: Pattern, seen: bool): bool {
    match p
    case Stop => seen
    case Literal(_, more) => SeenAfter(more, seen)
    case Hole(f, _, more) => SeenAfter(more, seen || f.Message?)
  }

  /** Behind a good pattern the parser gives the verdict of what follows. */
  lemma {:induction false} FirstBadPiece(read: Reader, p: Pattern, t: seq<Byte>, seen: bool)
    requires IsBodyReader(read) && GoodPattern(p, seen) && Parse(read, t, SeenAfter(p, seen)).Err?
    ensures Parse(read, PrintPattern(p) + t, seen) == Parse(read, t, SeenAfter(p, seen))
    decreases p
  {
    match p
    case Stop => assert [] + t == t;
    case Literal(b, more) =>
      FirstBadPiece(read, more, t, seen);
      var q := if b == 123 || b == 125 then [b, b] else [b];
      Assoc(q, PrintPattern(more), t);
      BadBehindByte(read, b, PrintPattern(more) + t, q + (PrintPattern(more) + t), seen);
    case Hole(f, parts, more) =>
      FirstBadPiece(read, more, t, seen || f.Message?);
      PlaceThen(PrintHole(f, parts), PrintPattern(more), t);
      HoleParses(read, f, parts, PrintPattern(more) + t, seen);
  }

  lemma BadBehindByte(read: Reader, b: Byte, t: seq<Byte>, s: seq<Byte>, seen: bool)
    requires Parse(read, t, seen).Err? && s == (if b == 123 || b == 125 then [b, b] else [b]) + t
    ensures Parse(read, s, seen) == Parse(read, t, seen)
  {
    if b == OPEN || b == CLOSE { assert s[2..] == t; } else { assert s[1..] == t; }
  }

  lemma BadField(read: Reader, b: seq<Byte>, seen: bool)
    requires !Starts(b, 123) && ReadField(read, b, seen).Err?
    ensures Parse(read, [123] + b, seen) == Err(ReadField(read, b, seen).error)
  {
    assert ([123] + b)[1..] == b;
  }

  /** The faults of a name, in the order they are found. */
  lemma NameFaults(n: seq<Byte>, colon: bool, seen: bool)
    ensures var v := CheckName(n, colon, seen);
            && (n != [] && Numerals(n) ==> v == Err(Positional))
            && (n == [] ==> v == Err(Unnamed))
            && (n != [] && !Numerals(n) && (forall f :: n != Word(f)) ==> v == Err(UnknownField))
            && (n == Ascii("message") && seen ==> v == Err(DuplicateMessage))
            && (n == Ascii("message") && !seen && colon ==> v == Err(SpecNotAccepted))
            && (n == Ascii("timestamp") && colon ==> v == Err(SpecNotAccepted))
  {
    FieldOfNames(n);
    if FieldOf(n).Some? { WordIsName(FieldOf(n).value); }
    WordFound(n, Field.Message);
    WordFound(n, Timestamp);
  }

  lemma WordFound(n: seq<Byte>, f: Field)
    ensures n == Word(f) ==> FieldOf(n) == Some(f) && n != [] && !AllDigits(n)
  {
    WordIsName(f);
    NamesDiffer(f);
    NamesAreLetters(f);
  }

  /** The parser reports them. */
  lemma NameFaultsReported(read: Reader, n: seq<Byte>, c: Byte, t: seq<Byte>, seen: bool)
    requires 58 !in n && 125 !in n && !Starts(n, 123) && c in [58, 125] && CheckName(n, c == 58, seen).Err?
    ensures Parse(read, [123] + (n + ([c] + t)), seen) == Err(CheckName(n, c == 58, seen).error)
  {
    var b := n + ([c] + t);
    NameEnds(n, c, t);
    assert !Starts(b, 123);
    BadField(read, b, seen);
  }

  /** A name or a spec that never ends, and a closing brace on its own. */
  lemma EndlessPieces(read: Reader, n: seq<Byte>, f: Field, body: seq<Byte>, x: Byte, t: seq<Byte>, seen: bool)
    requires 58 !in n && 125 !in n && !Starts(n, 123)
    requires !f.Message? && !f.Timestamp? && 125 !in body && x != 125
    ensures Parse(read, [123] + n, seen) == Err(Unclosed)
    ensures Parse(read, [123] + (Word(f) + ([58] + body)), seen) == Err(Unclosed)
    ensures Parse(read, [125], seen) == Err(Unmatched) && Parse(read, [125, x] + t, seen) == Err(Unmatched)
  {
    NoEnd(n, COLON, CLOSE);
    BadField(read, n, seen);
    EndlessSpec(read, f, body, seen);
  }

  lemma EndlessSpec(read: Reader, f: Field, body: seq<Byte>, seen: bool)
    requires !f.Message? && !f.Timestamp? && 125 !in body
    ensures Parse(read, [123] + (Word(f) + ([58] + body)), seen) == Err(Unclosed)
  {
    WordIsName(f);
    NamesAreLetters(f);
    NameChecks(f, true, seen);
    NamedField(read, NameOf(f), f, COLON, body, seen);
    NoEnd(body, CLOSE, CLOSE);
    BadField(read, Word(f) + ([58] + body), seen);
  }

  /** The fault of a spec is the pattern's. */
  lemma SpecFault(read: Reader, f: Field, body: seq<Byte>, t: seq<Byte>, seen: bool)
    requires IsBodyReader(read) && !f.Message? && !f.Timestamp? && 125 !in body && CheckBody(body).Err?
    ensures Parse(read, [123] + (Word(f) + ([58] + (body + ([125] + t)))), seen) == Err(CheckBody(body).error)
  {
    var rest := body + ([125] + t);
    WordIsName(f);
    NamesAreLetters(f);
    NameChecks(f, true, seen);
    NamedField(read, NameOf(f), f, COLON, rest, seen);
    BraceAt(body, t);
    assert read(body) == BodySpec(body);
    BadField(read, Word(f) + ([58] + rest), seen);
  }

  // ---------------------------------------------------------------- The loop

  datatype Segment = Span(bytes: seq<Byte>) | Hold(field: Field, spec: FormatSpec)

  function Texts(b: seq<Byte>): (fs: seq<Flat>)
    ensures |fs| == |b|
  {
    seq(|b|, i requires 0 <= i < |b| => Text(b[i]))
  }

  function FlatOf(g: Segment): seq<Flat> {
    match g case Span(b) => Texts(b) case Hold(f, spec) => [Slot(f, spec)]
  }

  /** The segments with their literals taken apart. */
  function Spread(gs: seq<Segment>): seq<Flat> {
    if gs == [] then [] else Spread(gs[..|gs| - 1]) + FlatOf(gs[|gs| - 1])
  }

  lemma SpreadSnoc(gs: seq<Segment>, g: Segment)
    ensures Spread(gs + [g]) == Spread(gs) + FlatOf(g)
  {
    assert (gs + [g])[..|gs|] == gs;
  }

  lemma PrefixedStep(fs: seq<Flat>, x: Flat, r: Result<seq<Flat>>)
    ensures Prefixed(fs, Prefixed([x], r)) == Prefixed(fs + [x], r)
  {
    if r.Ok? { Assoc(fs, [x], r.value); }
  }

  /** Pushes the pending literal, if any. */
  method FlushLiteral(gs: seq<Segment>, fmt: seq<Byte>, from: nat, i: nat) returns (out: seq<Segment>)
    requires from <= i <= |fmt|
    ensures Spread(out) == Spread(gs) + Texts(fmt[from..i])
  {
    out := gs;
    if from < i {
      SpreadSnoc(gs, Span(fmt[from..i]));
      out := out + [Span(fmt[from..i])];
    }
  }

  method ParseName(bytes: seq<Byte>, start: nat, i: nat, seen: bool) returns (r: Result<Field>)
    requires start <= i < |bytes|
    ensures r == CheckName(bytes[start..i], bytes[i] == COLON, seen)
  {
    var digits := IsAllDigits(bytes, start, i);
    if start < i && digits { return Err(Positional); }
    if start == i { return Err(Unnamed); }
    var f := FieldOf(bytes[start..i]);
    if f.None? { return Err(UnknownField); }
    if f.value.Message? {
      if seen { return Err(DuplicateMessage); }
      if bytes[i] == COLON { return Err(SpecNotAccepted); }
    }
    if f.value.Timestamp? && bytes[i] == COLON { return Err(SpecNotAccepted); }
    return Ok(f.value);
  }

  /** Positions stand for the bytes that follow them. */
  function PlacedAt(bytes: seq<Byte>, r: Result<(Field, FormatSpec, nat)>): Result<Placed>
    requires r.Ok? ==> r.value.2 <= |bytes|
  {
    if r.Ok? then Ok(Placed(r.value.0, r.value.1, bytes[r.value.2..])) else Err(r.error)
  }

  /** What the scan for the closing brace and the body reader give, put together. */
  function SpecResult(f: Field, n: nat, i: nat, spec: Result<FormatSpec>): Result<(Field, FormatSpec, nat)> {
    if i >= n then Err(Unclosed) else if spec.Err? then Err(spec.error) else Ok((f, spec.value, i + 1))
  }

  lemma ReadSpecAt(read: Reader, bytes: seq<Byte>, start: nat, i: nat, f: Field, spec: Result<FormatSpec>)
    requires start <= i <= |bytes| && i - start == RunTo(bytes[start..], CLOSE, CLOSE)
    requires i < |bytes| ==> spec == read(bytes[start..i])
    ensures ReadSpec(read, f, bytes[start..]) == PlacedAt(bytes, SpecResult(f, |bytes|, i, spec))
  {
    assert bytes[start..][..i - start] == bytes[start..i];
    if i < |bytes| { DropAt(bytes, start, i); }
  }

  /** The body reader the patterns use. */
  method ParseBody(body: seq<Byte>, ghost read: Reader) returns (r: Result<FormatSpec>)
    requires IsBodyReader(read)
    ensures r == read(body)
  {
    assert read(body) == BodySpec(body);
    var ok := ValidateSpecRt(body);
    if ok.Err? { return Err(ok.error); }
    var spec := ParseSpecBody(body);
    return Ok(spec);
  }

  method ParseFieldSpec(bytes: seq<Byte>, start: nat, f: Field, ghost read: Reader) returns (r: Result<(Field, FormatSpec, nat)>)
    requires IsBodyReader(read)
    requires start <= |bytes|
    ensures r.Ok? ==> start < r.value.2 <= |bytes|
    ensures ReadSpec(read, f, bytes[start..]) == PlacedAt(bytes, r)
  {
    var i := FindFrom(bytes, start, CLOSE, CLOSE);
    var spec := Err(Unclosed);
    if i < |bytes| { spec := ParseBody(bytes[start..i], read); }
    ReadSpecAt(read, bytes, start, i, f, spec);
    r := SpecResult(f, |bytes|, i, spec);
  }

  /** A placeholder once its name has been found and checked. */
  lemma ReadFieldAt(read: Reader, bytes: seq<Byte>, start: nat, i: nat, seen: bool, f: Result<Field>)
    requires start <= i < |bytes| && i - start == RunTo(bytes[start..], COLON, CLOSE)
    requires f == CheckName(bytes[start..i], bytes[i] == COLON, seen)
    ensures ReadField(read, bytes[start..], seen)
            == if f.Err? then Err(f.error)
               else if bytes[i] == COLON then ReadSpec(read, f.value, bytes[i + 1..])
               else Ok(Placed(f.value, DEFAULT_SPEC, bytes[i + 1..]))
  {
    assert bytes[start..][..i - start] == bytes[start..i];
    DropAt(bytes, start, i);
  }

  /** The rest of a placeholder behind its name. */
  method ParseBehindName(bytes: seq<Byte>, i: nat, f: Result<Field>, ghost read: Reader)
    returns (r: Result<(Field, FormatSpec, nat)>)
    requires IsBodyReader(read) && i < |bytes|
    ensures r.Ok? ==> i < r.value.2 <= |bytes|
    ensures PlacedAt(bytes, r)
            == if f.Err? then Err(f.error)
               else if bytes[i] == COLON then ReadSpec(read, f.value, bytes[i + 1..])
               else Ok(Placed(f.value, DEFAULT_SPEC, bytes[i + 1..]))
  {
    if f.Err? { return Err(f.error); }
    if bytes[i] != COLON { return Ok((f.value, DEFAULT_SPEC, i + 1)); }
    r := ParseFieldSpec(bytes, i + 1, f.value, read);
  }

  /** A placeholder of `Template::parse`, from behind its opening brace. */
  method ParseField(bytes: seq<Byte>, start: nat, seen: bool, ghost read: Reader) returns (r: Result<(Field, FormatSpec, nat)>)
    requires IsBodyReader(read)
    requires start <= |bytes|
    ensures r.Ok? ==> start < r.value.2 <= |bytes|
    ensures ReadField(read, bytes[start..], seen) == PlacedAt(bytes, r)
  {
    var i := FindFrom(bytes, start, COLON, CLOSE);
    if i >= |bytes| { return Err(Unclosed); }
    var f := ParseName(bytes, start, i, seen);
    r := ParseBehindName(bytes, i, f, read);
    ReadFieldAt(read, bytes, start, i, seen, f);
  }

  /** What the pattern has next at `i`, and where it goes on. */
  method NextItem(fmt: seq<Byte>, i: nat, seen: bool, ghost read: Reader) returns (r: Result<(Flat, nat)>)
    requires IsBodyReader(read)
    requires i < |fmt|
    ensures r.Ok? ==> i < r.value.1 <= |fmt| && (fmt[i] != OPEN && fmt[i] != CLOSE ==> r.value == (Text(fmt[i]), i + 1))
    ensures Parse(read, fmt[i..], seen)
            == if r.Err? then Err(r.error)
               else Prefixed([r.value.0], Parse(read, fmt[r.value.1..], seen || IsMessage(r.value.0)))
  {
    DropNext(fmt, i);
    ghost var s := fmt[i..];
    if fmt[i] == OPEN || fmt[i] == CLOSE {
      if i + 1 < |fmt| && fmt[i + 1] == fmt[i] {
        assert s[2..] == fmt[i + 2..];
        return Ok((Text(fmt[i]), i + 2));
      }
      if fmt[i] == CLOSE { return Err(Unmatched); }
      var p := ParseField(fmt, i + 1, seen, read);
      if p.Err? { return Err(p.error); }
      return Ok((Slot(p.value.0, p.value.1), p.value.2));
    }
    return Ok((Text(fmt[i]), i + 1));
  }

  function IsMessage(x: Flat): bool { x.Slot? && x.field.Message? }

  lemma PrefixedNothing(r: Result<seq<Flat>>)
    ensures Prefixed([], r) == r
  {
    if r.Ok? { assert [] + r.value == r.value; }
  }

  /** The loop of `Template::parse`. */
  method ParseSegments(fmt: seq<Byte>, ghost read: Reader) returns (r: Result<seq<Segment>>)
    requires IsBodyReader(read)
    ensures Parse(read, fmt, false) == if r.Ok? then Ok(Spread(r.value)) else Err(r.error)
  {
    var segments: seq<Segment> := [];
    var i, litStart, seen := 0, 0, false;
    ghost var done: seq<Flat> := [];
    assert fmt[0..] == fmt;
    PrefixedNothing(Parse(read, fmt, false));
    while i < |fmt|
      invariant litStart <= i <= |fmt| && done == Spread(segments) + Texts(fmt[litStart..i])
      invariant Parse(read, fmt, false) == Prefixed(done, Parse(read, fmt[i..], seen))
      decreases |fmt| - i
    {
      var item := NextItem(fmt, i, seen, read);
      if item.Err? { return Err(item.error); }
      var (x, next) := item.value;
      PrefixedStep(done, x, Parse(read, fmt[next..], seen || IsMessage(x)));
      if fmt[i] == OPEN || fmt[i] == CLOSE {
        segments := FlushLiteral(segments, fmt, litStart, i);
        var g := if x.Slot? then Hold(x.field, x.spec) else Span([x.b]);
        SpreadSnoc(segments, g);
        assert FlatOf(g) == [x];
        segments := segments + [g];
        litStart := next;
      } else {
        assert Texts(fmt[litStart..next]) == Texts(fmt[litStart..i]) + [x];
        Assoc(Spread(segments), Texts(fmt[litStart..i]), [x]);
      }
      done := done + [x];
      i, seen := next, seen || IsMessage(x);
    }
    segments := FlushLiteral(segments, fmt, litStart, i);
    assert done + [] == done;
    return Ok(segments);
  }

  /** `Template::parse`. */
  method ParseTemplate(fmt: seq<Byte>) returns (r: Result<seq<Segment>>)
    ensures Parse(BodySpec, fmt, false) == if r.Ok? then Ok(Spread(r.value)) else Err(r.error)
  {
    r := ParseSegments(fmt, BodySpec);
  }
}
