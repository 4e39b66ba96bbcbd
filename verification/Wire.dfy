/** The wire format of a log record: `assemble` and `write_args` on the
producer's side, `Cursor` and the decoder on the drain's side. */
module Wire {
  import opened Bits
  import opened Layout

  datatype Option<T> = None | Some(value: T)

  // ---------------------------------------------------------------- Levels and values

  datatype Level = Error | Warn | Info | Debug | Trace

  function LevelByte(l: Level): Byte {
    match l case Error => 1 case Warn => 2 case Info => 3 case Debug => 4 case Trace => 5
  }

  /** `Level::from_u8(b).unwrap_or(Error)`. */
  function LevelOf(b: nat): Level {
    if b == 2 then Warn else if b == 3 then Info else if b == 4 then Debug else if b == 5 then Trace else Error
  }

  type Word64 = x: int | 0 <= x < 0x1_0000_0000_0000_0000
  type Word32 = x: int | 0 <= x < 0x1_0000_0000
  type Word16 = x: int | 0 <= x < 0x1_0000
  type Int64 = x: int | -0x8000_0000_0000_0000 <= x < 0x8000_0000_0000_0000
  type Int32 = x: int | -0x8000_0000 <= x < 0x8000_0000
  type Int16 = x: int | -0x8000 <= x < 0x8000
  type Int8 = x: int | -0x80 <= x < 0x80

  /** An argument. Floats are carried as their bits, strings as their bytes. */
  datatype Value =
    | U64Val(u64: Word64) | I64Val(i64: Int64) | F64Val(f64: Word64)
    | U32Val(u32: Word32) | I32Val(i32: Int32) | F32Val(f32: Word32)
    | U16Val(u16: Word16) | I16Val(i16: Int16)
    | U8Val(u8: Byte) | I8Val(i8: Int8)
    | BoolVal(b: bool)
    | StrVal(s: seq<Byte>)

  /** A record's arguments, a cons-list as the logging macros build it. */
  datatype Args = Nil | Arg(first: Value, rest: Args)

  const TAG_STR: Byte := 11

  const FIXED_SIZES: seq<nat> := [8, 8, 8, 4, 4, 4, 2, 2, 1, 1, 1, 0]

  function TypeTag(v: Value): (t: Byte)
    ensures t < 12 && (t == TAG_STR <==> v.StrVal?)
  {
    match v
    case U64Val(_) => 0 case I64Val(_) => 1 case F64Val(_) => 2
    case U32Val(_) => 3 case I32Val(_) => 4 case F32Val(_) => 5
    case U16Val(_) => 6 case I16Val(_) => 7
    case U8Val(_) => 8 case I8Val(_) => 9
    case BoolVal(_) => 10
    case StrVal(_) => TAG_STR
  }

  function EncodedSize(v: Value): nat {
    match v
    case U64Val(_) => 8 case I64Val(_) => 8 case F64Val(_) => 8
    case U32Val(_) => 4 case I32Val(_) => 4 case F32Val(_) => 4
    case U16Val(_) => 2 case I16Val(_) => 2
    case U8Val(_) => 1 case I8Val(_) => 1
    case BoolVal(_) => 1
    case StrVal(s) => 2 + |s|
  }

  /** Two's complement. */
  function Wrapped(x: int, span: nat): int { if x < 0 then x + span else x }

  function Signed(w: int, span: nat): int { if w < span / 2 then w else w - span }

  /** The payload bytes. A string's length is cast to u16 before it is stored. */
  function Payload(v: Value): (b: seq<Byte>)
    ensures |b| == EncodedSize(v)
  {
    match v
    case U64Val(x) => LeBytes(x, 8)
    case I64Val(x) => LeBytes(Wrapped(x, Pow256(8)), 8)
    case F64Val(x) => LeBytes(x, 8)
    case U32Val(x) => LeBytes(x, 4)
    case I32Val(x) => LeBytes(Wrapped(x, Pow256(4)), 4)
    case F32Val(x) => LeBytes(x, 4)
    case U16Val(x) => LeBytes(x, 2)
    case I16Val(x) => LeBytes(Wrapped(x, Pow256(2)), 2)
    case U8Val(x) => [x]
    case I8Val(x) => [Wrapped(x, 256)]
    case BoolVal(x) => [if x then 1 else 0]
    case StrVal(s) => LeBytes(|s|, 2) + s
  }

  function Count(args: Args): nat { if args.Nil? then 0 else 1 + Count(args.rest) }

  /** `args_encoded_size`. */
  function ArgsSize(args: Args): nat {
    if args.Nil? then 0 else EncodedSize(args.first) + ArgsSize(args.rest)
  }

  function Tags(args: Args): (t: seq<Byte>)
    ensures |t| == Count(args)
  {
    if args.Nil? then [] else [TypeTag(args.first)] + Tags(args.rest)
  }

  function Payloads(args: Args): (p: seq<Byte>)
    ensures |p| == ArgsSize(args)
  {
    if args.Nil? then [] else Payload(args.first) + Payloads(args.rest)
  }

  // ---------------------------------------------------------------- Messages

  const FLAG_SITE: Word16 := 1
  const FLAG_SOURCE: Word16 := 2
  const FLAG_THREAD: Word16 := 4
  const FLAG_PROCESS: Word16 := 8
  const FLAG_COMPLEX: Word16 := 16

  predicate Has(flags: nat, flag: nat) { And(flags, flag) != 0 }

  /** The sections that old records carry and the assembler never writes. */
  predicate Legacy(flags: nat) {
    Has(flags, FLAG_SOURCE) || Has(flags, FLAG_THREAD) || Has(flags, FLAG_PROCESS) || Has(flags, FLAG_COMPLEX)
  }

  /** What one logging call wants recorded. `site` is the call site's address. */
  datatype Message = Message(level: Level, flags: Word16, timestamp: Word64, site: Word64, args: Args)

  function Packed(version: nat, kind: nat, total: nat, level: nat, flags: nat): nat {
    Or(Or(Or(Or(version, Shl(kind, 8)), Shl(total, 16)), Shl(level, 32)), Shl(flags, 40))
  }

  /** The header's first word, packed with shifts and ors. */
  function HeaderWord(total: nat, level: Level, flags: nat): nat {
    Packed(VERSION, LOG_RECORD, total % 65536, LevelByte(level), flags)
  }

  /** The size the macros compute: the count is cast to u8. */
  function TotalSize(m: Message): nat { |Site(m)| + 17 + Count(m.args) % 256 + ArgsSize(m.args) }

  function Site(m: Message): seq<Byte> { if Has(m.flags, FLAG_SITE) then LeBytes(m.site, 8) else [] }

  /** Everything up to the tags. */
  function Fixed(m: Message): (b: seq<Byte>)
    ensures |b| == 17 + |Site(m)|
  {
    LeBytes(HeaderWord(TotalSize(m), m.level, m.flags), 8) + LeBytes(m.timestamp, 8) + Site(m)
    + [Count(m.args) % 256]
  }

  /** The layout the record is documented to have. */
  function WireBytes(m: Message): Record { Fixed(m) + Tags(m.args) + Payloads(m.args) }

  // ---------------------------------------------------------------- Reading

  datatype Parsed<T> = Parsed(value: T, rest: seq<Byte>)

  /** The next bytes, fewer if the record ends early. */
  function TakeBytes(b: seq<Byte>, n: nat): Parsed<seq<Byte>> {
    var k := if n <= |b| then n else |b|;
    Parsed(b[..k], b[k..])
  }

  /** The next word; zero, and nothing consumed, if the record ends early. */
  function TakeWord(b: seq<Byte>, n: nat): Parsed<nat> {
    if |b| < n then Parsed(0, b) else Parsed(LeValue(b[..n]), b[n..])
  }

  function TakeLenPrefixed(b: seq<Byte>): Parsed<seq<Byte>> {
    var len := TakeWord(b, 2);
    TakeBytes(len.rest, len.value)
  }

  /** Reads are clamped: a word that is not there reads as nought and takes nothing,
  a string that is cut off gives what there is. */
  lemma ShortReads(b: seq<Byte>, n: nat)
    requires |b| < n
    ensures TakeWord(b, n) == Parsed(0, b) && TakeBytes(b, n) == Parsed(b, [])
  {
    assert b[..|b|] == b && b[|b|..] == [];
  }

  lemma TakeBytesOf(x: seq<Byte>, rest: seq<Byte>)
    ensures TakeBytes(x + rest, |x|) == Parsed(x, rest)
  {
    assert (x + rest)[..|x|] == x && (x + rest)[|x|..] == rest;
  }

  lemma TakeWordOf(v: nat, n: nat, rest: seq<Byte>)
    requires v < Pow256(n)
    ensures TakeWord(LeBytes(v, n) + rest, n) == Parsed(v, rest)
  {
    var x := LeBytes(v, n);
    LeRoundTrip(v, n);
    assert (x + rest)[..n] == x && (x + rest)[n..] == rest;
  }

  datatype Source = Source(file: nat, len: nat, line: nat)
  datatype ThreadId = ThreadId(id: nat, name: seq<Byte>)

  datatype Sections = Sections(site: Option<nat>, source: Option<Source>, thread: Option<ThreadId>)

  /** The flagged sections, in their fixed order. */
  function TakeSections(flags: nat, b: seq<Byte>): Parsed<Sections> {
    var site := TakeWord(b, 8);
    var b1 := if Has(flags, FLAG_SITE) then site.rest else b;
    var file := TakeWord(b1, 8);
    var len := TakeWord(file.rest, 2);
    var line := TakeWord(len.rest, 4);
    var b2 := if Has(flags, FLAG_SOURCE) then line.rest else b1;
    var id := TakeWord(b2, 8);
    var name := TakeLenPrefixed(id.rest);
    var b3 := if Has(flags, FLAG_THREAD) then name.rest else b2;
    var b4 := if Has(flags, FLAG_PROCESS) then TakeBytes(b3, 4).rest else b3;
    var b5 := if Has(flags, FLAG_COMPLEX) then TakeBytes(b4, 8).rest else b4;
    Parsed(Sections(if Has(flags, FLAG_SITE) then Some(site.value) else None,
                    if Has(flags, FLAG_SOURCE) then Some(Source(file.value, len.value, line.value)) else None,
                    if Has(flags, FLAG_THREAD) then Some(ThreadId(id.value, name.value)) else None),
           b5)
  }

  datatype Prefix = Prefix(level: nat, flags: nat)

  /** The header up to the timestamp; version, type and size were checked when
  the record was framed. */
  function TakePrefix(record: seq<Byte>): Parsed<Prefix> {
    var level := TakeWord(TakeBytes(record, 4).rest, 1);
    var flags := TakeWord(level.rest, 2);
    Parsed(Prefix(level.value, flags.value), TakeBytes(flags.rest, 1).rest)
  }

  function TakeTags(b: seq<Byte>): Parsed<seq<Byte>> {
    var count := TakeWord(b, 1);
    TakeBytes(count.rest, count.value)
  }

  datatype Decoded = Decoded(
    level: Level, flags: nat, timestamp: nat, sections: Sections, tags: seq<Byte>, payload: seq<Byte>)

  function DecodeBehind(p: Prefix, b: seq<Byte>): Decoded {
    var timestamp := TakeWord(b, 8);
    var sections := TakeSections(p.flags, timestamp.rest);
    var tags := TakeTags(sections.rest);
    Decoded(LevelOf(p.level), p.flags, timestamp.value, sections.value, tags.value, tags.rest)
  }

  /** What the drain reads before it renders the line: all but the payloads. */
  function Decode(record: seq<Byte>): Decoded {
    var prefix := TakePrefix(record);
    DecodeBehind(prefix.value, prefix.rest)
  }

  /** One argument: its value, or nothing consumed for an unknown tag, or a
  payload too short for its formatter, which panics. */
  datatype ArgRead = Got(value: Value, rest: seq<Byte>) | UnknownTag | ShortPayload

  function FromFixed(tag: nat, b: seq<Byte>): Value
    requires tag < 11 && |b| == FIXED_SIZES[tag]
  {
    var w := LeValue(b);
    LeValueBound(b);
    if tag == 0 then U64Val(w)
    else if tag == 1 then I64Val(Signed(w, Pow256(8)))
    else if tag == 2 then F64Val(w)
    else if tag == 3 then U32Val(w)
    else if tag == 4 then I32Val(Signed(w, Pow256(4)))
    else if tag == 5 then F32Val(w)
    else if tag == 6 then U16Val(w)
    else if tag == 7 then I16Val(Signed(w, Pow256(2)))
    else if tag == 8 then U8Val(b[0])
    else if tag == 9 then I8Val(Signed(b[0], 256))
    else BoolVal(b[0] != 0)
  }

  lemma {:induction false} LeValueBound(b: seq<Byte>)
    ensures LeValue(b) < Pow256(|b|)
  {
    if b != [] { LeValueBound(b[1..]); }
  }

  function TakeArg(tag: nat, b: seq<Byte>): ArgRead {
    if tag == TAG_STR then
      var s := TakeLenPrefixed(b);
      Got(StrVal(s.value), s.rest)
    else if tag < |FIXED_SIZES| then
      var d := TakeBytes(b, FIXED_SIZES[tag]);
      if |d.value| < FIXED_SIZES[tag] then ShortPayload else Got(FromFixed(tag, d.value), d.rest)
    else UnknownTag
  }

  lemma WideRoundTrip(v: Value)
    requires v.U64Val? || v.I64Val? || v.F64Val?
    ensures FromFixed(TypeTag(v), Payload(v)) == v
  {
    match v
    case U64Val(x) => LeRoundTrip(x, 8);
    case I64Val(x) => LeRoundTrip(Wrapped(x, Pow256(8)), 8);
    case F64Val(x) => LeRoundTrip(x, 8);
  }

  lemma HalfRoundTrip(v: Value)
    requires v.U32Val? || v.I32Val? || v.F32Val? || v.U16Val? || v.I16Val?
    ensures FromFixed(TypeTag(v), Payload(v)) == v
  {
    match v
    case U32Val(x) => LeRoundTrip(x, 4);
    case I32Val(x) => LeRoundTrip(Wrapped(x, Pow256(4)), 4);
    case F32Val(x) => LeRoundTrip(x, 4);
    case U16Val(x) => LeRoundTrip(x, 2);
    case I16Val(x) => LeRoundTrip(Wrapped(x, Pow256(2)), 2);
  }

  lemma FixedRoundTrip(v: Value)
    requires !v.StrVal?
    ensures FIXED_SIZES[TypeTag(v)] == EncodedSize(v)
    ensures FromFixed(TypeTag(v), Payload(v)) == v
  {
    if v.U64Val? || v.I64Val? || v.F64Val? { WideRoundTrip(v); }
    else if !v.U8Val? && !v.I8Val? && !v.BoolVal? { HalfRoundTrip(v); }
  }

  /** Every value whose size fits a u16 is read back whole, and the cursor stops
  right behind it. */
  lemma ArgRoundTrip(v: Value, rest: seq<Byte>)
    requires EncodedSize(v) <= MAX_RECORD_SIZE
    ensures TakeArg(TypeTag(v), Payload(v) + rest) == Got(v, rest)
  {
    if v.StrVal? {
      assert Payload(v) + rest == LeBytes(|v.s|, 2) + (v.s + rest);
      TakeWordOf(|v.s|, 2, v.s + rest);
      TakeBytesOf(v.s, rest);
    } else {
      FixedRoundTrip(v);
      TakeBytesOf(Payload(v), rest);
    }
  }

  /** Reading as many arguments as there are tags. */
  datatype ArgsRead = All(args: Args, rest: seq<Byte>) | Stopped(at: nat)

  function TakeArgs(tags: seq<Byte>, b: seq<Byte>): ArgsRead
    decreases |tags|
  {
    if tags == [] then All(Nil, b)
    else
      var a := TakeArg(tags[0], b);
      if !a.Got? then Stopped(|tags|)
      else
        var more := TakeArgs(tags[1..], a.rest);
        if more.All? then All(Arg(a.value, more.args), more.rest) else more
  }

  lemma OneMoreArg(v: Value, tags: seq<Byte>, b: seq<Byte>, args: Args, rest: seq<Byte>)
    requires EncodedSize(v) <= MAX_RECORD_SIZE && TakeArgs(tags, b) == All(args, rest)
    ensures TakeArgs([TypeTag(v)] + tags, Payload(v) + b) == All(Arg(v, args), rest)
  {
    ArgRoundTrip(v, b);
    assert ([TypeTag(v)] + tags)[1..] == tags;
  }

  lemma {:induction false} ArgsRoundTrip(args: Args, rest: seq<Byte>)
    requires ArgsSize(args) <= MAX_RECORD_SIZE
    ensures TakeArgs(Tags(args), Payloads(args) + rest) == All(args, rest)
    decreases args
  {
    if args.Nil? {
      assert Payloads(args) + rest == rest;
    } else {
      var more := Payloads(args.rest) + rest;
      ArgsRoundTrip(args.rest, rest);
      OneMoreArg(args.first, Tags(args.rest), more, args.rest, rest);
      Assoc(Payload(args.first), Payloads(args.rest), rest);
    }
  }

  // ---------------------------------------------------------------- Round trip

  lemma LeBytesCons(lo: Byte, v: nat, n: nat)
    ensures LeBytes(lo as int + 256 * v, n + 1) == [lo] + LeBytes(v, n)
  {
    var w := lo as int + 256 * v;
    assert w % 256 == lo as int && w / 256 == v;
  }

  /** One more field: `y << k` on top of a word of `k` bits. */
  lemma PackField(x: nat, y: nat, k: nat, p: nat)
    requires p == Pow2(k) && x < p
    ensures Or(x, Shl(y, k)) == x + y * p
  {
    OrDisjoint(x, y, k);
    ShlIsTimes(y, k, p);
  }

  lemma PackKind(x: nat, y: nat)
    requires x < 256
    ensures Or(x, Shl(y, 8)) == x + y * 256
  {
    PackField(x, y, 8, 256);
  }

  lemma PackTotal(x: nat, y: nat)
    requires x < 65536
    ensures Or(x, Shl(y, 16)) == x + y * 65536
  {
    Pow2Sum(8, 8);
    PackField(x, y, 16, 65536);
  }

  lemma PackLevel(x: nat, y: nat)
    requires x < 0x1_0000_0000
    ensures Or(x, Shl(y, 32)) == x + y * 0x1_0000_0000
  {
    Pow2Sum(8, 8);
    Pow2Sum(16, 16);
    PackField(x, y, 32, 0x1_0000_0000);
  }

  lemma FortyBits() returns (k: nat)
    ensures k == 40 && Pow2(k) == 0x100_0000_0000
  {
    var a := Pow2Square(8, 256);
    var b := Pow2Square(a, 65536);
    Pow2Sum(b, 8);
    k := b + 8;
  }

  lemma PackFlags(x: nat, y: nat)
    requires x < 0x100_0000_0000
    ensures Or(x, Shl(y, 40)) == x + y * 0x100_0000_0000
  {
    var k := FortyBits();
    PackField(x, y, k, 0x100_0000_0000);
  }

  lemma PackedSum(version: Byte, kind: Byte, total: Word16, level: Byte, flags: Word16)
    ensures Packed(version, kind, total, level, flags)
            == version as int + 256 * (kind as int + 256 * (total + 65536 * (level as int + 256 * flags)))
  {
    var w1 := version as int + kind as int * 256;
    var w2 := w1 + total * 65536;
    PackKind(version, kind);
    PackTotal(w1, total);
    PackLevel(w2, level);
    PackFlags(w2 + level as int * 0x1_0000_0000, flags);
  }

  lemma LowHeaderBytes(version: Byte, kind: Byte, v: nat)
    ensures LeBytes(version as int + 256 * (kind as int + 256 * v), 8) == [version, kind] + LeBytes(v, 6)
  {
    LeBytesPair(version, kind, v, 6);
  }

  lemma HighHeaderBytes(l: Byte, flags: Word16)
    ensures LeBytes(l as int + 256 * flags, 4) == [l] + LeBytes(flags, 2) + [0]
  {
    LeBytesCons(l, flags, 3);
    LeBytesU16(flags, 0, 1);
    assert LeBytes(0, 1) == [0];
  }

  function HeaderFields(version: Byte, kind: Byte, total: Word16, level: Byte, flags: Word16): seq<Byte> {
    [version, kind] + (LeBytes(total, 2) + ([level] + LeBytes(flags, 2) + [0]))
  }

  lemma SumBytes(h: nat, version: Byte, kind: Byte, total: Word16, level: Byte, flags: Word16)
    requires h == version as int + 256 * (kind as int + 256 * (total + 65536 * (level as int + 256 * flags)))
    ensures LeBytes(h, 8) == HeaderFields(version, kind, total, level, flags)
  {
    var w := level as int + 256 * flags;
    var v := total + 65536 * w;
    assert h == version as int + 256 * (kind as int + 256 * v);
    LowHeaderBytes(version, kind, v);
    assert LeBytes(v, 6) == LeBytes(total, 2) + ([level] + LeBytes(flags, 2) + [0]) by {
      MiddleBytes(total, level, flags, w);
    }
  }

  lemma MiddleBytes(total: Word16, level: Byte, flags: Word16, w: nat)
    requires w == level as int + 256 * flags
    ensures LeBytes(total + 65536 * w, 6) == LeBytes(total, 2) + ([level] + LeBytes(flags, 2) + [0])
  {
    LeBytesU16(total, w, 4);
    HighHeaderBytes(level, flags);
  }

  /** The packed word has every field at its documented byte. */
  lemma PackedBytes(version: Byte, kind: Byte, total: Word16, level: Byte, flags: Word16)
    ensures LeBytes(Packed(version, kind, total, level, flags), 8)
            == HeaderFields(version, kind, total, level, flags)
  {
    PackedSum(version, kind, total, level, flags);
    SumBytes(Packed(version, kind, total, level, flags), version, kind, total, level, flags);
  }

  lemma LeBytesU16(x: Word16, v: nat, n: nat)
    ensures LeBytes(x + 65536 * v, n + 2) == LeBytes(x, 2) + LeBytes(v, n)
  {
    LeBytesPair(x % 256, x / 256, v, n);
    WordBytes(x);
  }

  lemma LeBytesPair(lo: Byte, hi: Byte, v: nat, n: nat)
    ensures LeBytes(lo as int + 256 * (hi as int + 256 * v), n + 2) == [lo, hi] + LeBytes(v, n)
  {
    LeBytesCons(lo, hi as int + 256 * v, n + 1);
    LeBytesCons(hi, v, n);
  }

  lemma WordBytes(x: Word16)
    ensures LeBytes(x, 2) == [x % 256, x / 256]
  {
  }

  lemma FieldsDecode(version: Byte, kind: Byte, total: Word16, level: Byte, flags: Word16, rest: seq<Byte>)
    ensures TakePrefix(HeaderFields(version, kind, total, level, flags) + rest) == Parsed(Prefix(level, flags), rest)
  {
    var b1 := [0] + rest;
    var b2 := LeBytes(flags, 2) + b1;
    var b3 := [level] + b2;
    var skipped := [version, kind] + LeBytes(total, 2);
    assert HeaderFields(version, kind, total, level, flags) + rest == skipped + b3;
    TakeBytesOf(skipped, b3);
    ByteWord(level, b2);
    TakeWordOf(flags, 2, b1);
    TakeBytesOf([0], rest);
  }

  lemma ByteWord(x: Byte, rest: seq<Byte>)
    ensures TakeWord([x] + rest, 1) == Parsed(x, rest)
  {
    assert LeBytes(x, 1) == [x];
    TakeWordOf(x, 1, rest);
  }

  function SiteSection(m: Message): Sections {
    Sections(if Has(m.flags, FLAG_SITE) then Some(m.site) else None, None, None)
  }

  lemma SectionsDecode(m: Message, rest: seq<Byte>)
    requires !Legacy(m.flags)
    ensures TakeSections(m.flags, Site(m) + rest) == Parsed(SiteSection(m), rest)
  {
    if Has(m.flags, FLAG_SITE) { TakeWordOf(m.site, 8, rest); } else { assert [] + rest == rest; }
  }

  lemma RestDecodes(m: Message, n: Byte, rest: seq<Byte>)
    requires !Legacy(m.flags)
    ensures var tags := TakeBytes(rest, n);
            DecodeBehind(Prefix(LevelByte(m.level), m.flags), LeBytes(m.timestamp, 8) + (Site(m) + ([n] + rest)))
            == Decoded(m.level, m.flags, m.timestamp, SiteSection(m), tags.value, tags.rest)
  {
    TakeWordOf(m.timestamp, 8, Site(m) + ([n] + rest));
    SectionsDecode(m, [n] + rest);
    ByteWord(n, rest);
  }

  lemma FixedSplit(h: seq<Byte>, t: seq<Byte>, s: seq<Byte>, n: seq<Byte>, rest: seq<Byte>)
    ensures h + t + s + n + rest == h + (t + (s + (n + rest)))
  {
  }

  lemma DecodesWith(m: Message, h: seq<Byte>, n: Byte, rest: seq<Byte>)
    requires !Legacy(m.flags)
    requires var b0 := LeBytes(m.timestamp, 8) + (Site(m) + ([n] + rest));
             TakePrefix(h + b0) == Parsed(Prefix(LevelByte(m.level), m.flags), b0)
    ensures var tags := TakeBytes(rest, n);
            Decode(h + LeBytes(m.timestamp, 8) + Site(m) + [n] + rest)
            == Decoded(m.level, m.flags, m.timestamp, SiteSection(m), tags.value, tags.rest)
  {
    RestDecodes(m, n, rest);
    FixedSplit(h, LeBytes(m.timestamp, 8), Site(m), [n], rest);
  }

  lemma HeadFields(total: Word16, level: Level, flags: Word16)
    ensures LeBytes(HeaderWord(total, level, flags), 8)
            == HeaderFields(VERSION, LOG_RECORD, total, LevelByte(level), flags)
  {
    var cut := total % 65536;
    assert cut == total;
    PackedBytes(VERSION, LOG_RECORD, cut, LevelByte(level), flags);
  }

  /** The fixed part is the header's fields, the timestamp, the site and the count. */
  lemma HeadOf(m: Message) returns (h: seq<Byte>)
    requires TotalSize(m) <= MAX_RECORD_SIZE
    ensures h == HeaderFields(VERSION, LOG_RECORD, TotalSize(m), LevelByte(m.level), m.flags)
    ensures Fixed(m) == h + LeBytes(m.timestamp, 8) + Site(m) + [Count(m.args) % 256]
  {
    h := LeBytes(HeaderWord(TotalSize(m), m.level, m.flags), 8);
    HeadFields(TotalSize(m), m.level, m.flags);
  }

  lemma FieldsDecodeWith(m: Message, total: Word16, h: seq<Byte>, n: Byte, rest: seq<Byte>)
    requires !Legacy(m.flags) && h == HeaderFields(VERSION, LOG_RECORD, total, LevelByte(m.level), m.flags)
    ensures var tags := TakeBytes(rest, n);
            Decode(h + LeBytes(m.timestamp, 8) + Site(m) + [n] + rest)
            == Decoded(m.level, m.flags, m.timestamp, SiteSection(m), tags.value, tags.rest)
  {
    FieldsDecode(VERSION, LOG_RECORD, total, LevelByte(m.level), m.flags,
                 LeBytes(m.timestamp, 8) + (Site(m) + ([n] + rest)));
    DecodesWith(m, h, n, rest);
  }

  /** Whatever follows the fixed part, the drain reads that part back exactly
  and takes the next bytes, as many as the count byte says, for tags. */
  lemma FixedDecodes(m: Message, rest: seq<Byte>)
    requires TotalSize(m) <= MAX_RECORD_SIZE && !Legacy(m.flags)
    ensures var tags := TakeBytes(rest, Count(m.args) % 256);
            Decode(Fixed(m) + rest)
            == Decoded(m.level, m.flags, m.timestamp, SiteSection(m), tags.value, tags.rest)
  {
    var h := HeadOf(m);
    FieldsDecodeWith(m, TotalSize(m), h, Count(m.args) % 256, rest);
  }

  lemma FieldsFrame(h: seq<Byte>, total: Word16, level: Byte, flags: Word16, more: seq<Byte>)
    requires h == HeaderFields(VERSION, LOG_RECORD, total, level, flags) && |more| == total - 8 >= 8
    ensures ValidRecord(h + more)
  {
    WordBytes(total);
    assert h[0] == VERSION && h[1] == LOG_RECORD && h[2] == total % 256 && h[3] == total / 256;
  }

  lemma FramesWith(h: seq<Byte>, t: seq<Byte>, site: seq<Byte>, n: Byte, rest: seq<Byte>,
                   total: Word16, level: Byte, flags: Word16)
    requires h == HeaderFields(VERSION, LOG_RECORD, total, level, flags) && |t| == 8
    requires |rest| == total - 17 - |site|
    ensures ValidRecord(h + t + site + [n] + rest)
  {
    FixedSplit(h, t, site, [n], rest);
    FieldsFrame(h, total, level, flags, t + (site + ([n] + rest)));
  }

  /** The assembled record frames itself: the drain's length check accepts it. */
  lemma FixedFrames(m: Message, rest: seq<Byte>)
    requires TotalSize(m) <= MAX_RECORD_SIZE && |rest| == TotalSize(m) - |Fixed(m)|
    ensures ValidRecord(Fixed(m) + rest)
  {
    var h := HeadOf(m);
    FramesWith(h, LeBytes(m.timestamp, 8), Site(m), Count(m.args) % 256, rest,
               TotalSize(m), LevelByte(m.level), m.flags);
  }

  /** The tags and payloads behind the count byte come apart again. */
  lemma TailDecodes(args: Args)
    requires ArgsSize(args) <= MAX_RECORD_SIZE
    ensures TakeBytes(Tags(args) + Payloads(args), Count(args)) == Parsed(Tags(args), Payloads(args))
    ensures TakeArgs(Tags(args), Payloads(args)) == All(args, [])
  {
    TakeBytesOf(Tags(args), Payloads(args));
    ArgsRoundTrip(args, []);
    assert Payloads(args) + [] == Payloads(args);
  }

  lemma WireSplit(m: Message)
    requires Count(m.args) <= 255
    ensures WireBytes(m) == Fixed(m) + (Tags(m.args) + Payloads(m.args)) && |WireBytes(m)| == TotalSize(m)
  {
    Assoc(Fixed(m), Tags(m.args), Payloads(m.args));
  }

  /** Decoding undoes encoding: every field and every argument comes back and
  reading the arguments ends exactly at the end of the record. */
  lemma RoundTrip(m: Message)
    requires TotalSize(m) <= MAX_RECORD_SIZE && !Legacy(m.flags) && Count(m.args) <= 255
    ensures ValidRecord(WireBytes(m)) && |WireBytes(m)| == TotalSize(m)
    ensures var d := Decode(WireBytes(m));
            && d.level == m.level && d.flags == m.flags && d.timestamp == m.timestamp
            && d.sections == SiteSection(m) && d.tags == Tags(m.args) && d.payload == Payloads(m.args)
            && TakeArgs(d.tags, d.payload) == All(m.args, [])
  {
    WireSplit(m);
    FixedFrames(m, Tags(m.args) + Payloads(m.args));
    FixedDecodes(m, Tags(m.args) + Payloads(m.args));
    TailDecodes(m.args);
  }

  // ---------------------------------------------------------------- Codes

  /** The type tags and the widths behind them. */
  lemma TagCodes(v: Value)
    ensures TypeTag(v) as int == match v
                                 case U64Val(_) => 0 case I64Val(_) => 1 case F64Val(_) => 2
                                 case U32Val(_) => 3 case I32Val(_) => 4 case F32Val(_) => 5
                                 case U16Val(_) => 6 case I16Val(_) => 7
                                 case U8Val(_) => 8 case I8Val(_) => 9
                                 case BoolVal(_) => 10 case StrVal(_) => 11
    ensures FIXED_SIZES == [8, 8, 8, 4, 4, 4, 2, 2, 1, 1, 1, 0]
  {
  }

  /** Any byte but nought reads as true. */
  lemma BoolsRead(b: Byte, rest: seq<Byte>)
    ensures TakeArg(10, [b] + rest) == Got(BoolVal(b != 0), rest)
  {
    TakeBytesOf([b], rest);
  }

  /** The levels by their codes; any other code reads as an error. */
  lemma LevelCodes(l: Level, b: nat)
    ensures LevelByte(l) as int == match l case Error => 1 case Warn => 2 case Info => 3 case Debug => 4 case Trace => 5
    ensures LevelOf(LevelByte(l)) == l
    ensures !(1 <= b <= 5) ==> LevelOf(b) == Error
  {
  }

  /** The payloads: numbers in two's complement, a bool as one or nought, a string
  behind its length. */
  lemma PayloadIs(v: Value)
    ensures Payload(v) == match v
                          case U64Val(x) => LeBytes(x, 8)
                          case I64Val(x) => LeBytes(if x < 0 then x + 0x1_0000_0000_0000_0000 else x, 8)
                          case F64Val(x) => LeBytes(x, 8)
                          case U32Val(x) => LeBytes(x, 4)
                          case I32Val(x) => LeBytes(if x < 0 then x + 0x1_0000_0000 else x, 4)
                          case F32Val(x) => LeBytes(x, 4)
                          case U16Val(x) => LeBytes(x, 2)
                          case I16Val(x) => LeBytes(if x < 0 then x + 0x1_0000 else x, 2)
                          case U8Val(x) => [x]
                          case I8Val(x) => [if x < 0 then x + 256 else x]
                          case BoolVal(x) => [if x then 1 else 0]
                          case StrVal(s) => LeBytes(|s|, 2) + s
  {
    assert Pow256(2) == 0x1_0000 && Pow256(4) == 0x1_0000_0000 && Pow256(8) == 0x1_0000_0000_0000_0000;
  }

  /** Each flag is one bit of the word. */
  lemma FlagBits(f: nat)
    ensures Has(f, FLAG_SITE) <==> f % 2 == 1
    ensures Has(f, FLAG_SOURCE) <==> f / 2 % 2 == 1
    ensures Has(f, FLAG_THREAD) <==> f / 4 % 2 == 1
    ensures Has(f, FLAG_PROCESS) <==> f / 8 % 2 == 1
    ensures Has(f, FLAG_COMPLEX) <==> f / 16 % 2 == 1
  {
    LowBits(f);
    LowBits(f / 4);
    HighBits(f);
  }

  lemma LowBits(f: nat)
    ensures And(f, 1) != 0 <==> f % 2 == 1
    ensures And(f, 2) != 0 <==> f / 2 % 2 == 1
    ensures And(f, 4) != 0 <==> f / 4 % 2 == 1
  {
    LowBit(f);
    LowBit(f / 2);
    LowBit(f / 4);
    NextBit(f, 1);
    NextBit(f, 2);
    NextBit(f / 2, 1);
  }

  lemma HighBits(f: nat)
    ensures And(f, 8) != 0 <==> And(f / 4, 2) != 0
    ensures And(f, 16) != 0 <==> And(f / 4, 4) != 0
  {
    NextBit(f, 4);
    NextBit(f / 2, 2);
    NextBit(f, 8);
    NextBit(f / 2, 4);
  }

  lemma LowBit(f: nat)
    ensures And(f, 1) != 0 <==> f % 2 == 1
  {
    assert And(f / 2, 0) == 0;
  }

  lemma NextBit(f: nat, p: nat)
    requires p > 0
    ensures And(f, 2 * p) != 0 <==> And(f / 2, p) != 0
  {
  }

  /** The fixed part of a record, byte by byte. */
  lemma FixedIs(m: Message)
    requires TotalSize(m) <= MAX_RECORD_SIZE
    ensures var total := TotalSize(m);
            var site := if m.flags % 2 == 1 then LeBytes(m.site, 8) else [];
            && total == 17 + |site| + Count(m.args) % 256 + ArgsSize(m.args)
            && Fixed(m)
               == [2, 1, total % 256, total / 256, LevelByte(m.level), m.flags % 256, m.flags / 256, 0]
                  + LeBytes(m.timestamp, 8) + site + [Count(m.args) % 256]
  {
    var h := HeadOf(m);
    FlagBits(m.flags);
    WordBytes(TotalSize(m));
    WordBytes(m.flags);
    assert h == [2, 1, TotalSize(m) % 256, TotalSize(m) / 256, LevelByte(m.level), m.flags % 256, m.flags / 256, 0];
  }

  // ---------------------------------------------------------------- Older records

  /** A record as older versions wrote it, with any of the five sections. */
  datatype OldRecord = OldRecord(
    total: Word16, level: Level, flags: Word16, timestamp: Word64, site: Word64,
    file: Word64, len: Word16, line: Word32, thread: Word64, name: seq<Byte>,
    process: seq<Byte>, complex: seq<Byte>, tags: seq<Byte>, payload: seq<Byte>)

  predicate ValidOld(o: OldRecord) {
    |o.name| < 0x1_0000 && |o.process| == 4 && |o.complex| == 8 && |o.tags| < 256
  }

  function If(b: bool, s: seq<Byte>): seq<Byte> { if b then s else [] }

  /** The documented layout: the sections in order, each if its bit is set. */
  function OldSections(o: OldRecord, rest: seq<Byte>): seq<Byte> {
    If(o.flags % 2 == 1, LeBytes(o.site, 8))
    + (If(o.flags / 2 % 2 == 1, LeBytes(o.file, 8) + (LeBytes(o.len, 2) + LeBytes(o.line, 4)))
       + (If(o.flags / 4 % 2 == 1, LeBytes(o.thread, 8) + (LeBytes(|o.name|, 2) + o.name))
          + (If(o.flags / 8 % 2 == 1, o.process) + (If(o.flags / 16 % 2 == 1, o.complex) + rest))))
  }

  function OldBytes(o: OldRecord): seq<Byte>
    requires ValidOld(o)
  {
    [2, 1] + (LeBytes(o.total, 2) + ([LevelByte(o.level)] + LeBytes(o.flags, 2) + [0]))
    + (LeBytes(o.timestamp, 8) + OldSections(o, [|o.tags|] + (o.tags + o.payload)))
  }

  lemma SourceTaken(file: Word64, len: Word16, line: Word32, rest: seq<Byte>)
    ensures var b := (LeBytes(file, 8) + (LeBytes(len, 2) + LeBytes(line, 4))) + rest;
            var f := TakeWord(b, 8);
            var l := TakeWord(f.rest, 2);
            f.value == file && l.value == len && TakeWord(l.rest, 4) == Parsed(line, rest)
  {
    var b2 := LeBytes(line, 4) + rest;
    var b1 := LeBytes(len, 2) + b2;
    assert (LeBytes(file, 8) + (LeBytes(len, 2) + LeBytes(line, 4))) + rest == LeBytes(file, 8) + b1;
    TakeWordOf(file, 8, b1);
    TakeWordOf(len, 2, b2);
    TakeWordOf(line, 4, rest);
  }

  lemma NameTaken(name: seq<Byte>, n: Word16, rest: seq<Byte>)
    requires n == |name|
    ensures TakeLenPrefixed(LeBytes(n, 2) + (name + rest)) == Parsed(name, rest)
  {
    TakeWordOf(n, 2, name + rest);
    TakeBytesOf(name, rest);
  }

  lemma ThreadTaken(id: Word64, name: seq<Byte>, rest: seq<Byte>)
    requires |name| < 0x1_0000
    ensures var b := (LeBytes(id, 8) + (LeBytes(|name|, 2) + name)) + rest;
            var w := TakeWord(b, 8);
            w.value == id && TakeLenPrefixed(w.rest) == Parsed(name, rest)
  {
    var b1 := LeBytes(|name|, 2) + (name + rest);
    Assoc(LeBytes(id, 8), LeBytes(|name|, 2) + name, rest);
    Assoc(LeBytes(|name|, 2), name, rest);
    TakeWordOf(id, 8, b1);
    NameTaken(name, |name|, rest);
  }

  function OldFound(o: OldRecord): Sections {
    Sections(if o.flags % 2 == 1 then Some(o.site) else None,
             if o.flags / 2 % 2 == 1 then Some(Source(o.file, o.len, o.line)) else None,
             if o.flags / 4 % 2 == 1 then Some(ThreadId(o.thread, o.name)) else None)
  }

  lemma SkipTaken(b: bool, s: seq<Byte>, rest: seq<Byte>)
    ensures (if b then TakeBytes(If(b, s) + rest, |s|).rest else If(b, s) + rest) == rest
  {
    TakeBytesOf(s, rest);
    assert [] + rest == rest;
  }

  /** The sections, one after the other. */
  lemma SectionsTaken(flags: nat, b: seq<Byte>, site: nat, b1: seq<Byte>, source: Source, b2: seq<Byte>,
                      thread: ThreadId, b3: seq<Byte>, b4: seq<Byte>, rest: seq<Byte>)
    requires if Has(flags, FLAG_SITE) then TakeWord(b, 8) == Parsed(site, b1) else b1 == b
    requires if Has(flags, FLAG_SOURCE)
             then var f := TakeWord(b1, 8);
                  var l := TakeWord(f.rest, 2);
                  f.value == source.file && l.value == source.len && TakeWord(l.rest, 4) == Parsed(source.line, b2)
             else b2 == b1
    requires if Has(flags, FLAG_THREAD)
             then var w := TakeWord(b2, 8);
                  w.value == thread.id && TakeLenPrefixed(w.rest) == Parsed(thread.name, b3)
             else b3 == b2
    requires (if Has(flags, FLAG_PROCESS) then TakeBytes(b3, 4).rest else b3) == b4
    requires (if Has(flags, FLAG_COMPLEX) then TakeBytes(b4, 8).rest else b4) == rest
    ensures TakeSections(flags, b)
            == Parsed(Sections(if Has(flags, FLAG_SITE) then Some(site) else None,
                               if Has(flags, FLAG_SOURCE) then Some(source) else None,
                               if Has(flags, FLAG_THREAD) then Some(thread) else None), rest)
  {
  }

  lemma SiteIf(o: OldRecord, rest: seq<Byte>)
    ensures var b := If(o.flags % 2 == 1, LeBytes(o.site, 8)) + rest;
            if o.flags % 2 == 1 then TakeWord(b, 8) == Parsed(o.site, rest) else b == rest
  {
    TakeWordOf(o.site, 8, rest);
    assert [] + rest == rest;
  }

  lemma SourceIf(o: OldRecord, rest: seq<Byte>)
    ensures var b := If(o.flags / 2 % 2 == 1, LeBytes(o.file, 8) + (LeBytes(o.len, 2) + LeBytes(o.line, 4))) + rest;
            if o.flags / 2 % 2 == 1
            then var f := TakeWord(b, 8);
                 var l := TakeWord(f.rest, 2);
                 f.value == o.file && l.value == o.len && TakeWord(l.rest, 4) == Parsed(o.line, rest)
            else b == rest
  {
    SourceTaken(o.file, o.len, o.line, rest);
    assert [] + rest == rest;
  }

  lemma ThreadIf(o: OldRecord, rest: seq<Byte>)
    requires ValidOld(o)
    ensures var b := If(o.flags / 4 % 2 == 1, LeBytes(o.thread, 8) + (LeBytes(|o.name|, 2) + o.name)) + rest;
            if o.flags / 4 % 2 == 1
            then var w := TakeWord(b, 8);
                 w.value == o.thread && TakeLenPrefixed(w.rest) == Parsed(o.name, rest)
            else b == rest
  {
    ThreadTaken(o.thread, o.name, rest);
    assert [] + rest == rest;
  }

  lemma OldSectionsDecode(o: OldRecord, rest: seq<Byte>)
    requires ValidOld(o)
    ensures TakeSections(o.flags, OldSections(o, rest)) == Parsed(OldFound(o), rest)
  {
    FlagBits(o.flags);
    var b4 := If(o.flags / 16 % 2 == 1, o.complex) + rest;
    var b3 := If(o.flags / 8 % 2 == 1, o.process) + b4;
    var b2 := If(o.flags / 4 % 2 == 1, LeBytes(o.thread, 8) + (LeBytes(|o.name|, 2) + o.name)) + b3;
    var b1 := If(o.flags / 2 % 2 == 1, LeBytes(o.file, 8) + (LeBytes(o.len, 2) + LeBytes(o.line, 4))) + b2;
    SiteIf(o, b1);
    SourceIf(o, b2);
    ThreadIf(o, b3);
    SkipTaken(o.flags / 8 % 2 == 1, o.process, b4);
    SkipTaken(o.flags / 16 % 2 == 1, o.complex, rest);
    SectionsTaken(o.flags, OldSections(o, rest), o.site, b1, Source(o.file, o.len, o.line), b2,
                  ThreadId(o.thread, o.name), b3, b4, rest);
  }

  /** Every older record is read as its layout says, whichever sections it has. */
  lemma OldRecordsDecode(o: OldRecord)
    requires ValidOld(o)
    ensures Decode(OldBytes(o)) == Decoded(o.level, o.flags, o.timestamp, OldFound(o), o.tags, o.payload)
  {
    var b2 := [|o.tags|] + (o.tags + o.payload);
    var b1 := LeBytes(o.timestamp, 8) + OldSections(o, b2);
    FieldsDecode(2, 1, o.total, LevelByte(o.level), o.flags, b1);
    LevelCodes(o.level, 0);
    TakeWordOf(o.timestamp, 8, OldSections(o, b2));
    OldSectionsDecode(o, b2);
    ByteWord(|o.tags|, o.tags + o.payload);
    TakeBytesOf(o.tags, o.payload);
  }

  // ---------------------------------------------------------------- Writing

  /** What `write_args` leaves in the buffer, store by store: each tag at the tag
  cursor, each payload at the payload cursor, overlapping or not. */
  function ArgsWritten(s: seq<Byte>, args: Args, tag: nat, pay: nat): (r: seq<Byte>)
    requires tag + Count(args) <= |s| && pay + ArgsSize(args) <= |s|
    ensures |r| == |s|
    decreases args
  {
    match args
    case Nil => s
    case Arg(v, rest) =>
      ArgsWritten(Splice(Splice(s, tag, [TypeTag(v)]), pay, Payload(v)), rest, tag + 1, pay + EncodedSize(v))
  }

  lemma SpliceTwice(s: seq<Byte>, t: nat, a: seq<Byte>, a': seq<Byte>, p: nat, b: seq<Byte>, b': seq<Byte>)
    requires t + |a| + |a'| <= p && p + |b| + |b'| <= |s|
    ensures Splice(Splice(Splice(Splice(s, t, a), p, b), t + |a|, a'), p + |b|, b')
            == Splice(Splice(s, t, a + a'), p, b + b')
  {
    var l := Splice(Splice(Splice(Splice(s, t, a), p, b), t + |a|, a'), p + |b|, b');
    var r := Splice(Splice(s, t, a + a'), p, b + b');
    assert forall i | 0 <= i < |s| :: l[i] == r[i];
  }

  /** If the tags stop before the payloads start, both are stored whole. */
  lemma {:induction false} ArgsWrittenApart(s: seq<Byte>, args: Args, tag: nat, pay: nat)
    requires tag + Count(args) <= pay && pay + ArgsSize(args) <= |s|
    ensures ArgsWritten(s, args, tag, pay) == Splice(Splice(s, tag, Tags(args)), pay, Payloads(args))
    decreases args
  {
    match args
    case Nil =>
    case Arg(v, rest) =>
      var s' := Splice(Splice(s, tag, [TypeTag(v)]), pay, Payload(v));
      ArgsWrittenApart(s', rest, tag + 1, pay + EncodedSize(v));
      SpliceTwice(s, tag, [TypeTag(v)], Tags(rest), pay, Payload(v), Payloads(rest));
      assert Tags(args) == [TypeTag(v)] + Tags(rest) && Payloads(args) == Payload(v) + Payloads(rest);
  }

  /** Nothing before the first tag is touched. */
  lemma {:induction false} ArgsWrittenPrefix(s: seq<Byte>, args: Args, tag: nat, pay: nat, from: nat)
    requires tag + Count(args) <= |s| && pay + ArgsSize(args) <= |s| && from <= tag && from <= pay
    ensures ArgsWritten(s, args, tag, pay)[..from] == s[..from]
    decreases args
  {
    match args
    case Nil =>
    case Arg(v, rest) =>
      var s' := Splice(Splice(s, tag, [TypeTag(v)]), pay, Payload(v));
      ArgsWrittenPrefix(s', rest, tag + 1, pay + EncodedSize(v), from);
      assert s'[..from] == s[..from];
  }

  lemma {:induction false} EveryArgHasABody(args: Args)
    ensures Count(args) <= ArgsSize(args)
  {
    if args.Arg? { EveryArgHasABody(args.rest); }
  }

  /** What `assemble` leaves in a slot that held `s`. */
  function Assembled(m: Message, s: seq<Byte>): (r: Record)
    requires |s| == TotalSize(m)
    ensures |r| == |s|
  {
    EveryArgHasABody(m.args);
    ArgsWritten(Splice(s, 0, Fixed(m)), m.args, |Fixed(m)|, |Fixed(m)| + Count(m.args) % 256)
  }

  lemma SpliceFront(s: seq<Byte>, f: seq<Byte>)
    requires |f| <= |s|
    ensures Splice(s, 0, f)[..|f|] == f
  {
  }

  lemma WrittenWhole(f: seq<Byte>, args: Args, s: seq<Byte>, p: nat, r: seq<Byte>)
    requires p == |f| + Count(args) && |s| == p + ArgsSize(args) && s[..|f|] == f
    requires r == ArgsWritten(s, args, |f|, p)
    ensures r == f + Tags(args) + Payloads(args)
  {
    var a, b := Tags(args), Payloads(args);
    assert r == Splice(Splice(s, |f|, a), p, b) by { ArgsWrittenApart(s, args, |f|, p); }
    SpliceRest(f, s, a, p, b, r);
  }

  lemma SpliceRest(f: seq<Byte>, s: seq<Byte>, a: seq<Byte>, p: nat, b: seq<Byte>, r: seq<Byte>)
    requires p == |f| + |a| && |s| == p + |b| && s[..|f|] == f && r == Splice(Splice(s, |f|, a), p, b)
    ensures r == f + a + b
  {
    assert forall i | 0 <= i < |f| :: r[i] == s[..|f|][i];
    assert forall i | 0 <= i < |s| :: r[i] == (f + a + b)[i];
  }

  /** Up to 255 arguments, every byte of the slot is overwritten and the slot
  holds the documented layout. */
  lemma AssembledIsWire(m: Message, s: seq<Byte>)
    requires |s| == TotalSize(m) && Count(m.args) <= 255
    ensures Assembled(m, s) == WireBytes(m)
  {
    SpliceFront(s, Fixed(m));
    WrittenWhole(Fixed(m), m.args, Splice(s, 0, Fixed(m)), |Fixed(m)| + Count(m.args), Assembled(m, s));
  }

  lemma WrittenPrefix(f: seq<Byte>, args: Args, n: nat, s: seq<Byte>) returns (rest: seq<Byte>)
    requires |f| + Count(args) <= |s| && |f| + n + ArgsSize(args) <= |s|
    ensures ArgsWritten(Splice(s, 0, f), args, |f|, |f| + n) == f + rest && |rest| == |s| - |f|
  {
    var s1 := Splice(s, 0, f);
    var r := ArgsWritten(s1, args, |f|, |f| + n);
    ArgsWrittenPrefix(s1, args, |f|, |f| + n, |f|);
    rest := r[|f|..];
    assert s1[..|f|] == f;
    assert r == r[..|f|] + r[|f|..];
  }

  /** Any number of arguments: the fixed part survives, so the record stays framed. */
  lemma AssembledFrames(m: Message, s: seq<Byte>) returns (rest: seq<Byte>)
    requires |s| == TotalSize(m) <= MAX_RECORD_SIZE
    ensures Assembled(m, s) == Fixed(m) + rest && |rest| == TotalSize(m) - |Fixed(m)|
    ensures ValidRecord(Assembled(m, s))
  {
    EveryArgHasABody(m.args);
    rest := WrittenPrefix(Fixed(m), m.args, Count(m.args) % 256, s);
    FixedFrames(m, rest);
  }

  lemma {:induction false} TakeArgsCount(tags: seq<Byte>, b: seq<Byte>)
    ensures TakeArgs(tags, b).All? ==> Count(TakeArgs(tags, b).args) == |tags|
    decreases |tags|
  {
    if tags != [] && TakeArg(tags[0], b).Got? { TakeArgsCount(tags[1..], TakeArg(tags[0], b).rest); }
  }

  /** The record gives the arguments back, ending exactly at its end, if and only
  if there are at most 255 of them: the count byte holds no more. */
  lemma RoundTripIff(m: Message, s: seq<Byte>)
    requires |s| == TotalSize(m) <= MAX_RECORD_SIZE && !Legacy(m.flags)
    ensures var d := Decode(Assembled(m, s));
            && d.level == m.level && d.flags == m.flags && d.timestamp == m.timestamp
            && d.sections == SiteSection(m)
            && (TakeArgs(d.tags, d.payload) == All(m.args, []) <==> Count(m.args) <= 255)
  {
    if Count(m.args) <= 255 {
      AssembledIsWire(m, s);
      RoundTrip(m);
    } else {
      var rest := AssembledFrames(m, s);
      FixedDecodes(m, rest);
      var d := Decode(Assembled(m, s));
      TakeArgsCount(d.tags, d.payload);
    }
  }

  method WriteBytes(buf: array<Byte>, at: nat, b: seq<Byte>)
    requires at + |b| <= buf.Length
    modifies buf
    ensures buf[..] == Splice(old(buf[..]), at, b)
  {
    for i := 0 to |b|
      invariant forall k | 0 <= k < buf.Length ::
                  buf[k] == if at <= k < at + i then b[k - at] else old(buf[k])
    {
      buf[at + i] := b[i];
    }
  }

  /** `write_args`: walks the cons-list, advancing both cursors. */
  method WriteArgs(args: Args, buf: array<Byte>, tag0: nat, pay0: nat) returns (tag: nat, pay: nat)
    requires tag0 + Count(args) <= buf.Length && pay0 + ArgsSize(args) <= buf.Length
    modifies buf
    ensures buf[..] == ArgsWritten(old(buf[..]), args, tag0, pay0)
    ensures tag == tag0 + Count(args) && pay == pay0 + ArgsSize(args)
    decreases args
  {
    tag, pay := tag0, pay0;
    match args {
      case Nil =>
      case Arg(v, rest) =>
        WriteBytes(buf, tag, [TypeTag(v)]);
        WriteBytes(buf, pay, Payload(v));
        tag, pay := WriteArgs(rest, buf, tag + 1, pay + EncodedSize(v));
    }
  }

  /** The header words, the site and the count. */
  method WriteFixed(buf: array<Byte>, m: Message) returns (pos: nat)
    requires buf.Length == TotalSize(m)
    modifies buf
    ensures pos == |Fixed(m)| <= buf.Length && buf[..] == Splice(old(buf[..]), 0, Fixed(m))
  {
    ghost var s := buf[..];
    ghost var h, t := LeBytes(HeaderWord(TotalSize(m), m.level, m.flags), 8), LeBytes(m.timestamp, 8);
    WriteBytes(buf, 0, LeBytes(HeaderWord(buf.Length, m.level, m.flags), 8));
    WriteBytes(buf, 8, LeBytes(m.timestamp, 8));
    SpliceNext(s, 0, h, t);
    pos := 16;
    if Has(m.flags, FLAG_SITE) {
      WriteBytes(buf, pos, LeBytes(m.site, 8));
      SpliceNext(s, 0, h + t, Site(m));
      pos := pos + 8;
    }
    assert buf[..] == Splice(s, 0, h + t + Site(m));
    var n := Count(m.args) % 256;
    WriteBytes(buf, pos, [n]);
    SpliceNext(s, 0, h + t + Site(m), [n]);
    pos := pos + 1;
  }

  /** `assemble`, header words first, then the site, the count and the arguments. */
  method Assemble(buf: array<Byte>, m: Message)
    requires buf.Length == TotalSize(m) <= MAX_RECORD_SIZE
    modifies buf
    ensures buf[..] == Assembled(m, old(buf[..]))
  {
    EveryArgHasABody(m.args);
    var pos := WriteFixed(buf, m);
    var tag, pay := WriteArgs(m.args, buf, pos, pos + Count(m.args) % 256);
  }

  /** One logging call: too large a record is dropped, any other is assembled,
  framed, and, with up to 255 arguments, decodes to what was logged. */
  method Encode(m: Message) returns (out: Option<Record>)
    ensures out.None? <==> TotalSize(m) > 65535
    ensures out.Some? ==> ValidRecord(out.value)
    ensures out.Some? && Count(m.args) <= 255 ==> out.value == WireBytes(m)
  {
    var total := TotalSize(m);
    if total > MAX_RECORD_SIZE { return None; }
    var buf := new Byte[total](_ => 0);
    ghost var s := buf[..];
    Assemble(buf, m);
    ghost var rest := AssembledFrames(m, s);
    if Count(m.args) <= 255 { AssembledIsWire(m, s); }
    return Some(buf[..]);
  }

  // ---------------------------------------------------------------- Cursor

  /** The drain's reader over one record: every read is clamped to its end. */
  class Cursor {
    const record: seq<Byte>
    var ptr: nat

    ghost predicate Valid()
      reads this
    {
      ptr <= |record|
    }

    function Rest(): seq<Byte>
      requires Valid()
      reads this
    {
      record[ptr..]
    }

    constructor (r: seq<Byte>)
      ensures Valid() && record == r && ptr == 0 && Rest() == r
    {
      record, ptr := r, 0;
    }

    method ReadWord(n: nat) returns (w: nat)
      requires Valid()
      modifies this
      ensures Valid() && Parsed(w, Rest()) == TakeWord(old(Rest()), n)
    {
      if |record| - ptr < n { return 0; }
      assert record[ptr..ptr + n] == Rest()[..n];
      w := LeValue(record[ptr..ptr + n]);
      ptr := ptr + n;
    }

    method ReadBytes(n: nat) returns (b: seq<Byte>)
      requires Valid()
      modifies this
      ensures Valid() && Parsed(b, Rest()) == TakeBytes(old(Rest()), n)
    {
      var k := if n <= |record| - ptr then n else |record| - ptr;
      b := record[ptr..ptr + k];
      assert b == Rest()[..k];
      ptr := ptr + k;
    }

    method Skip(n: nat)
      requires Valid()
      modifies this
      ensures Valid() && Rest() == TakeBytes(old(Rest()), n).rest
    {
      var b := ReadBytes(n);
    }

    method ReadLenPrefixed() returns (b: seq<Byte>)
      requires Valid()
      modifies this
      ensures Valid() && Parsed(b, Rest()) == TakeLenPrefixed(old(Rest()))
    {
      var len := ReadWord(2);
      b := ReadBytes(len);
    }

    method ReadSections(flags: nat) returns (s: Sections)
      requires Valid()
      modifies this
      ensures Valid() && Parsed(s, Rest()) == TakeSections(flags, old(Rest()))
    {
      s := Sections(None, None, None);
      if Has(flags, FLAG_SITE) {
        var p := ReadWord(8);
        s := s.(site := Some(p));
      }
      if Has(flags, FLAG_SOURCE) {
        var p := ReadWord(8);
        var l := ReadWord(2);
        var n := ReadWord(4);
        s := s.(source := Some(Source(p, l, n)));
      }
      if Has(flags, FLAG_THREAD) {
        var id := ReadWord(8);
        var name := ReadLenPrefixed();
        s := s.(thread := Some(ThreadId(id, name)));
      }
      if Has(flags, FLAG_PROCESS) { Skip(4); }
      if Has(flags, FLAG_COMPLEX) { Skip(8); }
    }

    /** The decoder up to the payloads; the cursor is left at the first of them. */
    method ReadRecord() returns (d: Decoded)
      requires Valid()
      modifies this
      ensures Valid() && d == Decode(old(Rest())) && d.payload == Rest()
    {
      Skip(4);
      var level := ReadWord(1);
      var flags := ReadWord(2);
      Skip(1);
      var timestamp := ReadWord(8);
      var sections := ReadSections(flags);
      var count := ReadWord(1);
      var tags := ReadBytes(count);
      d := Decoded(LevelOf(level), flags, timestamp, sections, tags, record[ptr..]);
    }

    /** The reading half of `format_arg`. */
    method ReadArg(tag: Byte) returns (a: ArgRead)
      requires Valid()
      modifies this
      ensures Valid() && a == TakeArg(tag, old(Rest()))
      ensures a.Got? ==> Rest() == a.rest
      ensures a.UnknownTag? ==> ptr == old(ptr)
    {
      if tag == TAG_STR {
        var s := ReadLenPrefixed();
        return Got(StrVal(s), record[ptr..]);
      }
      if tag < 12 {
        var d := ReadBytes(FIXED_SIZES[tag]);
        if |d| < FIXED_SIZES[tag] { return ShortPayload; }
        return Got(FromFixed(tag, d), record[ptr..]);
      }
      return UnknownTag;
    }
  }
}
