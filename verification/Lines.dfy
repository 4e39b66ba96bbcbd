/** The whole log line: `render_pattern` over a parsed pattern, and
`decode_and_format` from a record to its line. */
module Lines {
  import opened Layout
  import opened Wire
  import opened FormatSpecs
  import opened FormatStrings
  import opened Templates
  import Iso8601

  datatype Where = Where(file: seq<Byte>, line: nat)

  /** What the fields other than the message show. */
  datatype Context = Context(
    stamp: seq<Byte>, level: Level, place: Option<Where>, threadId: nat, threadName: Option<seq<Byte>>)

  /** A piece of the line. How values look under a spec is not part of this model. */
  datatype LinePiece =
    | Verbatim(bytes: seq<Byte>)
    | OfLevel(level: Level, spec: FormatSpec)
    | OfFile(file: seq<Byte>, spec: FormatSpec)
    | OfLine(line: nat, spec: FormatSpec)
    | OfThread(name: seq<Byte>, spec: FormatSpec)
    | OfThreadId(id: nat, spec: FormatSpec)
    | OfMessage(pieces: seq<Piece>)

  /** What a field other than the message adds; file, line and thread name may be
  unknown. */
  function FieldPiece(x: Context, f: Field, spec: FormatSpec): seq<LinePiece> {
    match f
    case Timestamp => [Verbatim(x.stamp)]
    case LevelName => [OfLevel(x.level, spec)]
    case File => if x.place.Some? then [OfFile(x.place.value.file, spec)] else []
    case Line => if x.place.Some? then [OfLine(x.place.value.line, spec)] else []
    case ThreadName => if x.threadName.Some? then [OfThread(x.threadName.value, spec)] else []
    case ThreadNumber => [Verbatim(Ascii("ThreadId(")), OfThreadId(x.threadId, spec), Verbatim(Ascii(")"))]
    case Message => []
  }

  datatype Drawn = Drawn(pieces: seq<LinePiece>, rest: seq<Byte>) | Crashed

  function Before(p: seq<LinePiece>, d: Drawn): Drawn { if d.Crashed? then d else d.(pieces := p + d.pieces) }

  function IsMessageSegment(g: Segment): bool { g.Hold? && g.field.Message? }

  /** `render_pattern`: each message field walks the argument cursor on from
  where the one before left it. */
  function Draw(gs: seq<Segment>, x: Context, fmt: seq<Byte>, tags: seq<Byte>, b: seq<Byte>): Drawn {
    if gs == [] then Drawn([], b)
    else if gs[0].Span? then Before([Verbatim(gs[0].bytes)], Draw(gs[1..], x, fmt, tags, b))
    else if !gs[0].field.Message? then
      Before(FieldPiece(x, gs[0].field, gs[0].spec), Draw(gs[1..], x, fmt, tags, b))
    else
      var o := Fill(FormatStrings.Walk(fmt), tags, b, true);
      if o.Panic? then Crashed
      else Before([OfMessage(o.pieces)], Draw(gs[1..], x, fmt, tags, o.rest))
  }

  /** `own` is what a reader of the pattern expects at this segment: the field's own
  value under the spec written there, and nothing for a place that is unknown. */
  ghost predicate Shows(g: Segment, x: Context, msg: seq<Piece>, own: seq<LinePiece>) {
    match g
    case Span(bytes) => own == [Verbatim(bytes)]
    case Hold(Timestamp, _) => own == [Verbatim(x.stamp)]
    case Hold(LevelName, spec) => own == [OfLevel(x.level, spec)]
    case Hold(File, spec) => if x.place.Some? then own == [OfFile(x.place.value.file, spec)] else own == []
    case Hold(Line, spec) => if x.place.Some? then own == [OfLine(x.place.value.line, spec)] else own == []
    case Hold(ThreadName, spec) => if x.threadName.Some? then own == [OfThread(x.threadName.value, spec)] else own == []
    case Hold(ThreadNumber, spec) =>
      own == [Verbatim(Ascii("ThreadId(")), OfThreadId(x.threadId, spec), Verbatim(Ascii(")"))]
    case Hold(Message, _) => own == [OfMessage(msg)]
  }

  ghost function Own(g: Segment, x: Context, msg: seq<Piece>): (own: seq<LinePiece>)
    ensures Shows(g, x, msg, own)
  {
    if IsMessageSegment(g) then [OfMessage(msg)] else if g.Span? then [Verbatim(g.bytes)] else FieldPiece(x, g.field, g.spec)
  }

  /** The line as the pattern's author reads it: every field in its place, the
  message wherever a message field stands. */
  ghost function Line(gs: seq<Segment>, x: Context, msg: seq<Piece>): seq<LinePiece> {
    if gs == [] then [] else Own(gs[0], x, msg) + Line(gs[1..], x, msg)
  }

  function Joined(parts: seq<seq<LinePiece>>): seq<LinePiece> {
    if parts == [] then [] else parts[0] + Joined(parts[1..])
  }

  /** The line comes apart into what each segment shows, in turn, and nothing else. */
  ghost predicate ReadsAs(parts: seq<seq<LinePiece>>, line: seq<LinePiece>, gs: seq<Segment>, x: Context, msg: seq<Piece>) {
    && |parts| == |gs| && line == Joined(parts)
    && forall k | 0 <= k < |gs| :: Shows(gs[k], x, msg, parts[k])
  }

  ghost predicate Reads(line: seq<LinePiece>, gs: seq<Segment>, x: Context, msg: seq<Piece>) {
    exists parts :: ReadsAs(parts, line, gs, x, msg)
  }

  lemma {:induction false} LineReads(gs: seq<Segment>, x: Context, msg: seq<Piece>)
    ensures Reads(Line(gs, x, msg), gs, x, msg)
  {
    if gs == [] {
      assert ReadsAs([], [], gs, x, msg);
    } else {
      LineReads(gs[1..], x, msg);
      var rest := Line(gs[1..], x, msg);
      var parts :| ReadsAs(parts, rest, gs[1..], x, msg);
      var own := Own(gs[0], x, msg);
      assert ([own] + parts)[1..] == parts;
      assert ReadsAs([own] + parts, own + rest, gs, x, msg);
    }
  }

  function MessageFields(gs: seq<Segment>): nat {
    if gs == [] then 0 else (if IsMessageSegment(gs[0]) then 1 else 0) + MessageFields(gs[1..])
  }

  /** Without a message field the cursor does not move. */
  lemma {:induction false} DrawWithoutMessage(
      gs: seq<Segment>, x: Context, fmt: seq<Byte>, tags: seq<Byte>, b: seq<Byte>, msg: seq<Piece>)
    requires MessageFields(gs) == 0
    ensures Draw(gs, x, fmt, tags, b) == Drawn(Line(gs, x, msg), b)
  {
    if gs != [] { DrawWithoutMessage(gs[1..], x, fmt, tags, b, msg); }
  }

  /** With one message field at most, the cursor is moved by that field alone and
  the line is the pattern with the message in place. */
  lemma {:induction false} DrawIsLine(
      gs: seq<Segment>, x: Context, fmt: seq<Byte>, tags: seq<Byte>, b: seq<Byte>, msg: seq<Piece>, rest: seq<Byte>)
    requires MessageFields(gs) <= 1 && Fill(FormatStrings.Walk(fmt), tags, b, true) == Out(msg, rest)
    ensures Draw(gs, x, fmt, tags, b) == Drawn(Line(gs, x, msg), if MessageFields(gs) == 1 then rest else b)
  {
    if gs != [] {
      if IsMessageSegment(gs[0]) {
        DrawWithoutMessage(gs[1..], x, fmt, tags, rest, msg);
      } else {
        DrawIsLine(gs[1..], x, fmt, tags, b, msg, rest);
      }
    }
  }

  /** Whatever the record, the pattern and the arguments: a line that is drawn comes
  apart into what each field shows, in turn, and a message where a message field
  stands. */
  lemma {:induction false} DrawReads(
      gs: seq<Segment>, x: Context, fmt: seq<Byte>, tags: seq<Byte>, b: seq<Byte>) returns (parts: seq<seq<LinePiece>>)
    requires Draw(gs, x, fmt, tags, b).Drawn?
    ensures |parts| == |gs| && Draw(gs, x, fmt, tags, b).pieces == Joined(parts)
    ensures forall k | 0 <= k < |gs| ::
              if IsMessageSegment(gs[k]) then |parts[k]| == 1 && parts[k][0].OfMessage? else Shows(gs[k], x, [], parts[k])
  {
    parts := [];
    if gs != [] {
      var rest := b;
      var own := Own(gs[0], x, []);
      if IsMessageSegment(gs[0]) {
        var o := Fill(FormatStrings.Walk(fmt), tags, b, true);
        rest, own := o.rest, [OfMessage(o.pieces)];
      }
      var more := DrawReads(gs[1..], x, fmt, tags, rest);
      parts := [own] + more;
      assert parts[1..] == more;
    }
  }

  /** A second message field would read past the arguments: any call whose first
  argument has a fixed width crashes the drain there. */
  lemma SecondMessageCrashes(
      g: Segment, h: Segment, x: Context, fmt: seq<Byte>, tags: seq<Byte>, b: seq<Byte>, msg: seq<Piece>)
    requires IsMessageSegment(g) && IsMessageSegment(h)
    requires Fill(FormatStrings.Walk(fmt), tags, b, true) == Out(msg, [])
    requires Places(FormatStrings.Walk(fmt)) > 0 && tags != [] && tags[0] < TAG_STR
    ensures Draw([g, h], x, fmt, tags, b).Crashed?
  {
    FillOnNothingPanics(FormatStrings.Walk(fmt), tags);
    assert [g, h][1..] == [h];
  }

  // ---------------------------------------------------------------- Accepted patterns

  lemma {:induction false} SpreadAppends(gs: seq<Segment>, hs: seq<Segment>)
    ensures Spread(gs + hs) == Spread(gs) + Spread(hs)
    decreases |hs|
  {
    if hs == [] {
      assert gs + hs == gs;
    } else {
      var init, last := hs[..|hs| - 1], hs[|hs| - 1];
      SpreadAppends(gs, init);
      assert hs == init + [last];
      Assoc(gs, init, [last]);
      SpreadSnoc(gs + init, last);
      SpreadSnoc(init, last);
      Assoc(Spread(gs), Spread(init), FlatOf(last));
    }
  }

  lemma {:induction false} MessagesAppend(fs: seq<Flat>, hs: seq<Flat>)
    ensures Messages(fs + hs) == Messages(fs) + Messages(hs)
  {
    if fs == [] {
      assert fs + hs == hs;
    } else {
      MessagesAppend(fs[1..], hs);
      assert fs + hs == [fs[0]] + (fs[1..] + hs);
      MessagesCons(fs[0], fs[1..] + hs);
    }
  }

  lemma {:induction false} TextsHaveNoMessage(b: seq<Byte>)
    ensures Messages(Texts(b)) == 0
  {
    if b != [] {
      TextsHaveNoMessage(b[1..]);
      assert Texts(b)[1..] == Texts(b[1..]);
    }
  }

  lemma {:induction false} MessageFieldsCounted(gs: seq<Segment>)
    ensures Messages(Spread(gs)) == MessageFields(gs)
  {
    if gs != [] {
      var g, rest := gs[0], gs[1..];
      MessageFieldsCounted(rest);
      assert gs == [g] + rest;
      SpreadAppends([g], rest);
      SpreadSnoc([], g);
      assert [] + [g] == [g] && Spread([]) + FlatOf(g) == FlatOf(g);
      MessagesAppend(FlatOf(g), Spread(rest));
      if g.Span? { TextsHaveNoMessage(g.bytes); }
    }
  }

  /** `template` is what parsing `pattern` gives. */
  predicate ParsedFrom(template: seq<Segment>, pattern: seq<Byte>) {
    Templates.Parse(BodySpec, pattern, false) == Ok(Spread(template))
  }

  /** The line of an accepted pattern and a checked call: every field of the
  pattern in order, the message the call's own, and the record's arguments
  walked once if the pattern shows the message and not at all otherwise. */
  lemma WholeLine(template: seq<Segment>, pattern: seq<Byte>, x: Context, sites: Sites, m: Message)
    requires ParsedFrom(template, pattern)
    requires CheckedCall(sites, m) && Count(m.args) <= 255 && TotalSize(m) <= MAX_RECORD_SIZE
    ensures var d := Decode(WireBytes(m));
            var shown := Rendered(Validate(sites(m.site).fmt).value, m.args);
            Draw(template, x, FormatOf(sites, d), d.tags, d.payload)
            == Drawn(Line(template, x, shown), if MessageFields(template) == 1 then [] else Payloads(m.args))
  {
    var d := Decode(WireBytes(m));
    var shown := Rendered(Validate(sites(m.site).fmt).value, m.args);
    AtMostOneMessage(BodySpec, pattern, false);
    MessageFieldsCounted(template);
    LineIsFaithful(sites, m);
    RoundTrip(m);
    DrawIsLine(template, x, FormatOf(sites, d), d.tags, d.payload, shown, []);
  }

  // ---------------------------------------------------------------- The loops

  lemma BeforeStep(p: seq<LinePiece>, q: seq<LinePiece>, d: Drawn)
    ensures Before(p, Before(q, d)) == Before(p + q, d)
  {
    if d.Drawn? { Assoc(p, q, d.pieces); }
  }

  lemma NextSegments(gs: seq<Segment>, i: nat)
    requires i < |gs|
    ensures gs[i..] != [] && gs[i..][0] == gs[i] && gs[i..][1..] == gs[i + 1..]
  {
  }

  /** `render_pattern`. */
  method RenderPattern(template: seq<Segment>, x: Context, fmt: seq<Byte>, tags: seq<Byte>, c: Cursor)
    returns (line: seq<LinePiece>, crashed: bool)
    requires c.Valid()
    modifies c
    ensures c.Valid()
    ensures Draw(template, x, fmt, tags, old(c.Rest())) == if crashed then Crashed else Drawn(line, c.Rest())
  {
    line, crashed := [], false;
    ghost var all := Draw(template, x, fmt, tags, c.Rest());
    assert template[0..] == template;
    for i := 0 to |template|
      invariant c.Valid() && all == Before(line, Draw(template[i..], x, fmt, tags, c.Rest()))
    {
      NextSegments(template, i);
      var piece: seq<LinePiece>;
      match template[i] {
        case Span(bytes) => piece := [Verbatim(bytes)];
        case Hold(f, spec) =>
          if f.Message? {
            var pieces;
            pieces, crashed := Interleave(fmt, tags, c);
            if crashed { return; }
            piece := [OfMessage(pieces)];
          } else {
            piece := FieldPiece(x, f, spec);
          }
      }
      BeforeStep(line, piece, Draw(template[i + 1..], x, fmt, tags, c.Rest()));
      line := line + piece;
    }
  }

  /** What the drain finds outside a record: the call sites, the text at an address
if it is UTF-8, whether bytes are UTF-8, and the ring's own thread. */
  datatype Surroundings = Surroundings(
    sites: Sites, textAt: (nat, nat) -> Option<seq<Byte>>, utf8: seq<Byte> -> bool,
    threadId: nat, threadName: seq<Byte>)

  const UNREADABLE: seq<Byte> := Ascii("<file>")

  /** The source section wins over the site, even if its name cannot be read. */
  function PlaceOf(e: Surroundings, s: Sections): Option<Where> {
    match (s.source, s.site)
    case (Some(Source(address, len, line)), _) =>
      var text := e.textAt(address, len);
      Some(Where(if text.Some? then text.value else UNREADABLE, line))
    case (None, Some(at)) => Some(Where(e.sites(at).file, e.sites(at).line))
    case (None, None) => None
  }

  /** The thread section's name wins if it is there and readable. */
  function ThreadNameOf(e: Surroundings, s: Sections): seq<Byte> {
    if s.thread.Some? && s.thread.value.name != [] && e.utf8(s.thread.value.name) then s.thread.value.name
    else e.threadName
  }

  /** What a decoded record shows besides the message. */
  function ContextOf(stamp: seq<Byte>, e: Surroundings, d: Decoded): Context {
    Context(stamp, d.level, PlaceOf(e, d.sections),
            if d.sections.thread.Some? then d.sections.thread.value.id else e.threadId,
            Some(ThreadNameOf(e, d.sections)))
  }

  /** The line drawn from any record bytes. */
  function LineOf(template: seq<Segment>, stamp: seq<Byte>, e: Surroundings, record: seq<Byte>): Drawn {
    var d := Decode(record);
    Draw(template, ContextOf(stamp, e, d), FormatOf(e.sites, d), d.tags, d.payload)
  }

  /** The record of a checked call under an accepted pattern shows the call's own
  level, file, line and message, and the ring's thread. */
  lemma CheckedLine(
      template: seq<Segment>, pattern: seq<Byte>, stamp: seq<Byte>, e: Surroundings, m: Message)
    requires ParsedFrom(template, pattern)
    requires CheckedCall(e.sites, m) && Count(m.args) <= 255 && TotalSize(m) <= MAX_RECORD_SIZE
    ensures Decode(WireBytes(m)).timestamp == m.timestamp
    ensures var site := e.sites(m.site);
            var x := Context(stamp, m.level, Some(Where(site.file, site.line)), e.threadId, Some(e.threadName));
            var shown := Rendered(Validate(site.fmt).value, m.args);
            var drawn := LineOf(template, stamp, e, WireBytes(m));
            && drawn == Drawn(Line(template, x, shown), if MessageFields(template) == 1 then [] else Payloads(m.args))
            && Reads(drawn.pieces, template, x, shown)
  {
    RoundTrip(m);
    ghost var site := e.sites(m.site);
    LineReads(template, Context(stamp, m.level, Some(Where(site.file, site.line)), e.threadId, Some(e.threadName)),
              Rendered(Validate(site.fmt).value, m.args));
    WholeLine(template, pattern, ContextOf(stamp, e, Decode(WireBytes(m))), e.sites, m);
  }

  /** The line of an older record, whichever sections it has: its own source section
  before the site's, even if the name cannot be read; its own thread, and the
  ring's name if the section has none that can be read; the format string of the
  site, or nothing. */
  lemma OldLine(template: seq<Segment>, stamp: seq<Byte>, e: Surroundings, o: OldRecord)
    requires ValidOld(o)
    ensures var site, text := e.sites(o.site), e.textAt(o.file, o.len);
            var sited, sourced, threaded := o.flags % 2 == 1, o.flags / 2 % 2 == 1, o.flags / 4 % 2 == 1;
            var x := Context(
              stamp, o.level,
              if sourced then Some(Where(if text.Some? then text.value else Ascii("<file>"), o.line))
              else if sited then Some(Where(site.file, site.line)) else None,
              if threaded then o.thread else e.threadId,
              Some(if threaded && o.name != [] && e.utf8(o.name) then o.name else e.threadName));
            LineOf(template, stamp, e, OldBytes(o)) == Draw(template, x, if sited then site.fmt else [], o.tags, o.payload)
  {
    OldRecordsDecode(o);
  }

  // ---------------------------------------------------------------- Decoding

  /** `stamp` is the timestamp text of the instant at the offset. */
  ghost predicate IsStamp(stamp: seq<Byte>, ns: Iso8601.Instant, offset: Iso8601.Offset) {
    forall l :: Iso8601.Splits(l, Iso8601.LocalNs(ns, offset)) ==>
      && Iso8601.Printable(Iso8601.ReadingOf(l))
      && stamp == Iso8601.Text(Iso8601.ReadingOf(l), Iso8601.Suffix(offset))
  }

  method StampText(ns: Iso8601.Instant, offset: Iso8601.Offset) returns (stamp: seq<Byte>)
    ensures IsStamp(stamp, ns, offset)
  {
    stamp := Iso8601.FormatIso8601(ns, offset, []);
  }

  /** The context gathered section by section: the source section over the site, the
  thread section over the ring. */
  method Gather(d: Decoded, stamp: seq<Byte>, e: Surroundings) returns (x: Context)
    ensures x == ContextOf(stamp, e, d)
  {
    var place := None;
    if d.sections.site.Some? {
      var site := e.sites(d.sections.site.value);
      place := Some(Where(site.file, site.line));
    }
    if d.sections.source.Some? {
      var Source(address, len, line) := d.sections.source.value;
      var text := e.textAt(address, len);
      var file := match text case Some(t) => t case None => UNREADABLE;
      place := Some(Where(file, line));
    }
    var threadId, threadName := e.threadId, e.threadName;
    if d.sections.thread.Some? {
      var thread := d.sections.thread.value;
      threadId := thread.id;
      if |thread.name| > 0 && e.utf8(thread.name) { threadName := thread.name; }
    }
    x := Context(stamp, d.level, place, threadId, Some(threadName));
  }

  /** `decode_and_format` on any record bytes, `clock` standing for the tick
  calibration. */
  method DecodeAndFormat(
      record: seq<Byte>, offset: Iso8601.Offset, clock: nat -> Iso8601.Instant, template: seq<Segment>,
      e: Surroundings)
    returns (line: seq<LinePiece>, stamp: seq<Byte>, crashed: bool)
    ensures IsStamp(stamp, clock(Decode(record).timestamp), offset)
    ensures crashed == LineOf(template, stamp, e, record).Crashed?
    ensures !crashed ==> line == LineOf(template, stamp, e, record).pieces
  {
    var c := new Cursor(record);
    var d := c.ReadRecord();
    stamp := StampText(clock(d.timestamp), offset);
    var x := Gather(d, stamp, e);
    line, crashed := RenderPattern(template, x, FormatOf(e.sites, d), d.tags, c);
  }
}
