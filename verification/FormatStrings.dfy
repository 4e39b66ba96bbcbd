/** Format strings: the compile-time validator, the drain's walker, and the line
they produce together with the wire format. */
module FormatStrings {
  import opened Layout
  import opened Wire
  import opened FormatSpecs

  /** A format string taken apart. `Stray` is a closing brace on its own. */
  datatype Items =
    | Finish
    | Lit(b: Byte, more: Items)
    | Place(content: seq<Byte>, more: Items)
    | Stray(more: Items)

  function Places(it: Items): nat {
    match it
    case Finish => 0
    case Lit(_, more) => Places(more)
    case Place(_, more) => 1 + Places(more)
    case Stray(more) => Places(more)
  }

  // ---------------------------------------------------------------- The validator

  /** Bytes before the first `c` or `d`. */
  function RunTo(s: seq<Byte>, c: Byte, d: Byte): (n: nat)
    ensures n <= |s| && (n < |s| ==> s[n] == c || s[n] == d)
  {
    if s == [] || s[0] == c || s[0] == d then 0 else 1 + RunTo(s[1..], c, d)
  }

  lemma {:induction false} RunToFree(s: seq<Byte>, c: Byte, d: Byte)
    ensures c !in s[..RunTo(s, c, d)] && d !in s[..RunTo(s, c, d)]
  {
    if s != [] && s[0] != c && s[0] != d {
      RunToFree(s[1..], c, d);
      var n := RunTo(s, c, d);
      assert s[..n] == [s[0]] + s[1..][..n - 1];
    }
  }

  lemma {:induction false} RunToIs(s: seq<Byte>, c: Byte, d: Byte, n: nat)
    requires n < |s| && (s[n] == c || s[n] == d) && c !in s[..n] && d !in s[..n]
    ensures RunTo(s, c, d) == n
    decreases n
  {
    if n > 0 {
      assert s[..n] == [s[0]] + s[1..][..n - 1];
      RunToIs(s[1..], c, d, n - 1);
    }
  }

  /** A placeholder behind its opening brace: what follows its closing brace. */
  function ReadPlace(s: seq<Byte>): Result<seq<Byte>> {
    var n := RunTo(s, COLON, CLOSE);
    if n > 0 && AllDigits(s[..n]) then Err(Positional)
    else if n == |s| then Err(Unclosed)
    else if s[n] == COLON then CheckInline(s[n + 1..])
    else Ok(s[n + 1..])
  }

  lemma InlineOf(body: seq<Byte>, t: seq<Byte>, b: seq<Byte>)
    requires b == body + ([CLOSE] + t) && CLOSE !in body && CheckInline(b).Ok?
    ensures CheckInline(b).value == t
  {
    ReadersAgree(body, t);
  }

  lemma SplitAtBrace(b: seq<Byte>)
    ensures var k := RunTo(b, CLOSE, CLOSE);
            if k < |b| then b == b[..k] + ([CLOSE] + b[k + 1..]) && CLOSE !in b[..k] else CLOSE !in b
  {
    var k := RunTo(b, CLOSE, CLOSE);
    RunToFree(b, CLOSE, CLOSE);
    if k == |b| { assert b[..k] == b; } else { SplitAt(b, k); }
  }

  lemma SplitAt(b: seq<Byte>, k: nat)
    requires k < |b|
    ensures b == b[..k] + ([b[k]] + b[k + 1..])
  {
  }

  lemma InlineEndsAtBrace(b: seq<Byte>)
    requires CheckInline(b).Ok?
    ensures var k := RunTo(b, CLOSE, CLOSE);
            k < |b| && CheckInline(b).value == b[k + 1..]
  {
    var k := RunTo(b, CLOSE, CLOSE);
    SplitAtBrace(b);
    if k == |b| { NoBraceNoSpec(b); } else { InlineOf(b[..k], b[k + 1..], b); }
  }

  lemma RunToBeyond(s: seq<Byte>, n: nat)
    requires n < |s| && CLOSE !in s[..n] && s[n] != CLOSE
    ensures RunTo(s, CLOSE, CLOSE) == n + 1 + RunTo(s[n + 1..], CLOSE, CLOSE)
    decreases n
  {
    if n > 0 {
      assert s[..n] == [s[0]] + s[1..][..n - 1];
      RunToBeyond(s[1..], n - 1);
      assert s[1..][n..] == s[n + 1..];
    }
  }

  lemma DropTwice(s: seq<Byte>, n: nat, k: nat)
    requires n + 1 + k < |s|
    ensures s[n + 1..][k + 1..] == s[n + 1 + k + 1..]
  {
  }

  /** The validator and the walker find the same end of a placeholder: the first
  closing brace. */
  lemma PlaceEndsAtBrace(s: seq<Byte>)
    requires ReadPlace(s).Ok?
    ensures var j := RunTo(s, CLOSE, CLOSE);
            j < |s| && ReadPlace(s).value == s[j + 1..]
  {
    var n := RunTo(s, COLON, CLOSE);
    RunToFree(s, COLON, CLOSE);
    if s[n] == CLOSE {
      RunToIs(s, CLOSE, CLOSE, n);
    } else {
      InlineEndsAtBrace(s[n + 1..]);
      RunToBeyond(s, n);
      DropTwice(s, n, RunTo(s[n + 1..], CLOSE, CLOSE));
    }
  }

  function AddLit(b: Byte, r: Result<Items>): Result<Items> { if r.Ok? then Ok(Lit(b, r.value)) else r }

  function AddPlace(c: seq<Byte>, r: Result<Items>): Result<Items> { if r.Ok? then Ok(Place(c, r.value)) else r }

  /** `validate_fmt`, with the items it passes over. */
  function Validate(s: seq<Byte>): Result<Items>
    decreases |s|
  {
    if s == [] then Ok(Finish)
    else if s[0] == OPEN then
      if |s| > 1 && s[1] == OPEN then AddLit(OPEN, Validate(s[2..]))
      else
        var r := ReadPlace(s[1..]);
        if r.Err? then Err(r.error)
        else
          PlaceEndsAtBrace(s[1..]);
          AddPlace(s[1..][..RunTo(s[1..], CLOSE, CLOSE)], Validate(r.value))
    else if s[0] == CLOSE then
      if |s| > 1 && s[1] == CLOSE then AddLit(CLOSE, Validate(s[2..])) else Err(Unmatched)
    else AddLit(s[0], Validate(s[1..]))
  }

  // ---------------------------------------------------------------- The walker

  /** What `interleave` sees: placeholders run to the first closing brace or to
  the end, and any closing brace takes the byte after it along. */
  function Walk(s: seq<Byte>): Items
    decreases |s|
  {
    if s == [] then Finish
    else if s[0] == OPEN then
      if |s| > 1 && s[1] == OPEN then Lit(OPEN, Walk(s[2..]))
      else
        var j := RunTo(s[1..], CLOSE, CLOSE);
        Place(s[1..][..j], Walk(if j < |s[1..]| then s[1..][j + 1..] else []))
    else if s[0] == CLOSE then
      if |s| > 1 && s[1] == CLOSE then Lit(CLOSE, Walk(s[2..]))
      else Stray(Walk(if |s| > 1 then s[2..] else []))
    else Lit(s[0], Walk(s[1..]))
  }

  /** Both take an accepted placeholder apart alike. */
  lemma PlaceTaken(s: seq<Byte>)
    requires s != [] && s[0] == OPEN && !(|s| > 1 && s[1] == OPEN) && Validate(s).Ok?
    ensures var b := s[1..];
            var j := RunTo(b, CLOSE, CLOSE);
            && j < |b| && Validate(s) == AddPlace(b[..j], Validate(b[j + 1..]))
            && Walk(s) == Place(b[..j], Walk(b[j + 1..]))
  {
    PlaceEndsAtBrace(s[1..]);
  }

  /** On every string the validator accepts, the walker sees the same items. */
  lemma {:induction false} WalkersAgree(s: seq<Byte>)
    requires Validate(s).Ok?
    ensures Walk(s) == Validate(s).value
    decreases |s|
  {
    if s != [] {
      if s[0] == OPEN && !(|s| > 1 && s[1] == OPEN) {
        PlaceTaken(s);
        WalkersAgree(s[1..][RunTo(s[1..], CLOSE, CLOSE) + 1..]);
      } else if s[0] == OPEN || s[0] == CLOSE {
        WalkersAgree(s[2..]);
      } else {
        WalkersAgree(s[1..]);
      }
    }
  }

  // ---------------------------------------------------------------- The language

  predicate GoodContent(c: seq<Byte>) {
    && 125 !in c && !Starts(c, 123)
    && var n := RunTo(c, 58, 58);
       && (n > 0 ==> !AllDigits(c[..n]))
       && (n < |c| ==> CheckBody(c[n + 1..]).Ok?)
  }

  predicate Good(it: Items) {
    match it
    case Finish => true
    case Lit(_, more) => Good(more)
    case Place(c, more) => GoodContent(c) && Good(more)
    case Stray(_) => false
  }

  function PrintItems(it: Items): seq<Byte> {
    match it
    case Finish => []
    case Lit(b, more) => (if b == 123 || b == 125 then [b, b] else [b]) + PrintItems(more)
    case Place(c, more) => [123] + (c + ([125] + PrintItems(more)))
    case Stray(more) => [125] + PrintItems(more)
  }

  /** The placeholder reader accepts exactly the good contents. */
  lemma ReadPlaceIff(c: seq<Byte>, t: seq<Byte>)
    requires CLOSE !in c && !Starts(c, OPEN)
    ensures GoodContent(c) <==> ReadPlace(c + ([CLOSE] + t)).Ok?
    ensures GoodContent(c) ==> ReadPlace(c + ([CLOSE] + t)) == Ok(t)
  {
    var s, n := c + ([CLOSE] + t), RunTo(c, COLON, COLON);
    RunToFree(c, COLON, COLON);
    assert s[..n] == c[..n];
    if n < |c| {
      RunToIs(s, COLON, CLOSE, n);
      assert s[n + 1..] == c[n + 1..] + ([CLOSE] + t);
      ReadersAgree(c[n + 1..], t);
    } else {
      RunToIs(s, COLON, CLOSE, n);
      assert s[n + 1..] == t;
    }
  }

  /** Every well-formed list of items, printed, is accepted as those items. */
  lemma {:induction false} ValidateInvertsPrint(it: Items)
    requires Good(it)
    ensures Validate(PrintItems(it)) == Ok(it)
    decreases it
  {
    var s := PrintItems(it);
    match it
    case Finish =>
    case Lit(b, more) =>
      ValidateInvertsPrint(more);
      if b == OPEN || b == CLOSE { assert s[2..] == PrintItems(more); } else { assert s[1..] == PrintItems(more); }
    case Place(c, more) =>
      ValidateInvertsPrint(more);
      var t := PrintItems(more);
      assert s[1..] == c + ([CLOSE] + t);
      ReadPlaceIff(c, t);
      assert s[1..][..|c|] == c;
      RunToIs(s[1..], CLOSE, CLOSE, |c|);
      assert |s| > 1 && s[1] != OPEN;
  }

  lemma PlaceOf(c: seq<Byte>, t: seq<Byte>, b: seq<Byte>)
    requires b == c + ([CLOSE] + t) && CLOSE !in c && !Starts(c, OPEN) && ReadPlace(b).Ok?
    ensures GoodContent(c) && ReadPlace(b) == Ok(t)
  {
    ReadPlaceIff(c, t);
  }

  lemma PlacePrints(b: seq<Byte>)
    requires ReadPlace(b).Ok? && !Starts(b, OPEN)
    ensures var j := RunTo(b, CLOSE, CLOSE);
            && j < |b| && GoodContent(b[..j]) && ReadPlace(b) == Ok(b[j + 1..])
            && b == b[..j] + ([CLOSE] + b[j + 1..])
  {
    PlaceEndsAtBrace(b);
    SplitAtBrace(b);
    var j := RunTo(b, CLOSE, CLOSE);
    PlaceOf(b[..j], b[j + 1..], b);
  }

  /** Every accepted string is the printed form of the items found. */
  lemma {:induction false} PrintInvertsValidate(s: seq<Byte>)
    requires Validate(s).Ok?
    ensures Good(Validate(s).value) && PrintItems(Validate(s).value) == s
    decreases |s|
  {
    if s != [] {
      if s[0] == OPEN && !(|s| > 1 && s[1] == OPEN) {
        PlacePrints(s[1..]);
        PrintInvertsValidate(ReadPlace(s[1..]).value);
        assert s == [OPEN] + s[1..];
      } else if s[0] == OPEN || s[0] == CLOSE {
        PrintInvertsValidate(s[2..]);
        assert s == [s[0], s[0]] + s[2..];
      } else {
        PrintInvertsValidate(s[1..]);
        assert s == [s[0]] + s[1..];
      }
    }
  }

  // ---------------------------------------------------------------- Faults

  /** Behind well-formed items the validator gives the verdict of what follows: the
  error of a string is that of its first bad item. */
  lemma {:induction false} FirstBadItem(it: Items, t: seq<Byte>)
    requires Good(it) && Validate(t).Err?
    ensures Validate(PrintItems(it) + t) == Validate(t)
    decreases it
  {
    var s := PrintItems(it) + t;
    match it
    case Finish => assert s == t;
    case Lit(b, more) =>
      FirstBadItem(more, t);
      Assoc(if b == 123 || b == 125 then [b, b] else [b], PrintItems(more), t);
      BadBehindLiteral(b, PrintItems(more) + t, s);
    case Place(c, more) =>
      FirstBadItem(more, t);
      PlaceThen(c, PrintItems(more), t);
      BadBehindPlace(c, PrintItems(more) + t, s);
  }

  lemma PlaceThen(c: seq<Byte>, u: seq<Byte>, t: seq<Byte>)
    ensures [123] + (c + ([125] + u)) + t == [123] + (c + ([125] + (u + t)))
  {
  }

  lemma BadBehindLiteral(b: Byte, t: seq<Byte>, s: seq<Byte>)
    requires Validate(t).Err? && s == (if b == 123 || b == 125 then [b, b] else [b]) + t
    ensures Validate(s) == Validate(t)
  {
    if b == OPEN || b == CLOSE { assert s[2..] == t; } else { assert s[1..] == t; }
  }

  lemma BadBehindPlace(c: seq<Byte>, t: seq<Byte>, s: seq<Byte>)
    requires GoodContent(c) && Validate(t).Err? && s == [OPEN] + (c + ([CLOSE] + t))
    ensures Validate(s) == Validate(t)
  {
    assert s[1..] == c + ([CLOSE] + t);
    ReadPlaceIff(c, t);
    assert |s| > 1 && s[1] != OPEN;
  }

  lemma NameEnds(n: seq<Byte>, c: Byte, t: seq<Byte>)
    requires 58 !in n && 125 !in n && c in [58, 125]
    ensures var s := n + ([c] + t);
            RunTo(s, COLON, CLOSE) == |n| && s[..|n|] == n && s[|n|] == c && s[|n| + 1..] == t
  {
    var s := n + ([c] + t);
    assert s[..|n|] == n && s[|n|] == c && s[|n| + 1..] == t;
    RunToIs(s, COLON, CLOSE, |n|);
  }

  /** A name that never ends: of digits only it is taken for a position. */
  lemma EndlessName(n: seq<Byte>)
    requires 58 !in n && 125 !in n && !Starts(n, 123)
    ensures Validate([123] + n) == Err(if n != [] && Numerals(n) then Positional else Unclosed)
  {
    NoEnd(n, COLON, CLOSE);
    assert n[..|n|] == n;
    BadPlace(n);
  }

  lemma {:induction false} NoEnd(n: seq<Byte>, c: Byte, d: Byte)
    requires c !in n && d !in n
    ensures RunTo(n, c, d) == |n|
  {
    if n != [] { NoEnd(n[1..], c, d); }
  }

  lemma BadPlace(b: seq<Byte>)
    requires !Starts(b, 123) && ReadPlace(b).Err?
    ensures Validate([123] + b) == Err(ReadPlace(b).error)
  {
    assert ([123] + b)[1..] == b;
  }

  /** The faults of a placeholder whose name ends, in the order they are found. */
  lemma PlaceFaults(n: seq<Byte>, c: Byte, t: seq<Byte>)
    requires 58 !in n && 125 !in n && !Starts(n, 123) && c in [58, 125]
    ensures var v := Validate([123] + (n + ([c] + t)));
            && (n != [] && Numerals(n) ==> v == Err(Positional))
            && (!(n != [] && Numerals(n)) && c == 58 && CheckInline(t).Err? ==> v == Err(CheckInline(t).error))
  {
    var b := n + ([c] + t);
    NameEnds(n, c, t);
    assert !Starts(b, 123);
    if ReadPlace(b).Err? { BadPlace(b); }
  }

  /** The fault of a spec is the placeholder's, closed or not. */
  lemma SpecFaults(n: seq<Byte>, body: seq<Byte>, t: seq<Byte>)
    requires 58 !in n && 125 !in n && !Starts(n, 123) && !(n != [] && Numerals(n)) && 125 !in body
    ensures CheckBody(body).Err? ==>
              Validate([123] + (n + ([58] + (body + ([125] + t))))) == Err(CheckBody(body).error)
    ensures Validate([123] + (n + ([58] + body)))
            == Err(if CheckBody(body).Err? then CheckBody(body).error else Unclosed)
  {
    ReadersAgree(body, t);
    UnclosedBody(body);
    PlaceFaults(n, 58, body + ([125] + t));
    PlaceFaults(n, 58, body);
  }

  /** A closing brace on its own: the validator refuses it, the walker shows a brace
  and loses the byte behind it. A placeholder that is never closed is refused by
  the one and taken to the end by the other. */
  lemma BrokenStrings(x: Byte, c: seq<Byte>, t: seq<Byte>)
    requires x != 125 && 125 !in c && !Starts(c, 123)
    ensures Validate([125]) == Err(Unmatched) && Validate([125, x] + t) == Err(Unmatched)
    ensures Walk([125]) == Stray(Finish) && Walk([125, x] + t) == Stray(Walk(t))
    ensures Walk([123] + c) == Place(c, Finish)
  {
    assert ([125, x] + t)[2..] == t;
    NoEnd(c, CLOSE, CLOSE);
    assert ([123] + c)[1..] == c && c[..|c|] == c;
  }

  // ---------------------------------------------------------------- Rendering

  /** The spec of a placeholder, its name before the first colon ignored. */
  function ContentSpec(c: seq<Byte>): FormatSpec {
    var n := RunTo(c, COLON, COLON);
    if n == |c| then DEFAULT_SPEC
    else
      ScanHasDigits(c[n + 1..]);
      Meaning(Scan(c[n + 1..]).parts)
  }

  /** A piece of the rendered message. How a value is formatted under its spec is
  not part of this model. */
  datatype Piece =
    | Raw(b: Byte)
    | Shown(spec: FormatSpec, value: Value)
    | Unknown(tag: Byte)
    | Missing
    | StrayBrace

  /** The pieces and the payload left over, or the formatter's panic. */
  datatype Out = Out(pieces: seq<Piece>, rest: seq<Byte>) | Panic

  function Then(p: Piece, o: Out): Out { if o.Panic? then o else o.(pieces := [p] + o.pieces) }

  /** `interleave` over the walked items. */
  function Fill(it: Items, tags: seq<Byte>, b: seq<Byte>, ok: bool): Out
    decreases it
  {
    match it
    case Finish => Out([], b)
    case Lit(c, more) => Then(Raw(c), Fill(more, tags, b, ok))
    case Stray(more) => Then(StrayBrace, Fill(more, tags, b, ok))
    case Place(c, more) =>
      if tags == [] then Then(Missing, Fill(more, tags, b, ok))
      else if !ok then Then(Unknown(tags[0]), Fill(more, tags[1..], b, ok))
      else
        var a := TakeArg(tags[0], b);
        if a.Got? then Then(Shown(ContentSpec(c), a.value), Fill(more, tags[1..], a.rest, ok))
        else if a.UnknownTag? then Then(Unknown(tags[0]), Fill(more, tags[1..], b, false))
        else Panic
  }

  /** `c` is a name without colon, a colon, and the spec `p`. */
  ghost predicate Spells(c: seq<Byte>, name: seq<Byte>, p: Parts) {
    58 !in name && Canonical(p) && c == name + ([58] + Print(p))
  }

  /** What the author of a placeholder asks for: the fields of the spec that is
  written there, or the plain spec if there is no colon. */
  ghost predicate Asks(c: seq<Byte>, fs: FormatSpec) {
    if 58 !in c then fs == FormatSpec(32, NoAlign, false, None, None, false, None)
    else exists name, p :: Spells(c, name, p) && SpecIs(fs, p)
  }

  ghost function AskedFor(c: seq<Byte>): FormatSpec {
    if exists fs :: Asks(c, fs) then var fs :| Asks(c, fs); fs else DEFAULT_SPEC
  }

  /** Whatever name and canonical spec are written, the walker reads that spec. */
  lemma PlaceholderSpec(name: seq<Byte>, p: Parts)
    requires 58 !in name && Canonical(p)
    ensures SpecIs(ContentSpec(name + ([58] + Print(p))), p)
  {
    var c := name + ([58] + Print(p));
    assert c[..|name|] == name && c[|name| + 1..] == Print(p);
    RunToIs(c, COLON, COLON, |name|);
    ScanInvertsPrint(p);
    MeaningIs(p);
  }

  lemma SpecIsUnique(fs: FormatSpec, gs: FormatSpec, p: Parts)
    requires SpecIs(fs, p) && SpecIs(gs, p)
    ensures fs == gs
  {
  }

  lemma PlainPlaceholder(c: seq<Byte>)
    requires 58 !in c
    ensures ContentSpec(c) == FormatSpec(32, NoAlign, false, None, None, false, None)
  {
    if RunTo(c, COLON, COLON) < |c| { assert c[RunTo(c, COLON, COLON)] in c; }
  }

  lemma GoodContentSpells(c: seq<Byte>) returns (name: seq<Byte>, p: Parts)
    requires GoodContent(c) && 58 in c
    ensures Spells(c, name, p)
  {
    var n := RunTo(c, COLON, COLON);
    RunToFree(c, COLON, COLON);
    assert n < |c| by { assert c[..|c|] == c; }
    name := c[..n];
    p := BodySpells(c[n + 1..]);
    SplitAt(c, n);
  }

  lemma BodySpells(b: seq<Byte>) returns (p: Parts)
    requires CheckBody(b).Ok?
    ensures Canonical(p) && Print(p) == b
  {
    p := Scan(b).parts;
    ScanIsCanonical(b);
    PrintInvertsScan(b);
    assert Print(p) + [] == Print(p);
  }

  /** Every placeholder of an accepted string is read as what its author asks for. */
  lemma ContentSpecIsAskedFor(c: seq<Byte>)
    requires GoodContent(c)
    ensures ContentSpec(c) == AskedFor(c) && Asks(c, AskedFor(c))
  {
    if 58 in c {
      var name, p := GoodContentSpells(c);
      PlaceholderSpec(name, p);
      assert Asks(c, ContentSpec(c));
      var fs := AskedFor(c);
      var name', p' :| Spells(c, name', p') && SpecIs(fs, p');
      PlaceholderSpec(name', p');
      SpecIsUnique(fs, ContentSpec(c), p');
    } else {
      PlainPlaceholder(c);
      assert Asks(c, ContentSpec(c));
    }
  }

  /** What the message should look like: literals as they are, the k-th placeholder
  showing the k-th argument as its author asks. Tags that come after the readable
  arguments are reported, and surplus placeholders say that there is none. */
  ghost function Reported(it: Items, args: Args, unread: seq<Byte>): seq<Piece> {
    match it
    case Finish => []
    case Lit(c, more) => [Raw(c)] + Reported(more, args, unread)
    case Stray(more) => [StrayBrace] + Reported(more, args, unread)
    case Place(c, more) =>
      if args.Arg? then [Shown(AskedFor(c), args.first)] + Reported(more, args.rest, unread)
      else if unread != [] then [Unknown(unread[0])] + Reported(more, Nil, unread[1..])
      else [Missing] + Reported(more, Nil, [])
  }

  ghost function Rendered(it: Items, args: Args): seq<Piece> { Reported(it, args, []) }

  /** The arguments that no placeholder is left for. */
  function Unshown(it: Items, args: Args): Args {
    match it
    case Finish => args
    case Lit(_, more) => Unshown(more, args)
    case Stray(more) => Unshown(more, args)
    case Place(_, more) => if args.Arg? then Unshown(more, args.rest) else Nil
  }

  /** Once a tag was unknown nothing more is read. */
  lemma {:induction false} FillReadsNoMore(it: Items, tags: seq<Byte>, b: seq<Byte>, ok: bool)
    requires ok ==> tags == []
    ensures Fill(it, tags, b, ok) == Out(Reported(it, Nil, tags), b)
    decreases it
  {
    match it
    case Finish =>
    case Lit(_, more) => FillReadsNoMore(more, tags, b, ok);
    case Stray(more) => FillReadsNoMore(more, tags, b, ok);
    case Place(_, more) => FillReadsNoMore(more, if tags == [] then [] else tags[1..], b, ok);
  }

  /** For any number of arguments, and any tags behind them of which the first is
  none of the twelve: each argument is shown once, in order, as long as there are
  placeholders, then the unknown tags are reported, then arguments are missing. */
  lemma {:induction false} FillReports(it: Items, args: Args, unread: seq<Byte>, rest: seq<Byte>)
    requires Good(it) && ArgsSize(args) <= MAX_RECORD_SIZE && (unread != [] ==> unread[0] >= 12)
    ensures Fill(it, Tags(args) + unread, Payloads(args) + rest, true)
            == Out(Reported(it, args, unread), Payloads(Unshown(it, args)) + rest)
    decreases it
  {
    match it
    case Finish =>
    case Lit(c, more) => FillReports(more, args, unread, rest);
    case Place(c, more) =>
      if args.Arg? {
        FillReports(more, args.rest, unread, rest);
        FillShows(c, more, args, unread, rest);
      } else {
        assert [] + unread == unread && [] + rest == rest;
        if unread == [] {
          FillReadsNoMore(it, [], rest, true);
          UnshownNone(more);
        } else {
          FillReadsNoMore(more, unread[1..], rest, false);
        }
      }
  }

  lemma UnshownNone(it: Items)
    ensures Unshown(it, Nil) == Nil
  {
  }

  lemma FillShows(c: seq<Byte>, more: Items, args: Args, unread: seq<Byte>, rest: seq<Byte>)
    requires args.Arg? && GoodContent(c) && ArgsSize(args) <= MAX_RECORD_SIZE
    ensures Fill(Place(c, more), Tags(args) + unread, Payloads(args) + rest, true)
            == Then(Shown(AskedFor(c), args.first), Fill(more, Tags(args.rest) + unread, Payloads(args.rest) + rest, true))
  {
    var b, tags := Payloads(args.rest) + rest, Tags(args) + unread;
    assert Payloads(args) + rest == Payload(args.first) + b by { Assoc(Payload(args.first), Payloads(args.rest), rest); }
    ArgRoundTrip(args.first, b);
    ContentSpecIsAskedFor(c);
    assert tags[0] == TypeTag(args.first) && tags[1..] == Tags(args.rest) + unread;
    FillGot(c, more, tags, Payload(args.first) + b, args.first, b);
  }

  lemma FillGot(c: seq<Byte>, more: Items, tags: seq<Byte>, b: seq<Byte>, v: Value, b': seq<Byte>)
    requires tags != [] && TakeArg(tags[0], b) == Got(v, b')
    ensures Fill(Place(c, more), tags, b, true) == Then(Shown(ContentSpec(c), v), Fill(more, tags[1..], b', true))
  {
  }

  lemma {:induction false} AllShown(it: Items, args: Args)
    requires Places(it) == Count(args)
    ensures Unshown(it, args) == Nil
    decreases it
  {
    match it
    case Finish =>
    case Lit(_, more) => AllShown(more, args);
    case Stray(more) => AllShown(more, args);
    case Place(_, more) => AllShown(more, args.rest);
  }

  /** With as many arguments as placeholders each is shown once, in order. */
  lemma FillShowsAll(it: Items, args: Args, rest: seq<Byte>)
    requires Good(it) && Places(it) == Count(args) && ArgsSize(args) <= MAX_RECORD_SIZE
    ensures Fill(it, Tags(args), Payloads(args) + rest, true) == Out(Rendered(it, args), rest)
  {
    FillReports(it, args, [], rest);
    AllShown(it, args);
    NothingLeft(it, Tags(args), Payloads(args) + rest, Rendered(it, args), Payloads(Nil), rest);
  }

  lemma NothingLeft(it: Items, tags: seq<Byte>, b: seq<Byte>, pieces: seq<Piece>, none: seq<Byte>, rest: seq<Byte>)
    requires Fill(it, tags + [], b, true) == Out(pieces, none + rest) && none == []
    ensures Fill(it, tags, b, true) == Out(pieces, rest)
  {
    assert tags + [] == tags && none + rest == rest;
  }

  /** A fixed-width argument that is not there panics its formatter. */
  lemma {:induction false} FillOnNothingPanics(it: Items, tags: seq<Byte>)
    requires Places(it) > 0 && tags != [] && tags[0] < TAG_STR
    ensures Fill(it, tags, [], true).Panic?
    decreases it
  {
    match it
    case Lit(_, more) => FillOnNothingPanics(more, tags);
    case Stray(more) => FillOnNothingPanics(more, tags);
    case Place(_, _) => assert TakeArg(tags[0], []).ShortPayload?;
  }

  /** A call site's descriptor, and what stands at each descriptor address. */
  datatype SiteInfo = SiteInfo(fmt: seq<Byte>, file: seq<Byte>, line: nat)

  type Sites = nat -> SiteInfo

  /** The format string of a decoded record: its site's, or none. */
  function FormatOf(sites: Sites, d: Decoded): seq<Byte> {
    if d.sections.site.Some? then sites(d.sections.site.value).fmt else []
  }

  /** What the record's message becomes. */
  function MessageOf(sites: Sites, d: Decoded): Out {
    Fill(Walk(FormatOf(sites, d)), d.tags, d.payload, true)
  }

  /** A logging call the compiler let through: the format string at its site is
  valid and has as many placeholders as there are arguments. */
  predicate CheckedCall(sites: Sites, m: Message) {
    && Has(m.flags, FLAG_SITE) && !Legacy(m.flags)
    && Validate(sites(m.site).fmt).Ok? && Places(Validate(sites(m.site).fmt).value) == Count(m.args)
  }

  /** From the logging call to the message: whatever goes over the wire is
  rendered as the items of the format string at the call's own site with the
  arguments in order, each once; no argument is missing, no brace is stray,
  nothing panics, and the record is read to its last byte. */
  lemma LineIsFaithful(sites: Sites, m: Message)
    requires CheckedCall(sites, m) && Count(m.args) <= 255 && TotalSize(m) <= MAX_RECORD_SIZE
    ensures MessageOf(sites, Decode(WireBytes(m)))
            == Out(Rendered(Validate(sites(m.site).fmt).value, m.args), [])
  {
    var fmt, pays := sites(m.site).fmt, Payloads(m.args);
    WalkersAgree(fmt);
    PrintInvertsValidate(fmt);
    RoundTrip(m);
    FillShowsAll(Validate(fmt).value, m.args, []);
    assert pays + [] == pays;
  }

  /** A record without a site renders an empty message and leaves its arguments
  unread. */
  lemma NoSiteNoMessage(sites: Sites, m: Message)
    requires !Has(m.flags, FLAG_SITE) && !Legacy(m.flags)
    requires Count(m.args) <= 255 && TotalSize(m) <= MAX_RECORD_SIZE
    ensures MessageOf(sites, Decode(WireBytes(m))) == Out([], Payloads(m.args))
  {
    RoundTrip(m);
  }

  // ---------------------------------------------------------------- The loops

  function Counted(r: Result<Items>): Result<nat> { if r.Ok? then Ok(Places(r.value)) else Err(r.error) }

  function Plus(n: nat, r: Result<nat>): Result<nat> { if r.Ok? then Ok(n + r.value) else r }

  lemma PlusPlus(n: nat, k: nat, r: Result<nat>)
    ensures Plus(n, Plus(k, r)) == Plus(n + k, r)
  {
  }

  method FindFrom(s: seq<Byte>, start: nat, c: Byte, d: Byte) returns (i: nat)
    requires start <= |s|
    ensures start <= i <= |s| && i - start == RunTo(s[start..], c, d)
  {
    i := start;
    while i < |s| && s[i] != c && s[i] != d
      invariant start <= i <= |s| && RunTo(s[start..], c, d) == i - start + RunTo(s[i..], c, d)
    {
      DropNext(s, i);
      i := i + 1;
    }
  }

  method FindFirst(s: seq<Byte>, c: Byte) returns (i: nat)
    ensures i == RunTo(s, c, c)
  {
    i := FindFrom(s, 0, c, c);
    assert s[0..] == s;
  }

  /** `is_all_digits`. */
  method IsAllDigits(s: seq<Byte>, start: nat, end: nat) returns (b: bool)
    requires start <= end <= |s|
    ensures b == AllDigits(s[start..end])
  {
    for j := start to end
      invariant forall k | start <= k < j :: IsDigit(s[k])
    {
      if !IsDigit(s[j]) {
        assert s[start..end][j - start] == s[j];
        return false;
      }
    }
    return true;
  }

  method ExpectClose(bytes: seq<Byte>, i: nat) returns (r: Result<nat>)
    requires i <= |bytes|
    ensures r.Ok? ==> i < r.value <= |bytes|
    ensures Located(bytes, r) == Close(Ok(bytes[i..]))
  {
    if i >= |bytes| { return Err(Unclosed); }
    DropNext(bytes, i);
    if bytes[i] != CLOSE { return Err(Trailing); }
    return Ok(i + 1);
  }

  /** The end of a placeholder: the spec behind a colon, and the closing brace. */
  method ClosePlace(bytes: seq<Byte>, at: nat) returns (r: Result<nat>)
    requires at < |bytes| && (bytes[at] == COLON || bytes[at] == CLOSE)
    ensures r.Ok? ==> at < r.value <= |bytes|
    ensures Located(bytes, r) == if bytes[at] == COLON then CheckInline(bytes[at + 1..]) else Ok(bytes[at + 1..])
  {
    if bytes[at] == COLON {
      r := ParseSpecConst(bytes, at + 1);
      if r.Ok? { r := ExpectClose(bytes, r.value); }
    } else {
      DropNext(bytes, at);
      r := ExpectClose(bytes, at);
    }
  }

  /** One placeholder of `validate_fmt`, from behind its opening brace. */
  method ValidatePlace(bytes: seq<Byte>, start: nat) returns (r: Result<nat>)
    requires start <= |bytes|
    ensures r.Ok? ==> start < r.value <= |bytes|
    ensures Located(bytes, r) == ReadPlace(bytes[start..])
  {
    var i := FindFrom(bytes, start, COLON, CLOSE);
    assert bytes[start..][..i - start] == bytes[start..i];
    var digits := IsAllDigits(bytes, start, i);
    if start < i && digits { return Err(Positional); }
    if i >= |bytes| { return Err(Unclosed); }
    DropAt(bytes, start, i);
    r := ClosePlace(bytes, i);
  }

  lemma DropAt(s: seq<Byte>, start: nat, i: nat)
    requires start <= i < |s|
    ensures s[start..][i - start] == s[i] && s[start..][i - start + 1..] == s[i + 1..]
  {
  }

  lemma ValidateStep(s: seq<Byte>)
    requires s != [] && s[0] == OPEN && !(|s| > 1 && s[1] == OPEN)
    ensures var r := ReadPlace(s[1..]);
            Counted(Validate(s)) == if r.Err? then Err(r.error) else Plus(1, Counted(Validate(r.value)))
  {
    var r := ReadPlace(s[1..]);
    if r.Ok? {
      PlaceEndsAtBrace(s[1..]);
      var c := s[1..][..RunTo(s[1..], CLOSE, CLOSE)];
      assert Validate(s) == AddPlace(c, Validate(r.value));
    }
  }

  /** The placeholder branch of `validate_fmt`. */
  method PassPlace(fmt: seq<Byte>, i: nat) returns (r: Result<nat>)
    requires i < |fmt| && fmt[i] == OPEN && !(i + 1 < |fmt| && fmt[i + 1] == OPEN)
    ensures r.Ok? ==> i < r.value <= |fmt|
    ensures Counted(Validate(fmt[i..]))
            == if r.Err? then Err(r.error) else Plus(1, Counted(Validate(fmt[r.value..])))
  {
    DropNext(fmt, i);
    ValidateStep(fmt[i..]);
    r := ValidatePlace(fmt, i + 1);
  }

  lemma ValidateEscape(s: seq<Byte>, b: Byte)
    requires |s| > 1 && s[0] == b && s[1] == b && (b == OPEN || b == CLOSE)
    ensures Counted(Validate(s)) == Counted(Validate(s[2..]))
  {
  }

  lemma ValidateOther(s: seq<Byte>)
    requires s != [] && s[0] != OPEN && s[0] != CLOSE
    ensures Counted(Validate(s)) == Counted(Validate(s[1..]))
  {
  }

  /** One turn of `validate_fmt`: where it goes on, and the placeholders passed. */
  method PassItem(fmt: seq<Byte>, i: nat) returns (r: Result<nat>, places: nat)
    requires i < |fmt|
    ensures r.Ok? ==> i < r.value <= |fmt|
    ensures Counted(Validate(fmt[i..]))
            == if r.Err? then Err(r.error) else Plus(places, Counted(Validate(fmt[r.value..])))
  {
    ghost var s := fmt[i..];
    DropNext(fmt, i);
    places := 0;
    if fmt[i] == OPEN {
      if i + 1 < |fmt| && fmt[i + 1] == OPEN {
        ValidateEscape(s, OPEN);
        assert s[2..] == fmt[i + 2..];
        return Ok(i + 2), 0;
      }
      r := PassPlace(fmt, i);
      places := 1;
    } else if fmt[i] == CLOSE {
      if i + 1 < |fmt| && fmt[i + 1] == CLOSE {
        ValidateEscape(s, CLOSE);
        assert s[2..] == fmt[i + 2..];
        return Ok(i + 2), 0;
      }
      return Err(Unmatched), 0;
    } else {
      ValidateOther(s);
      return Ok(i + 1), 0;
    }
  }

  /** `validate_fmt`: the number of placeholders, or the first error. */
  method ValidateFmt(fmt: seq<Byte>) returns (r: Result<nat>)
    ensures Validate(fmt).Ok? ==> r == Ok(Places(Validate(fmt).value))
    ensures Validate(fmt).Err? ==> r == Err(Validate(fmt).error)
  {
    var i, count := 0, 0;
    assert fmt[0..] == fmt;
    while i < |fmt|
      invariant i <= |fmt| && Counted(Validate(fmt)) == Plus(count, Counted(Validate(fmt[i..])))
      decreases |fmt| - i
    {
      var next, places := PassItem(fmt, i);
      if next.Err? { return Err(next.error); }
      PlusPlus(count, places, Counted(Validate(fmt[next.value..])));
      i, count := next.value, count + places;
    }
    return Ok(count);
  }

  /** `parse_placeholder`, spec only. */
  method ParsePlaceholder(content: seq<Byte>) returns (spec: FormatSpec)
    ensures spec == ContentSpec(content)
  {
    var n := FindFirst(content, COLON);
    if n < |content| { spec := ParseSpecBody(content[n + 1..]); } else { spec := DEFAULT_SPEC; }
  }

  /** Pieces already emitted, in front of the rest. */
  function After(p: seq<Piece>, o: Out): Out { if o.Panic? then o else o.(pieces := p + o.pieces) }

  lemma AfterThen(p: seq<Piece>, x: Piece, o: Out)
    ensures After(p, Then(x, o)) == After(p + [x], o)
  {
    if o.Out? { Assoc(p, [x], o.pieces); }
  }

  /** The tags still to come. */
  function TagsFrom(tags: seq<Byte>, i: nat): seq<Byte> { if i <= |tags| then tags[i..] else [] }

  lemma TagsNext(tags: seq<Byte>, i: nat)
    ensures i < |tags| ==> TagsFrom(tags, i) != [] && TagsFrom(tags, i)[0] == tags[i]
                           && TagsFrom(tags, i)[1..] == TagsFrom(tags, i + 1)
    ensures i >= |tags| ==> TagsFrom(tags, i) == [] == TagsFrom(tags, i + 1)
  {
  }

  /** One placeholder of `interleave`: the piece it adds, whether arguments can
  still be read, and whether the formatter panicked. */
  method EmitArg(
      tags: seq<Byte>, argIdx: nat, ok: bool, spec: FormatSpec, c: Cursor, ghost content: seq<Byte>, ghost more: Items)
    returns (piece: Piece, ok': bool, panic: bool)
    requires c.Valid() && spec == ContentSpec(content)
    modifies c
    ensures c.Valid()
    ensures Fill(Place(content, more), TagsFrom(tags, argIdx), old(c.Rest()), ok)
            == if panic then Panic else Then(piece, Fill(more, TagsFrom(tags, argIdx + 1), c.Rest(), ok'))
  {
    TagsNext(tags, argIdx);
    ok', panic := ok, false;
    if argIdx >= |tags| {
      piece := Missing;
    } else if !ok {
      piece := Unknown(tags[argIdx]);
    } else {
      var a := c.ReadArg(tags[argIdx]);
      match a {
        case Got(v, _) => piece := Shown(spec, v);
        case UnknownTag => piece, ok' := Unknown(tags[argIdx]), false;
        case ShortPayload => piece, panic := Missing, true;
      }
    }
  }

  lemma WalkPlace(s: seq<Byte>, j: nat)
    requires s != [] && s[0] == OPEN && !(|s| > 1 && s[1] == OPEN) && j == RunTo(s[1..], CLOSE, CLOSE)
    ensures Walk(s) == Place(s[1..][..j], Walk(if j < |s| - 1 then s[1..][j + 1..] else []))
  {
  }

  /** The placeholder branch of `interleave`. */
  method EmitPlace(fmt: seq<Byte>, i: nat, tags: seq<Byte>, argIdx: nat, ok: bool, c: Cursor)
    returns (piece: Piece, next: nat, ok': bool, panic: bool)
    requires i < |fmt| && fmt[i] == OPEN && !(i + 1 < |fmt| && fmt[i + 1] == OPEN) && c.Valid()
    modifies c
    ensures i < next <= |fmt| && c.Valid()
    ensures Fill(Walk(fmt[i..]), TagsFrom(tags, argIdx), old(c.Rest()), ok)
            == if panic then Panic
               else Then(piece, Fill(Walk(fmt[next..]), TagsFrom(tags, argIdx + 1), c.Rest(), ok'))
  {
    DropNext(fmt, i);
    var j := FindFrom(fmt, i + 1, CLOSE, CLOSE);
    next := if j < |fmt| then j + 1 else j;
    WalkPlace(fmt[i..], j - i - 1);
    NextOf(fmt, i, j);
    var spec := ParsePlaceholder(fmt[i + 1..j]);
    piece, ok', panic := EmitArg(tags, argIdx, ok, spec, c, fmt[i + 1..j], Walk(fmt[next..]));
  }

  /** `interleave`: what it writes and what it leaves of the record. */
  method Interleave(fmt: seq<Byte>, tags: seq<Byte>, c: Cursor) returns (pieces: seq<Piece>, panic: bool)
    requires c.Valid()
    modifies c
    ensures c.Valid()
    ensures Fill(Walk(fmt), tags, old(c.Rest()), true) == if panic then Panic else Out(pieces, c.Rest())
  {
    pieces, panic := [], false;
    var i, argIdx, ok := 0, 0, true;
    ghost var all := Fill(Walk(fmt), tags, c.Rest(), true);
    while i < |fmt|
      invariant i <= |fmt| && c.Valid()
      invariant all == After(pieces, Fill(Walk(fmt[i..]), TagsFrom(tags, argIdx), c.Rest(), ok))
      decreases |fmt| - i
    {
      ghost var s := fmt[i..];
      DropNext(fmt, i);
      if fmt[i] == OPEN {
        if i + 1 < |fmt| && fmt[i + 1] == OPEN {
          assert s[2..] == fmt[i + 2..];
          AfterThen(pieces, Raw(OPEN), Fill(Walk(fmt[i + 2..]), TagsFrom(tags, argIdx), c.Rest(), ok));
          pieces := pieces + [Raw(OPEN)];
          i := i + 2;
          continue;
        }
        var piece, next;
        piece, next, ok, panic := EmitPlace(fmt, i, tags, argIdx, ok, c);
        if panic { return; }
        AfterThen(pieces, piece, Fill(Walk(fmt[next..]), TagsFrom(tags, argIdx + 1), c.Rest(), ok));
        pieces := pieces + [piece];
        i := next;
        argIdx := argIdx + 1;
      } else if fmt[i] == CLOSE {
        var piece := if i + 1 < |fmt| && fmt[i + 1] == CLOSE then Raw(CLOSE) else StrayBrace;
        var next := if i + 2 <= |fmt| then i + 2 else |fmt|;
        assert |s| > 1 ==> s[2..] == fmt[next..];
        AfterThen(pieces, piece, Fill(Walk(fmt[next..]), TagsFrom(tags, argIdx), c.Rest(), ok));
        pieces := pieces + [piece];
        i := next;
      } else {
        AfterThen(pieces, Raw(fmt[i]), Fill(Walk(fmt[i + 1..]), TagsFrom(tags, argIdx), c.Rest(), ok));
        pieces := pieces + [Raw(fmt[i])];
        i := i + 1;
      }
    }
  }

  lemma NextOf(s: seq<Byte>, i: nat, j: nat)
    requires i < j <= |s|
    ensures s[i..][1..][..j - i - 1] == s[i + 1..j]
    ensures j < |s| ==> s[i..][1..][j - i..] == s[j + 1..]
    ensures j == |s| ==> s[j..] == []
  {
  }
}
