/** What becomes of a logging call with more arguments than the count byte holds.

The macros nest one level per argument, so such a call compiles only under a
raised recursion limit; nothing else stops it. */
module ManyArgs {
  import opened Layout
  import opened Wire
  import opened FormatSpecs
  import opened FormatStrings

  function Empties(k: nat): Args { if k == 0 then Nil else Arg(StrVal([]), Empties(k - 1)) }

  lemma {:induction false} EmptiesSizes(k: nat)
    ensures Count(Empties(k)) == k && ArgsSize(Empties(k)) == 2 * k
  {
    if k > 0 { EmptiesSizes(k - 1); }
  }

  /** An empty string, a number and `k` more empty strings. */
  function Arguments(x: Word64, k: nat): Args { Arg(StrVal([]), Arg(U64Val(x), Empties(k))) }

  /** A call with two arguments more than a multiple of 256, whose record ends
  within the string length that two tags make up: with `k` 256, 258 arguments in
  549 bytes. */
  predicate IsLongCall(m: Message, x: Word64, k: nat) {
    && k > 0 && k % 256 == 0 && 2 * k + 10 <= 2829
    && m.args == Arguments(x, k) && Has(m.flags, FLAG_SITE) && !Legacy(m.flags)
  }

  lemma LongCallSizes(m: Message, x: Word64, k: nat)
    requires IsLongCall(m, x, k)
    ensures Count(m.args) == k + 2 && Count(m.args) % 256 == 2
    ensures ArgsSize(m.args) == 2 * k + 10 && TotalSize(m) == 2 * k + 37 && |Fixed(m)| == 25
  {
    ArgumentsSizes(x, k);
    CountByte(k);
    assert |Site(m)| == 8;
  }

  lemma CountByte(k: nat)
    requires k % 256 == 0
    ensures (k + 2) % 256 == 2
  {
  }

  lemma ArgumentsSizes(x: Word64, k: nat)
    ensures Count(Arguments(x, k)) == k + 2 && ArgsSize(Arguments(x, k)) == 2 * k + 10
  {
    EmptiesSizes(k);
    var rest := Arg(U64Val(x), Empties(k));
    assert Count(rest) == k + 1 && ArgsSize(rest) == 2 * k + 8;
  }

  /** One empty string written: its tag, and a zero length. */
  lemma EmptyWritten(s: seq<Byte>, k: nat, tag: nat, pay: nat) returns (s': seq<Byte>)
    requires k > 0 && tag < pay && tag + k <= |s| && pay + 2 * k <= |s|
    ensures |s'| == |s| && s'[tag] == TAG_STR
    ensures tag + Count(Empties(k)) <= |s| && pay + ArgsSize(Empties(k)) <= |s|
    ensures tag + 1 + Count(Empties(k - 1)) <= |s| && pay + 2 + ArgsSize(Empties(k - 1)) <= |s|
    ensures ArgsWritten(s, Empties(k), tag, pay) == ArgsWritten(s', Empties(k - 1), tag + 1, pay + 2)
  {
    EmptiesSizes(k);
    EmptiesSizes(k - 1);
    s' := Splice(Splice(s, tag, [TAG_STR]), pay, Payload(StrVal([])));
  }

  /** Tags written beyond the room for them overwrite the payloads there. */
  lemma {:induction false} TagsOverwrite(s: seq<Byte>, k: nat, tag: nat, pay: nat, p: nat)
    requires tag <= p < tag + k && p < pay && tag + k <= |s| && pay + 2 * k <= |s|
    ensures tag + Count(Empties(k)) <= |s| && pay + ArgsSize(Empties(k)) <= |s|
    ensures ArgsWritten(s, Empties(k), tag, pay)[p] == TAG_STR
    decreases k
  {
    var s' := EmptyWritten(s, k, tag, pay);
    if p == tag {
      ArgsWrittenPrefix(s', Empties(k - 1), tag + 1, pay + 2, p + 1);
      var r := ArgsWritten(s', Empties(k - 1), tag + 1, pay + 2);
      assert r[p] == r[..p + 1][p] == s'[..p + 1][p];
    } else {
      TagsOverwrite(s', k - 1, tag + 1, pay + 2, p);
    }
  }

  /** The arguments of a long call as they end up in the slot: two tags, then a
  string length made of two more tags. */
  lemma LongCallBytes(m: Message, x: Word64, k: nat, s: seq<Byte>)
    requires IsLongCall(m, x, k) && |s| == TotalSize(m)
    ensures var r := Assembled(m, s);
            |r| > 29 && r[25] == TAG_STR && r[26] == 0 && r[27] == TAG_STR && r[28] == TAG_STR
  {
    LongCallSizes(m, x, k);
    EmptiesSizes(k);
    var s0 := Splice(s, 0, Fixed(m));
    var s1 := Splice(Splice(s0, 25, [TAG_STR]), 27, Payload(StrVal([])));
    var s2 := Splice(Splice(s1, 26, [TypeTag(U64Val(x))]), 29, Payload(U64Val(x)));
    TwoArgsWritten(s0, x, k);
    ArgsWrittenPrefix(s2, Empties(k), 27, 37, 27);
    var r := Assembled(m, s);
    assert r[25] == r[..27][25] == s2[..27][25] && r[26] == r[..27][26] == s2[..27][26];
    TagsOverwrite(s2, k, 27, 37, 27);
    TagsOverwrite(s2, k, 27, 37, 28);
  }

  lemma TwoArgsWritten(s: seq<Byte>, x: Word64, k: nat)
    requires |s| >= 2 * k + 37
    ensures 25 + Count(Arguments(x, k)) <= |s| && 27 + ArgsSize(Arguments(x, k)) <= |s|
    ensures 27 + Count(Empties(k)) <= |s| && 37 + ArgsSize(Empties(k)) <= |s|
    ensures var s1 := Splice(Splice(s, 25, [TAG_STR]), 27, Payload(StrVal([])));
            var s2 := Splice(Splice(s1, 26, [TypeTag(U64Val(x))]), 29, Payload(U64Val(x)));
            ArgsWritten(s, Arguments(x, k), 25, 27) == ArgsWritten(s2, Empties(k), 27, 37)
  {
    EmptiesSizes(k);
    var rest := Arg(U64Val(x), Empties(k));
    assert Count(rest) == k + 1 && ArgsSize(rest) == 2 * k + 8;
    var s1 := Splice(Splice(s, 25, [TAG_STR]), 27, Payload(StrVal([])));
    assert ArgsWritten(s, Arguments(x, k), 25, 27) == ArgsWritten(s1, rest, 26, 29);
  }

  /** The drain takes the overwritten length for 2827, so the first string runs to
  the end of the record and the number after it has no bytes left. */
  lemma LongCallDecodes(m: Message, x: Word64, k: nat, s: seq<Byte>)
    requires IsLongCall(m, x, k) && |s| == TotalSize(m)
    ensures var d := Decode(Assembled(m, s));
            && d.tags == [TAG_STR, 0] && d.sections == SiteSection(m)
            && (exists v :: TakeArg(TAG_STR, d.payload) == Got(v, []))
            && TakeArg(0, []).ShortPayload?
  {
    LongCallSizes(m, x, k);
    LongCallBytes(m, x, k, s);
    var rest := AssembledFrames(m, s);
    FixedDecodes(m, rest);
    var r, d := Assembled(m, s), Decode(Assembled(m, s));
    assert rest[0] == r[25] && rest[1] == r[26] && rest[2] == r[27] && rest[3] == r[28];
    assert rest[..2] == [TAG_STR, 0] && d.payload == rest[2..];
    LengthIsTags(d.payload);
  }

  lemma LengthIsTags(b: seq<Byte>)
    requires 2 <= |b| <= 2829 && b[0] == TAG_STR && b[1] == TAG_STR
    ensures TakeArg(TAG_STR, b) == Got(StrVal(b[2..]), [])
  {
    WordBytes(2827);
    assert b[..2] == LeBytes(2827, 2);
    LeRoundTrip(2827, 2);
    var s := b[2..];
    assert s[..|s|] == s && s[|s|..] == [];
  }

  lemma {:induction false} SecondArgumentPanics(it: Items, b: seq<Byte>, v: Value)
    requires Places(it) >= 2 && TakeArg(TAG_STR, b) == Got(v, [])
    ensures Fill(it, [TAG_STR, 0], b, true).Panic?
    decreases it
  {
    match it
    case Lit(_, more) => SecondArgumentPanics(more, b, v);
    case Stray(more) => SecondArgumentPanics(more, b, v);
    case Place(_, more) =>
      assert [TAG_STR, 0][1..] == [0];
      FillOnNothingPanics(more, [0]);
  }

  /** The compiler lets the call through, the record is framed and published, and
  rendering its message panics the drain thread. */
  lemma LongCallPanicsDrain(sites: Sites, m: Message, x: Word64, k: nat, s: seq<Byte>)
    requires IsLongCall(m, x, k) && |s| == TotalSize(m) && CheckedCall(sites, m)
    ensures ValidRecord(Assembled(m, s))
    ensures MessageOf(sites, Decode(Assembled(m, s))).Panic?
  {
    LongCallSizes(m, x, k);
    LongCallDecodes(m, x, k, s);
    var rest := AssembledFrames(m, s);
    var d := Decode(Assembled(m, s));
    var v :| TakeArg(TAG_STR, d.payload) == Got(v, []);
    WalkersAgree(sites(m.site).fmt);
    SecondArgumentPanics(FormatStrings.Walk(FormatOf(sites, d)), d.payload, v);
  }

  /** `n` empty placeholders. */
  function Holes(n: nat): Items { if n == 0 then Finish else Place([], Holes(n - 1)) }

  lemma EmptyHoleIsGood(more: Items)
    requires Good(more)
    ensures Good(Place([], more))
  {
    assert RunTo([], COLON, COLON) == 0;
  }

  lemma {:induction false} HolesAreGood(n: nat)
    ensures Good(Holes(n)) && Places(Holes(n)) == n
  {
    if n > 0 {
      HolesAreGood(n - 1);
      EmptyHoleIsGood(Holes(n - 1));
    }
  }

  /** Such calls exist: with as many empty placeholders as arguments. */
  lemma LongCallExists(k: nat) returns (sites: Sites, m: Message)
    requires k == 256
    ensures IsLongCall(m, 0, k) && CheckedCall(sites, m) && Count(m.args) == 258 && TotalSize(m) == 549
  {
    m := Message(Info, FLAG_SITE, 0, 0, Arguments(0, k));
    LongCallSizes(m, 0, k);
    HolesAreGood(k + 2);
    ValidateInvertsPrint(Holes(k + 2));
    var fmt := PrintItems(Holes(k + 2));
    sites := _ => SiteInfo(fmt, [], 0);
  }
}
