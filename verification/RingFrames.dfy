/** Frames laid end to end along the ring's ever-growing positions.

`Placement` says which frames lie where; a list of frames tiles the positions
from `p` to `end` when each lies where the previous one stops. */
module RingFrames {
  import opened Layout

  /** A log record or a filler, with the positions it occupies. */
  datatype Frame = Rec(rec: Record, size: nat) | Filler(size: nat)

  datatype Frames = End | Cons(first: Frame, rest: Frames)

  type Placement = (nat, Frame) -> bool

  datatype Reach = Lost | At(end: nat)

  /** Walking the frames `fs` from position `p`: where they end, if all are there. */
  function Walk(at: Placement, p: nat, fs: Frames): Reach
    decreases fs
  {
    match fs
    case End => At(p)
    case Cons(f, rest) => if at(p, f) then Walk(at, p + f.size, rest) else Lost
  }

  predicate Tiles(at: Placement, p: nat, fs: Frames, end: nat) {
    Walk(at, p, fs) == At(end)
  }

  function RecordOf(f: Frame): seq<Record> {
    match f case Rec(r, _) => [r] case Filler(_) => []
  }

  function Records(fs: Frames): seq<Record> {
    match fs case End => [] case Cons(f, rest) => RecordOf(f) + Records(rest)
  }

  function Append(fs: Frames, gs: Frames): Frames {
    match fs case End => gs case Cons(f, rest) => Cons(f, Append(rest, gs))
  }

  lemma {:induction false} TilesForward(at: Placement, p: nat, fs: Frames, end: nat)
    requires Tiles(at, p, fs, end)
    ensures p <= end
    decreases fs
  {
    match fs
    case End =>
    case Cons(f, rest) => TilesForward(at, p + f.size, rest, end);
  }

  lemma TilesCons(at: Placement, p: nat, f: Frame, rest: Frames, end: nat)
    requires at(p, f) && Tiles(at, p + f.size, rest, end)
    ensures Tiles(at, p, Cons(f, rest), end)
  {
  }

  lemma {:induction false} TilesAppend(at: Placement, p: nat, fs: Frames, mid: nat, gs: Frames, end: nat)
    requires Tiles(at, p, fs, mid) && Tiles(at, mid, gs, end)
    ensures Tiles(at, p, Append(fs, gs), end)
    decreases fs
  {
    match fs
    case End =>
    case Cons(f, rest) => TilesAppend(at, p + f.size, rest, mid, gs, end);
  }

  lemma {:induction false} RecordsAppend(fs: Frames, gs: Frames)
    ensures Records(Append(fs, gs)) == Records(fs) + Records(gs)
  {
    match fs
    case End =>
    case Cons(g, rest) => RecordsAppend(rest, gs);
  }

  /** A tiling survives any change that keeps the frames inside its range. */
  lemma {:induction false} TilesKept(at: Placement, at': Placement, p: nat, fs: Frames, end: nat)
    requires Tiles(at, p, fs, end)
    requires forall q: nat, f: Frame | p <= q && q + f.size <= end && at(q, f) :: at'(q, f)
    ensures Tiles(at', p, fs, end)
    decreases fs
  {
    match fs
    case End =>
    case Cons(f, rest) =>
      TilesForward(at, p + f.size, rest, end);
      TilesKept(at, at', p + f.size, rest, end);
  }
}
