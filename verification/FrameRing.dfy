/**
 The player's frame queue: `frame_queue_*` in fftools/ffplay.c, a ring between one writer (a decoder)
 and one reader (the display or the audio callback). Each side moves its own index outside the lock
 and changes the shared count under it, so the two interleave at every single step. With `keep_last`
 the frame shown last stays in the ring until the next one is taken.
 */
module FrameRing {
  import opened Common

  const FRAME_QUEUE_SIZE: nat := 16

  /** The ring's fields; `slots` has `max_size` places, empty when unreferenced. */
  datatype Ring = Ring(slots: seq<Option<int>>, rindex: nat, windex: nat, size: int, shown: bool, keepLast: bool)

  function Bit(b: bool): nat { if b then 1 else 0 }

  function Wrap(i: nat, max: nat): nat { if i + 1 == max then 0 else i + 1 }

  // ---------------------------------------------------------------- the atomic steps on the ring

  function Fill(r: Ring, frame: int): Ring
    requires r.windex < |r.slots|
  {
    r.(slots := r.slots[r.windex := Some(frame)])
  }

  function MoveWriter(r: Ring): Ring { r.(windex := Wrap(r.windex, |r.slots|)) }

  function CountUp(r: Ring): Ring { r.(size := r.size + 1) }

  function Show(r: Ring): Ring { r.(shown := true) }

  function Unref(r: Ring): Ring
    requires r.rindex < |r.slots|
  {
    r.(slots := r.slots[r.rindex := None])
  }

  function MoveReader(r: Ring): Ring { r.(rindex := Wrap(r.rindex, |r.slots|)) }

  function CountDown(r: Ring): Ring { r.(size := r.size - 1) }

  /** The number of frames not yet shown. */
  function Remaining(r: Ring): int { r.size - Bit(r.shown) }

  class FrameQueue {
    const queue: array<Option<int>>
    const keepLast: bool
    var rindex: nat
    var windex: nat
    var size: int
    var rindexShown: bool

    ghost predicate Valid()
      reads this, queue
    {
      0 < queue.Length && rindex < queue.Length && windex < queue.Length
    }

    function View(): Ring
      reads this, queue
    {
      Ring(queue[..], rindex, windex, size, rindexShown, keepLast)
    }

    constructor (maxSize: nat, keepLast: bool)
      requires maxSize > 0
      ensures Valid() && View() == Initial(Min(maxSize, FRAME_QUEUE_SIZE), keepLast)
    {
      queue := new Option<int>[Min(maxSize, FRAME_QUEUE_SIZE)](_ => None);
      this.keepLast := keepLast;
      rindex, windex, size, rindexShown := 0, 0, 0, false;
    }

    /**
     Where the writer puts the next frame; None means that it would wait. In any state `s` of the two
     threads with this ring, it waits exactly when the ring is full, counting a frame that the reader is
     still releasing, and the place it gets is that of the next frame, which no frame in the queue holds.
     */
    method PeekWritable(ghost s: System) returns (slot: Option<nat>)
      requires Valid() && s.r == View() && Inv(s) && s.writer.WIdle?
      ensures slot.None? <==> Occupied(Abstract(s)) + Bit(!s.reader.RIdle?) == |s.r.slots|
      ensures slot.Some? ==> slot.value == Slot(s, |s.pushed|)
      ensures slot.Some? ==> forall k :: s.retired <= k < |s.pushed| ==> slot.value != Slot(s, k)
      ensures slot.Some? && s.reader.RUnreferenced? ==> slot.value != s.r.rindex
    {
      if size >= queue.Length { return None; }
      forall k | s.retired <= k < |s.pushed| ensures windex != Slot(s, k) {
        StoredApart(s, k, |s.pushed|);
      }
      if s.reader.RUnreferenced? { StoredApart(s, s.retired - 1, |s.pushed|); }
      return Some(windex);
    }

    method Store(frame: int)
      requires Valid()
      modifies queue
      ensures Valid() && View() == Fill(old(View()), frame)
    {
      queue[windex] := Some(frame);
    }

    method Push()
      requires Valid()
      modifies this
      ensures Valid() && View() == CountUp(MoveWriter(old(View())))
    {
      windex := windex + 1;
      if windex == queue.Length { windex := 0; }
      size := size + 1;
    }

    method Next()
      requires Valid()
      modifies this, queue
      ensures Valid()
      ensures View() ==
        if old(keepLast && !rindexShown) then Show(old(View()))
        else CountDown(MoveReader(Unref(old(View()))))
    {
      if keepLast && !rindexShown {
        rindexShown := true;
        return;
      }
      queue[rindex] := None;
      rindex := rindex + 1;
      if rindex == queue.Length { rindex := 0; }
      size := size - 1;
    }

    /** Looking `offset` frames ahead shows that frame of the queue, in any state `s` with this ring. */
    method Peek(offset: nat, ghost s: System) returns (frame: Option<int>)
      requires Valid() && s.r == View() && Inv(s) && s.reader.RIdle?
      ensures offset < |Abstract(s).queue| ==> frame == Some(Abstract(s).queue[offset])
      ensures frame == s.r.slots[Slot(s, s.retired + Bit(s.r.shown) + offset)]
    {
      frame := queue[(rindex + Bit(rindexShown) + offset) % queue.Length];
      ModAdd(s.retired, Bit(s.r.shown) + offset, |s.r.slots|);
    }

    /** Looking back shows the frame kept since it was shown, or the first one if none was shown yet. */
    method PeekLast(ghost s: System) returns (frame: Option<int>)
      requires Valid() && s.r == View() && Inv(s) && s.reader.RIdle?
      ensures Abstract(s).kept.Some? ==> frame == Abstract(s).kept
      ensures Abstract(s).kept.None? && |Abstract(s).queue| > 0 ==> frame == Some(Abstract(s).queue[0])
      ensures frame == s.r.slots[Slot(s, s.retired)]
    {
      frame := queue[rindex];
    }
  }

  /** frame_queue_peek (offset 0) and frame_queue_peek_next (offset 1). */
  function At(r: Ring, offset: nat): Option<int>
    requires |r.slots| > 0
  {
    r.slots[(r.rindex + Bit(r.shown) + offset) % |r.slots|]
  }

  function Initial(max: nat, keepLast: bool): Ring
  {
    Ring(seq(max, _ => None), 0, 0, 0, false, keepLast)
  }

  // ---------------------------------------------------------------- the two threads

  /** Writer: between calls, holding a writable slot, having filled it, having moved its index. */
  datatype WriterPc = WIdle | WHolding | WFilled | WMoved

  /** Reader: between calls, or inside frame_queue_next. */
  datatype ReaderPc = RIdle | RUnreferenced | RMoved

  /** A frame the reader has looked at: its slot, which frame it is, and the calls of next since. */
  datatype Peeked = Peeked(slot: nat, frame: nat, nexts: nat)

  /** `pushed` are the frames whose push has been counted; the first `retired` have left the queue. */
  datatype System = System(
    r: Ring, writer: WriterPc, filled: int, reader: ReaderPc, held: Option<Peeked>, pushed: seq<int>, retired: nat)

  datatype Action =
    | WriterPeek | WriterFill(frame: int) | WriterGiveUp | WriterMove | WriterCount
    | ReaderPeek | ReaderShow | ReaderUnref | ReaderMove | ReaderCount

  function Start(max: nat, keepLast: bool): System
  {
    System(Initial(max, keepLast), WIdle, 0, RIdle, None, [], 0)
  }

  /** The writer waits for space; the reader only looks or advances when a frame remains. */
  predicate Enabled(s: System, a: Action)
  {
    match a
    case WriterPeek => s.writer.WIdle? && s.r.size < |s.r.slots|
    case WriterFill(_) => s.writer.WHolding? && s.r.windex < |s.r.slots|
    case WriterGiveUp => s.writer.WHolding? || s.writer.WFilled?
    case WriterMove => s.writer.WFilled?
    case WriterCount => s.writer.WMoved?
    case ReaderPeek => s.reader.RIdle? && Remaining(s.r) > 0 && |s.r.slots| > 0
    case ReaderShow => s.reader.RIdle? && Remaining(s.r) > 0 && s.r.keepLast && !s.r.shown
    case ReaderUnref =>
      s.reader.RIdle? && Remaining(s.r) > 0 && !(s.r.keepLast && !s.r.shown) && s.r.rindex < |s.r.slots|
    case ReaderMove => s.reader.RUnreferenced?
    case ReaderCount => s.reader.RMoved?
  }

  function Aged(held: Option<Peeked>): Option<Peeked>
  {
    if held.Some? then Some(held.value.(nexts := held.value.nexts + 1)) else None
  }

  function Apply(s: System, a: Action): System
    requires Enabled(s, a)
  {
    match a
    case WriterPeek => s.(writer := WHolding)
    case WriterFill(f) => s.(r := Fill(s.r, f), writer := WFilled, filled := f)
    case WriterGiveUp => s.(writer := WIdle)
    case WriterMove => s.(r := MoveWriter(s.r), writer := WMoved)
    case WriterCount => s.(r := CountUp(s.r), writer := WIdle, pushed := s.pushed + [s.filled])
    case ReaderPeek =>
      s.(held := Some(Peeked((s.r.rindex + Bit(s.r.shown)) % |s.r.slots|, s.retired + Bit(s.r.shown), 0)))
    case ReaderShow => s.(r := Show(s.r), held := Aged(s.held))
    case ReaderUnref => s.(r := Unref(s.r), reader := RUnreferenced, retired := s.retired + 1, held := Aged(s.held))
    case ReaderMove => s.(r := MoveReader(s.r), reader := RMoved)
    case ReaderCount => s.(r := CountDown(s.r), reader := RIdle)
  }

  ghost predicate Follows(s: System, a: Action, s': System) { Enabled(s, a) && s' == Apply(s, a) }

  /** Any interleaving of one writer and one reader. */
  ghost predicate IsRun(max: nat, keepLast: bool, actions: seq<Action>, states: seq<System>)
  {
    && |states| == |actions| + 1
    && states[0] == Start(max, keepLast)
    && forall n :: 0 <= n < |actions| ==> Follows(states[n], actions[n], states[n + 1])
  }

  // ---------------------------------------------------------------- arithmetic of the ring

  lemma ModApart(a: nat, b: nat, m: nat)
    requires m > 0 && a < b < a + m
    ensures a % m != b % m
  {
    if a % m == b % m {
      var p, q := a / m, b / m;
      assert a == m * p + a % m && b == m * q + b % m;
      NoMultipleBetween(m, q - p);
    }
  }

  lemma NoMultipleBetween(m: nat, k: int)
    requires m > 0
    ensures !(0 < m * k < m)
  {
  }

  lemma ModNext(a: nat, m: nat)
    requires m > 0
    ensures a % m < m && Wrap(a % m, m) == (a + 1) % m
  {
    var p := a / m;
    if a % m + 1 == m {
      assert a + 1 == m * (p + 1);
      MultipleMod(p + 1, m, 0);
    } else {
      MultipleMod(p, m, a % m + 1);
    }
  }

  lemma MultipleMod(p: nat, m: nat, r: nat)
    requires r < m
    ensures (m * p + r) % m == r
  {
    var q := (m * p + r) / m;
    assert m * p + r == m * q + (m * p + r) % m;
    var d := m * (p - q);
    assert d == (m * p + r) % m - r;
    NoMultipleBetween(m, p - q);
    NoMultipleBetween(m, q - p);
    assert m * (q - p) == -d;
  }

  lemma ModAdd(a: nat, c: nat, m: nat)
    requires m > 0
    ensures (a % m + c) % m == (a + c) % m
  {
    var p, x := a / m, a % m + c;
    var q := x / m;
    assert a + c == m * (p + q) + x % m;
    MultipleMod(p + q, m, x % m);
  }

  // ---------------------------------------------------------------- the invariant

  /** The slot of the `k`-th frame ever pushed. */
  function Slot(s: System, k: nat): nat
    requires |s.r.slots| > 0
  {
    k % |s.r.slots|
  }

  ghost predicate Indices(s: System)
  {
    var max := |s.r.slots|;
    && max > 0
    && s.retired <= |s.pushed|
    && s.r.size == |s.pushed| - s.retired + Bit(!s.reader.RIdle?)
    && s.r.size <= max
    && (!s.writer.WIdle? ==> s.r.size < max)
    && (s.reader.RUnreferenced? ==> s.retired > 0)
    && s.r.rindex == (if s.reader.RUnreferenced? then Slot(s, s.retired - 1) else Slot(s, s.retired))
    && s.r.windex == Slot(s, |s.pushed| + Bit(s.writer.WMoved?))
    && (s.r.shown ==> s.r.keepLast && s.retired < |s.pushed|)
    && (s.r.keepLast && !s.reader.RIdle? ==> s.r.shown)
  }

  ghost predicate Contents(s: System)
    requires |s.r.slots| > 0
  {
    && (forall k :: s.retired <= k < |s.pushed| ==> s.r.slots[Slot(s, k)] == Some(s.pushed[k]))
    && (s.writer.WFilled? || s.writer.WMoved? ==> s.r.slots[Slot(s, |s.pushed|)] == Some(s.filled))
  }

  /** A peeked frame is the next one, and after one call of next, if it is kept, the one shown last. */
  ghost predicate HeldOk(s: System)
    requires |s.r.slots| > 0
  {
    s.held.Some? ==>
      var h := s.held.value;
      && h.slot == Slot(s, h.frame)
      && (h.nexts == 0 ==> h.frame == s.retired + Bit(s.r.shown) && h.frame < |s.pushed| && s.reader.RIdle?)
      && (h.nexts == 1 && s.r.keepLast ==> h.frame == s.retired < |s.pushed|)
  }

  ghost predicate Inv(s: System) { Indices(s) && Contents(s) && HeldOk(s) }

  lemma StoredApart(s: System, k: nat, j: nat)
    requires Indices(s) && k < j < k + |s.r.slots|
    ensures Slot(s, k) != Slot(s, j)
  {
    ModApart(k, j, |s.r.slots|);
  }

  lemma FillKeepsInv(s: System, f: int)
    requires Inv(s) && Enabled(s, WriterFill(f))
    ensures Inv(Apply(s, WriterFill(f)))
  {
    forall k | s.retired <= k < |s.pushed| ensures Slot(s, k) != s.r.windex {
      StoredApart(s, k, |s.pushed|);
    }
  }

  lemma WriterKeepsInv(s: System, a: Action)
    requires Inv(s) && Enabled(s, a) && (a.WriterPeek? || a.WriterGiveUp? || a.WriterMove? || a.WriterCount?)
    ensures Inv(Apply(s, a))
  {
    ModNext(|s.pushed|, |s.r.slots|);
  }

  lemma UnrefKeepsInv(s: System)
    requires Inv(s) && Enabled(s, ReaderUnref)
    ensures Inv(Apply(s, ReaderUnref))
  {
    forall k | s.retired < k <= |s.pushed| && (k < |s.pushed| || !s.writer.WIdle?) ensures Slot(s, k) != s.r.rindex {
      StoredApart(s, s.retired, k);
    }
  }

  lemma ReaderKeepsInv(s: System, a: Action)
    requires Inv(s) && Enabled(s, a) && (a.ReaderPeek? || a.ReaderShow? || a.ReaderMove? || a.ReaderCount?)
    ensures Inv(Apply(s, a))
  {
    if a.ReaderMove? { ModNext(s.retired - 1, |s.r.slots|); }
    if a.ReaderPeek? { ModAdd(s.retired, Bit(s.r.shown), |s.r.slots|); }
  }

  lemma StepKeepsInv(s: System, a: Action)
    requires Inv(s) && Enabled(s, a)
    ensures Inv(Apply(s, a))
  {
    if a.WriterFill? { FillKeepsInv(s, a.frame); }
    else if a.ReaderUnref? { UnrefKeepsInv(s); }
    else if a.ReaderPeek? || a.ReaderShow? || a.ReaderMove? || a.ReaderCount? { ReaderKeepsInv(s, a); }
    else { WriterKeepsInv(s, a); }
  }

  lemma StepKeepsShape(s: System, a: Action)
    requires Enabled(s, a)
    ensures |Apply(s, a).r.slots| == |s.r.slots| && Apply(s, a).r.keepLast == s.r.keepLast
  {
  }

  lemma {:induction false} InvHolds(max: nat, keepLast: bool, actions: seq<Action>, states: seq<System>, n: nat)
    requires max > 0 && IsRun(max, keepLast, actions, states) && n <= |actions|
    ensures Inv(states[n]) && |states[n].r.slots| == max && states[n].r.keepLast == keepLast
  {
    if n > 0 {
      assert Follows(states[n - 1], actions[n - 1], states[n]);
      InvHolds(max, keepLast, actions, states, n - 1);
      StepKeepsInv(states[n - 1], actions[n - 1]);
      StepKeepsShape(states[n - 1], actions[n - 1]);
    }
  }

  // ---------------------------------------------------------------- refinement of a bounded queue

  /** The simple queue: frames not yet taken, and the frame shown last when it is kept. */
  datatype Fifo = Fifo(queue: seq<int>, kept: Option<int>)

  function Abstract(s: System): Fifo
    requires s.retired + Bit(s.r.shown) <= |s.pushed|
  {
    Fifo(s.pushed[s.retired + Bit(s.r.shown)..], if s.r.shown then Some(s.pushed[s.retired]) else None)
  }

  function Put(f: Fifo, frame: int): Fifo { f.(queue := f.queue + [frame]) }

  function Take(f: Fifo, keepLast: bool): Fifo
    requires |f.queue| > 0
  {
    Fifo(f.queue[1..], if keepLast then Some(f.queue[0]) else None)
  }

  function Occupied(f: Fifo): nat { |f.queue| + Bit(f.kept.Some?) }

  /** Step `a` from `s` to `s'` is, on the simple queue, nothing, a put, or a take, allowed there. */
  ghost predicate Refines(s: System, a: Action, s': System)
  {
    && s.retired + Bit(s.r.shown) <= |s.pushed| && s'.retired + Bit(s'.r.shown) <= |s'.pushed|
    && var f, f' := Abstract(s), Abstract(s');
    && Occupied(f) <= |s.r.slots|
    && (if a.WriterCount? then Occupied(f) < |s.r.slots| && f' == Put(f, s.filled)
        else if a.ReaderShow? || a.ReaderUnref? then |f.queue| > 0 && f' == Take(f, s.r.keepLast)
        else f' == f)
  }

  lemma StepRefines(s: System, a: Action)
    requires Indices(s) && Enabled(s, a)
    ensures Refines(s, a, Apply(s, a))
  {
    var i := s.retired + Bit(s.r.shown);
    if a.WriterCount? {
      assert (s.pushed + [s.filled])[i..] == s.pushed[i..] + [s.filled];
    } else if a.ReaderShow? {
      assert s.pushed[i..][1..] == s.pushed[i + 1..];
    } else if a.ReaderUnref? {
      assert s.pushed[i..][1..] == s.pushed[i + 1..];
    }
  }

  /**
   Every step of every interleaving refines the simple queue: it is nothing, a put of the frame just
   filled in, or a take; and the waiting and the kept frames together never exceed the ring.
   */
  lemma RingIsBoundedFifo(max: nat, keepLast: bool, actions: seq<Action>, states: seq<System>, n: nat)
    requires max > 0 && IsRun(max, keepLast, actions, states) && n < |actions|
    ensures Refines(states[n], actions[n], states[n + 1])
    ensures |states[n].r.slots| == max && states[n].r.keepLast == keepLast
  {
    InvHolds(max, keepLast, actions, states, n);
    assert Follows(states[n], actions[n], states[n + 1]);
    StepRefines(states[n], actions[n]);
  }

  /** Looking at the ring shows exactly the simple queue. */
  lemma PeeksShowTheFifo(max: nat, keepLast: bool, actions: seq<Action>, states: seq<System>, n: nat)
    requires max > 0 && IsRun(max, keepLast, actions, states) && n <= |actions| && states[n].reader.RIdle?
    ensures
      var s := states[n];
      && |s.r.slots| == max && s.r.rindex < max && s.retired + Bit(s.r.shown) <= |s.pushed|
      && var f := Abstract(s);
      && Remaining(s.r) == |f.queue|
      && (|f.queue| > 0 ==> At(s.r, 0) == Some(f.queue[0]))
      && (|f.queue| > 1 ==> At(s.r, 1) == Some(f.queue[1]))
      && (f.kept.Some? ==> s.r.slots[s.r.rindex] == f.kept)
  {
    InvHolds(max, keepLast, actions, states, n);
    var s := states[n];
    ModAdd(s.retired, Bit(s.r.shown), max);
    ModAdd(s.retired, Bit(s.r.shown) + 1, max);
    var k := s.retired + Bit(s.r.shown);
    if k < |s.pushed| { assert s.r.slots[Slot(s, k)] == Some(s.pushed[k]); }
    if k + 1 < |s.pushed| { assert s.r.slots[Slot(s, k + 1)] == Some(s.pushed[k + 1]); }
  }

  // ---------------------------------------------------------------- no slot is shared

  /** The slot the writer may write to is never that of a frame still pending, kept, or being released. */
  lemma WritableSlotIsFree(max: nat, keepLast: bool, actions: seq<Action>, states: seq<System>, n: nat, k: nat)
    requires max > 0 && IsRun(max, keepLast, actions, states) && n <= |actions|
    requires states[n].writer.WHolding? || states[n].writer.WFilled?
    requires states[n].retired <= k < |states[n].pushed|
    ensures |states[n].r.slots| == max
    ensures states[n].r.windex != Slot(states[n], k)
    ensures states[n].reader.RUnreferenced? ==> states[n].r.windex != states[n].r.rindex
  {
    InvHolds(max, keepLast, actions, states, n);
    var s := states[n];
    StoredApart(s, k, |s.pushed|);
    if s.reader.RUnreferenced? { StoredApart(s, s.retired - 1, |s.pushed|); }
  }

  /** With keep_last a frame peeked before a call of next is still in its slot until the call after that one. */
  lemma PeekedFrameSurvivesNext(max: nat, actions: seq<Action>, states: seq<System>, n: nat)
    requires max > 0 && IsRun(max, true, actions, states) && n <= |actions|
    requires states[n].held.Some? && states[n].held.value.nexts <= 1
    ensures
      var s, h := states[n], states[n].held.value;
      h.slot < |s.r.slots| && h.frame < |s.pushed| && s.r.slots[h.slot] == Some(s.pushed[h.frame])
  {
    InvHolds(max, true, actions, states, n);
  }

  /** Without keep_last the very next call of next releases it. */
  lemma UnkeptFrameIsReleased(max: nat, actions: seq<Action>, states: seq<System>, n: nat)
    requires max > 0 && IsRun(max, false, actions, states) && n < |actions| && actions[n].ReaderUnref?
    requires states[n].held.Some? && states[n].held.value.nexts == 0
    ensures
      var s', h := states[n + 1], states[n].held.value;
      h.slot < |s'.r.slots| && s'.r.slots[h.slot] == None
  {
    InvHolds(max, false, actions, states, n);
    assert Follows(states[n], actions[n], states[n + 1]);
  }

  // ---------------------------------------------------------------- when the threads wait, and what they complete

  /** The writer waits exactly for a free slot, and the reader exactly for a waiting frame. */
  lemma WaitsExactly(s: System, frame: int)
    requires Inv(s)
    ensures s.writer.WIdle? ==>
      (Enabled(s, WriterPeek) <==> Occupied(Abstract(s)) + Bit(!s.reader.RIdle?) < |s.r.slots|)
    ensures s.writer.WHolding? <==> Enabled(s, WriterFill(frame))
    ensures s.writer.WHolding? || s.writer.WFilled? <==> Enabled(s, WriterGiveUp)
    ensures s.writer.WFilled? <==> Enabled(s, WriterMove)
    ensures s.writer.WMoved? <==> Enabled(s, WriterCount)
    ensures s.reader.RIdle? ==> (Enabled(s, ReaderPeek) <==> |Abstract(s).queue| > 0)
    ensures s.reader.RIdle? ==> (Enabled(s, ReaderShow) || Enabled(s, ReaderUnref) <==> |Abstract(s).queue| > 0)
    ensures !(Enabled(s, ReaderShow) && Enabled(s, ReaderUnref))
    ensures Enabled(s, ReaderShow) ==> s.r.keepLast && Abstract(s).kept.None?
    ensures s.reader.RUnreferenced? <==> Enabled(s, ReaderMove)
    ensures s.reader.RMoved? <==> Enabled(s, ReaderCount)
  {
  }

  lemma StepStays(s: System, a: Action)
    requires Enabled(s, a)
    ensures Inv(s) ==> Inv(Apply(s, a)) && Refines(s, a, Apply(s, a))
  {
    if Inv(s) {
      StepKeepsInv(s, a);
      StepRefines(s, a);
    }
  }

  /** With a free slot the writer can put a frame, step by step, and it is then the last one waiting. */
  lemma WriteCompletes(s: System, frame: int) returns (s1: System, s2: System, s3: System, s4: System)
    requires Inv(s) && s.writer.WIdle? && s.r.size < |s.r.slots|
    ensures Follows(s, WriterPeek, s1) && Follows(s1, WriterFill(frame), s2)
    ensures Follows(s2, WriterMove, s3) && Follows(s3, WriterCount, s4)
    ensures Inv(s4) && s4.writer.WIdle? && Abstract(s4) == Put(Abstract(s), frame)
  {
    s1 := Apply(s, WriterPeek);
    StepStays(s, WriterPeek);
    s2 := Apply(s1, WriterFill(frame));
    StepStays(s1, WriterFill(frame));
    s3 := Apply(s2, WriterMove);
    StepStays(s2, WriterMove);
    s4 := Apply(s3, WriterCount);
    StepStays(s3, WriterCount);
  }

  /** With a frame waiting the reader can move on to it: at once where the first one is to be kept ... */
  lemma ShowCompletes(s: System)
    requires Inv(s) && s.reader.RIdle? && |Abstract(s).queue| > 0 && s.r.keepLast && !s.r.shown
    ensures Enabled(s, ReaderShow)
    ensures
      var s' := Apply(s, ReaderShow);
      Inv(s') && s'.reader.RIdle? && Abstract(s') == Take(Abstract(s), true)
  {
    StepStays(s, ReaderShow);
  }

  /** ... and otherwise step by step. */
  lemma NextCompletes(s: System) returns (s1: System, s2: System, s3: System)
    requires Inv(s) && s.reader.RIdle? && |Abstract(s).queue| > 0 && (s.r.keepLast ==> s.r.shown)
    ensures Follows(s, ReaderUnref, s1) && Follows(s1, ReaderMove, s2) && Follows(s2, ReaderCount, s3)
    ensures Inv(s3) && s3.reader.RIdle? && Abstract(s3) == Take(Abstract(s), s.r.keepLast)
  {
    s1 := Apply(s, ReaderUnref);
    StepStays(s, ReaderUnref);
    s2 := Apply(s1, ReaderMove);
    StepStays(s1, ReaderMove);
    s3 := Apply(s2, ReaderCount);
    StepStays(s2, ReaderCount);
  }

  /** At the start nothing waits and nothing is kept. */
  lemma StartsEmpty(max: nat, keepLast: bool)
    requires max > 0
    ensures
      var s := Start(max, keepLast);
      && Inv(s) && Abstract(s) == Fifo([], None) && s.writer.WIdle? && s.reader.RIdle? && s.held.None?
      && |s.r.slots| == max && s.r.keepLast == keepLast && forall i :: 0 <= i < max ==> s.r.slots[i].None?
  {
  }
}
