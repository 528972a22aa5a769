/**
 The way of a packet to the muxer: `write_packet` and `check_init_output_file` in fftools/ffmpeg.c.
 Until the header of the output file is written, packets wait in a growing queue of each stream;
 afterwards each packet's timestamps are forced into order and it is handed to the muxer.
 */
module Muxer {
  import opened Common
  import opened Timing

  /** AV_NOPTS_VALUE, the "no timestamp" sentinel. */
  const NOPTS: int := -0x8000_0000_0000_0000

  const INITIAL_QUEUE: nat := 8

  datatype Media = Audio | Video | OtherMedia

  datatype Packet = Packet(payload: int, pts: int, dts: int)

  /** What does not change during a run: the stream, its muxer and the options. */
  datatype Config = Config(
    media: Media,
    encoded: bool,         // the stream is encoded, not copied
    vp9Copy: bool,         // a VP9 stream copy
    maxFrames: int,
    queueLimit: int,       // max_muxing_queue_size, in packets
    noTimestamps: bool,    // AVFMT_NOTIMESTAMPS
    nonStrict: bool,       // AVFMT_TS_NONSTRICT
    dropTimestamps: bool,  // video with vsync "drop", or audio with a negative async value
    exitOnError: bool,
    streamTimeBase: TimeBase)
  {
    predicate CountsPackets() { !(media.Video? && encoded) }

    predicate OrdersDts() { !noTimestamps && !media.OtherMedia? && !vp9Copy }
  }

  /** One output stream; `muxed` is what the muxer has been handed, in order. */
  datatype State = State(
    frameNumber: int,
    queue: seq<Packet>,
    capacity: int,
    headerWritten: bool,
    muxTimeBase: TimeBase,
    lastMuxDts: int,
    packetsWritten: int,
    muxed: seq<Packet>)

  /** Dropped: over the frame limit. Overflow and Aborted reach exit_program, which ends the run. */
  datatype Result = Dropped | Queued | Overflow | Aborted | Muxed

  function Init(tb: TimeBase): State
  {
    State(0, [], INITIAL_QUEUE, false, tb, NOPTS, 0, [])
  }

  // ---------------------------------------------------------------- timestamps

  /** av_packet_rescale_ts, after the timestamps have been dropped where the options say so. */
  function ToStreamTime(cfg: Config, tb: TimeBase, pkt: Packet): Packet
  {
    if cfg.dropTimestamps then pkt.(pts := NOPTS, dts := NOPTS)
    else
      pkt.(pts := if pkt.pts == NOPTS then NOPTS else Rescale(pkt.pts, tb, cfg.streamTimeBase),
           dts := if pkt.dts == NOPTS then NOPTS else Rescale(pkt.dts, tb, cfg.streamTimeBase))
  }

  function Min3(a: int, b: int, c: int): int { Min(Min(a, b), c) }

  function Max3(a: int, b: int, c: int): int { Max(Max(a, b), c) }

  function Guess(pts: int, dts: int, last: int): int
  {
    pts + dts + (last + 1) - Min3(pts, dts, last + 1) - Max3(pts, dts, last + 1)
  }

  /** The least dts the muxer accepts next. */
  function NextDts(cfg: Config, last: int): int { if cfg.nonStrict then last else last + 1 }

  function RepairInvalid(cfg: Config, last: int, pkt: Packet): Packet
  {
    if !cfg.noTimestamps && pkt.dts != NOPTS && pkt.pts != NOPTS && pkt.dts > pkt.pts then
      var g := Guess(pkt.pts, pkt.dts, last);
      pkt.(pts := g, dts := g)
    else pkt
  }

  predicate OutOfOrder(cfg: Config, last: int, pkt: Packet)
  {
    cfg.OrdersDts() && pkt.dts != NOPTS && last != NOPTS && pkt.dts < NextDts(cfg, last)
  }

  function RepairOrder(cfg: Config, last: int, pkt: Packet): Packet
  {
    if OutOfOrder(cfg, last, pkt) then
      var next := NextDts(cfg, last);
      pkt.(dts := next, pts := if pkt.pts >= pkt.dts then Max(pkt.pts, next) else pkt.pts)
    else pkt
  }

  function Repair(cfg: Config, last: int, pkt: Packet): Packet
  {
    RepairOrder(cfg, last, RepairInvalid(cfg, last, pkt))
  }

  // ---------------------------------------------------------------- write_packet as a step

  /** The capacity the queue has after making room for one more packet, or None if it may not grow. */
  function Grow(cfg: Config, st: State): Option<int>
  {
    if |st.queue| < st.capacity then Some(st.capacity)
    else
      var size := Min(2 * |st.queue|, cfg.queueLimit);
      if size <= |st.queue| then None else Some(size)
  }

  function Mux(cfg: Config, st: State, pkt: Packet): (State, Result)
  {
    var p := ToStreamTime(cfg, st.muxTimeBase, pkt);
    if cfg.exitOnError && OutOfOrder(cfg, st.lastMuxDts, RepairInvalid(cfg, st.lastMuxDts, p)) then (st, Aborted)
    else
      var q := Repair(cfg, st.lastMuxDts, p);
      (st.(lastMuxDts := q.dts, packetsWritten := st.packetsWritten + 1, muxed := st.muxed + [q]), Muxed)
  }

  function WriteStep(cfg: Config, st: State, pkt: Packet, unqueue: bool): (State, Result)
  {
    var counted := cfg.CountsPackets() && !unqueue;
    if counted && st.frameNumber >= cfg.maxFrames then (st, Dropped)
    else
      var st1 := if counted then st.(frameNumber := st.frameNumber + 1) else st;
      if st1.headerWritten then Mux(cfg, st1, pkt)
      else
        match Grow(cfg, st1)
        case None => (st1, Overflow)
        case Some(c) => (st1.(capacity := c, queue := st1.queue + [pkt]), Queued)
  }

  /** Taking the waiting packets out of the queue, one by one, once the header is written. */
  function Flush(cfg: Config, st: State): (State, bool)
    requires st.headerWritten
    decreases |st.queue|
  {
    if |st.queue| == 0 then (st, true)
    else
      var (st1, r) := WriteStep(cfg, st.(queue := st.queue[1..]), st.queue[0], true);
      if r == Aborted then (st1, false) else Flush(cfg, st1)
  }

  function HeaderStep(cfg: Config, st: State): (State, bool)
  {
    Flush(cfg, st.(headerWritten := true,
                   muxTimeBase := if |st.queue| == 0 then cfg.streamTimeBase else st.muxTimeBase))
  }

  // ---------------------------------------------------------------- the objects

  class OutputStream {
    const cfg: Config
    var initialized: bool
    var frameNumber: int
    var queue: seq<Packet>
    var capacity: int
    var muxTimeBase: TimeBase
    var lastMuxDts: int
    var packetsWritten: int
    var muxed: seq<Packet>

    constructor (cfg: Config, tb: TimeBase)
      ensures this.cfg == cfg && !initialized && View(false) == Init(tb)
    {
      this.cfg := cfg;
      initialized, frameNumber, queue, capacity := false, 0, [], INITIAL_QUEUE;
      muxTimeBase, lastMuxDts, packetsWritten, muxed := tb, NOPTS, 0, [];
    }

    /** The stream's state, given whether its file has a header. */
    function View(headerWritten: bool): State
      reads this
    {
      State(frameNumber, queue, capacity, headerWritten, muxTimeBase, lastMuxDts, packetsWritten, muxed)
    }

    method WritePacket(of: OutputFile, packet: Packet, unqueue: bool) returns (r: Result)
      modifies this
      ensures (View(of.headerWritten), r) == WriteStep(cfg, old(View(of.headerWritten)), packet, unqueue)
      ensures unchanged(this`initialized)
    {
      if cfg.CountsPackets() && !unqueue {
        if frameNumber >= cfg.maxFrames { return Dropped; }
        frameNumber := frameNumber + 1;
      }
      if !of.headerWritten {
        // without a header the packet has to wait
        if |queue| >= capacity {
          var newSize := Min(2 * |queue|, cfg.queueLimit);
          if newSize <= |queue| { return Overflow; }
          capacity := newSize;
        }
        queue := queue + [packet];
        return Queued;
      }
      r := MuxPacket(packet);
    }

    /** The rest of write_packet: timestamp repair and the hand-over to the muxer. */
    method MuxPacket(packet: Packet) returns (r: Result)
      modifies this
      ensures (View(true), r) == Mux(cfg, old(View(true)), packet)
      ensures unchanged(this`initialized)
    {
      var pkt := ToStreamTime(cfg, muxTimeBase, packet);
      if !cfg.noTimestamps {
        if pkt.dts != NOPTS && pkt.pts != NOPTS && pkt.dts > pkt.pts {
          var g := Guess(pkt.pts, pkt.dts, lastMuxDts);
          pkt := pkt.(pts := g, dts := g);
        }
        if !cfg.media.OtherMedia? && pkt.dts != NOPTS && !cfg.vp9Copy && lastMuxDts != NOPTS {
          var max := NextDts(cfg, lastMuxDts);
          if pkt.dts < max {
            if cfg.exitOnError { return Aborted; }
            if pkt.pts >= pkt.dts { pkt := pkt.(pts := Max(pkt.pts, max)); }
            pkt := pkt.(dts := max);
          }
        }
      }
      lastMuxDts := pkt.dts;
      packetsWritten := packetsWritten + 1;
      muxed := muxed + [pkt];
      return Muxed;
    }

    /** The flushing loop of check_init_output_file for this stream. */
    method FlushQueue(of: OutputFile) returns (ok: bool)
      requires of.headerWritten
      modifies this
      ensures (View(true), ok) == HeaderStep(cfg, old(View(false)))
      ensures unchanged(this`initialized)
    {
      // with nothing waiting, the time base may still change
      if |queue| == 0 { muxTimeBase := cfg.streamTimeBase; }
      ghost var goal := Flush(cfg, View(true));
      while |queue| > 0
        invariant Flush(cfg, View(true)) == goal
        invariant unchanged(this`initialized)
        decreases |queue|
      {
        ghost var before := View(true);
        var pkt := queue[0];
        queue := queue[1..];
        MuxKeepsQueue(cfg, View(true), pkt);
        var r := WritePacket(of, pkt, true);
        if r == Aborted { return false; }
      }
      return true;
    }
  }

  lemma MuxKeepsQueue(cfg: Config, st: State, pkt: Packet)
    requires st.headerWritten
    ensures
      var (st', r) := WriteStep(cfg, st, pkt, true);
      st'.queue == st.queue && st'.headerWritten && (r == Aborted || r == Muxed)
  {
  }

  class OutputFile {
    var streams: seq<OutputStream>
    var headerWritten: bool

    constructor (streams: seq<OutputStream>)
      ensures this.streams == streams && !headerWritten
    {
      this.streams, headerWritten := streams, false;
    }

    ghost predicate Distinct()
      reads this
    {
      forall i, j :: 0 <= i < j < |streams| ==> streams[i] != streams[j]
    }

    /** Once no stream is uninitialized, the header is written; `headerOk` is avformat_write_header's answer. */
    method CheckInit(headerOk: bool) returns (ready: bool, ok: bool)
      requires Distinct() && !headerWritten
      modifies this, streams
      ensures streams == old(streams)
      ensures ready <==> forall i :: 0 <= i < |streams| ==> old(streams[i].initialized)
      ensures headerWritten <==> ready && headerOk
      ensures !headerWritten ==> ok == !ready && forall i :: 0 <= i < |streams| ==> unchanged(streams[i])
      ensures headerWritten && ok ==> forall i :: 0 <= i < |streams| ==>
        (streams[i].View(true), true) == HeaderStep(streams[i].cfg, old(streams[i].View(false)))
    {
      ready, ok := true, true;
      for i := 0 to |streams|
        invariant ready && ok && !headerWritten && streams == old(streams)
        invariant forall k :: 0 <= k < i ==> streams[k].initialized
        invariant forall k :: 0 <= k < |streams| ==> unchanged(streams[k])
      {
        if !streams[i].initialized { return false, true; }
      }
      if !headerOk { return true, false; }
      headerWritten := true;
      for i := 0 to |streams|
        invariant ready && ok && headerWritten && streams == old(streams)
        invariant forall k :: i <= k < |streams| ==> unchanged(streams[k])
        invariant forall k :: 0 <= k < i ==>
          (streams[k].View(true), true) == HeaderStep(streams[k].cfg, old(streams[k].View(false)))
      {
        ok := streams[i].FlushQueue(this);
        if !ok { return; }
      }
    }
  }

  // ---------------------------------------------------------------- one packet's timestamps

  predicate IsMedian(m: int, a: int, b: int, c: int)
  {
    || (m == a && (b <= a <= c || c <= a <= b))
    || (m == b && (a <= b <= c || c <= b <= a))
    || (m == c && (a <= c <= b || b <= c <= a))
  }

  predicate Timed(p: Packet) { p.pts > NOPTS && p.dts > NOPTS }

  predicate InOrder(cfg: Config, last: int, p: Packet)
  {
    p.dts <= p.pts && (last == NOPTS || NextDts(cfg, last) <= p.dts)
  }

  /** An impossible pair of timestamps is replaced by the median of the two and the next expected dts. */
  lemma GuessIsMedian(pts: int, dts: int, last: int)
    ensures IsMedian(Guess(pts, dts, last), pts, dts, last + 1)
  {
  }

  /** Repair yields an acceptable packet, changes nothing else of it, and moves the dts no further than needed. */
  lemma RepairSound(cfg: Config, last: int, p: Packet)
    requires cfg.OrdersDts() && Timed(p) && last >= NOPTS
    ensures
      var q := Repair(cfg, last, p);
      && q.payload == p.payload && Timed(q) && InOrder(cfg, last, q)
      && (q == p <==> InOrder(cfg, last, p))
      && (p.dts <= p.pts ==> q.dts == if last == NOPTS then p.dts else Max(p.dts, NextDts(cfg, last)))
      && (p.dts <= p.pts ==> q.pts == Max(p.pts, q.dts))
      && (p.dts > p.pts ==>
            var g := Guess(p.pts, p.dts, last);
            q.pts == q.dts == if last == NOPTS then g else Max(g, NextDts(cfg, last)))
  {
    GuessIsMedian(p.pts, p.dts, last);
  }

  // ---------------------------------------------------------------- whole runs

  datatype Event = Write(packet: Packet) | Header

  /** A run of one stream; it ends (`!live`) when exit_program is reached. */
  datatype Run = Run(st: State, accepted: seq<Packet>, live: bool)

  function ExecStep(cfg: Config, r: Run, e: Event): Run
  {
    if !r.live then r
    else
      match e
      case Write(p) =>
        var (st, res) := WriteStep(cfg, r.st, p, false);
        Run(st, if res == Queued || res == Muxed then r.accepted + [p] else r.accepted,
            res != Overflow && res != Aborted)
      case Header =>
        if r.st.headerWritten then r
        else
          var (st, ok) := HeaderStep(cfg, r.st);
          Run(st, r.accepted, ok)
  }

  function Exec(cfg: Config, tb: TimeBase, events: seq<Event>): Run
  {
    if |events| == 0 then Run(Init(tb), [], true)
    else ExecStep(cfg, Exec(cfg, tb, events[..|events| - 1]), events[|events| - 1])
  }

  function Payloads(pkts: seq<Packet>): seq<int>
  {
    seq(|pkts|, i requires 0 <= i < |pkts| => pkts[i].payload)
  }

  /** Handed over and still waiting, in order. */
  function Through(st: State): seq<int> { Payloads(st.muxed) + Payloads(st.queue) }

  ghost predicate QueueOk(cfg: Config, st: State)
  {
    && INITIAL_QUEUE <= st.capacity <= Max(INITIAL_QUEUE, cfg.queueLimit)
    && |st.queue| <= st.capacity
    && st.packetsWritten == |st.muxed|
    && (cfg.CountsPackets() ==>
        |st.muxed| + |st.queue| == st.frameNumber <= Max(0, cfg.maxFrames))
  }

  lemma {:induction false} FlushKeeps(cfg: Config, st: State)
    requires st.headerWritten && QueueOk(cfg, st)
    ensures
      var (st', ok) := Flush(cfg, st);
      && st'.headerWritten && st'.frameNumber == st.frameNumber
      && (ok ==> st'.queue == [] && Through(st') == Through(st) && QueueOk(cfg, st'))
    decreases |st.queue|
  {
    if |st.queue| > 0 {
      var p := st.queue[0];
      var st0 := st.(queue := st.queue[1..]);
      var (st1, r) := WriteStep(cfg, st0, p, true);
      if r == Muxed {
        MuxAppends(cfg, st0, p);
        assert Payloads(st.queue) == [p.payload] + Payloads(st.queue[1..]);
        FlushKeeps(cfg, st1);
      }
    }
  }

  lemma MuxAppends(cfg: Config, st: State, p: Packet)
    requires Mux(cfg, st, p).1 == Muxed
    ensures Payloads(Mux(cfg, st, p).0.muxed) == Payloads(st.muxed) + [p.payload]
  {
  }

  /**
   Over every run that goes on: the muxer has got, and then the queue holds, exactly the accepted
   packets in acceptance order; nothing is muxed before the header and nothing waits after it; the
   counters agree with the packets; and the queue stays within its bound.
   */
  lemma {:induction false} PacketsAreConserved(cfg: Config, tb: TimeBase, events: seq<Event>)
    ensures
      var r := Exec(cfg, tb, events);
      r.live ==>
        && Through(r.st) == Payloads(r.accepted) && QueueOk(cfg, r.st)
        && (if r.st.headerWritten then r.st.queue == [] else r.st.muxed == [])
    decreases |events|
  {
    if |events| > 0 {
      var before := events[..|events| - 1];
      PacketsAreConserved(cfg, tb, before);
      var r := Exec(cfg, tb, before);
      match events[|events| - 1]
      case Write(p) =>
        if r.live {
          WriteConserves(cfg, r.st, p);
          assert Payloads(r.accepted + [p]) == Payloads(r.accepted) + [p.payload];
        }
      case Header =>
        if r.live && !r.st.headerWritten {
          HeaderConserves(cfg, r.st);
        }
    }
  }

  lemma HeaderConserves(cfg: Config, st: State)
    requires QueueOk(cfg, st)
    ensures
      var (st', ok) := HeaderStep(cfg, st);
      && st'.headerWritten
      && (ok ==> st'.queue == [] && Through(st') == Through(st) && QueueOk(cfg, st'))
  {
    var st0 := st.(headerWritten := true,
                   muxTimeBase := if |st.queue| == 0 then cfg.streamTimeBase else st.muxTimeBase);
    assert Through(st0) == Through(st);
    FlushKeeps(cfg, st0);
  }

  lemma WriteConserves(cfg: Config, st: State, p: Packet)
    requires QueueOk(cfg, st) && (if st.headerWritten then st.queue == [] else st.muxed == [])
    ensures
      var (st', r) := WriteStep(cfg, st, p, false);
      && st'.headerWritten == st.headerWritten
      && (r == Dropped ==> st' == st && cfg.CountsPackets() && st.frameNumber >= cfg.maxFrames)
      && (r == Queued ==> st'.queue == st.queue + [p] && st'.muxed == [])
      && (r == Muxed ==> st'.queue == [])
      && (r == Queued || r == Muxed ==> Through(st') == Through(st) + [p.payload] && QueueOk(cfg, st'))
  {
    if cfg.CountsPackets() && st.frameNumber >= cfg.maxFrames {
    } else {
      var st1 := if cfg.CountsPackets() then st.(frameNumber := st.frameNumber + 1) else st;
      if st.headerWritten {
        if Mux(cfg, st1, p).1 == Muxed { MuxAppends(cfg, st1, p); }
      } else {
        assert Payloads(st.queue + [p]) == Payloads(st.queue) + [p.payload];
      }
    }
  }

  /** The overflow error is raised exactly when a packet arrives before the header and the queue is full at its bound. */
  lemma OverflowIffFull(cfg: Config, tb: TimeBase, events: seq<Event>, p: Packet)
    requires Exec(cfg, tb, events).live
    ensures
      var st := Exec(cfg, tb, events).st;
      WriteStep(cfg, st, p, false).1 == Overflow <==>
        && !st.headerWritten
        && !(cfg.CountsPackets() && st.frameNumber >= cfg.maxFrames)
        && |st.queue| == Max(INITIAL_QUEUE, cfg.queueLimit)
  {
    PacketsAreConserved(cfg, tb, events);
  }

  // ---------------------------------------------------------------- timestamps over whole runs

  /** Timestamps present or absent; none is below the sentinel. */
  predicate Stamped(p: Packet) { p.pts >= NOPTS && p.dts >= NOPTS }

  ghost predicate AllStamped(ps: seq<Packet>) { forall i :: 0 <= i < |ps| ==> Stamped(ps[i]) }

  ghost predicate AllTimed(ps: seq<Packet>) { forall i :: 0 <= i < |ps| ==> Timed(ps[i]) }

  /** A dts does not exceed its pts, and the dts increase, as far as there are any. */
  ghost predicate Ordered(cfg: Config, pkts: seq<Packet>)
  {
    && (forall i :: 0 <= i < |pkts| && pkts[i].dts != NOPTS && pkts[i].pts != NOPTS ==> pkts[i].dts <= pkts[i].pts)
    && forall i, j :: 0 <= i < j < |pkts| && pkts[i].dts != NOPTS && pkts[j].dts != NOPTS ==>
         if cfg.nonStrict then pkts[i].dts <= pkts[j].dts else pkts[i].dts < pkts[j].dts
  }

  /** The same for packets that all have both timestamps. */
  ghost predicate Increasing(cfg: Config, pkts: seq<Packet>) { AllTimed(pkts) && Ordered(cfg, pkts) }

  /** A run's packets in the time base of the stream. */
  function StreamTimes(cfg: Config, tb: TimeBase, pkts: seq<Packet>): seq<Packet>
  {
    seq(|pkts|, i requires 0 <= i < |pkts| => ToStreamTime(cfg, tb, pkts[i]))
  }

  /** `last_mux_dts` after these packets, and the last dts there was. */
  function LastDts(out: seq<Packet>): int { if |out| == 0 then NOPTS else out[|out| - 1].dts }

  function LatestDts(out: seq<Packet>): int
  {
    if |out| == 0 then NOPTS
    else if out[|out| - 1].dts != NOPTS then out[|out| - 1].dts
    else LatestDts(out[..|out| - 1])
  }

  /** What the muxer gets of the packets `ps`, one repair after the other. */
  function MuxedOut(cfg: Config, ps: seq<Packet>): (out: seq<Packet>)
    ensures |out| == |ps|
  {
    if |ps| == 0 then []
    else
      var before := MuxedOut(cfg, ps[..|ps| - 1]);
      before + [Repair(cfg, LastDts(before), ps[|ps| - 1])]
  }

  /** With a packet without dts just before it, a packet with dts > pts is muxed at its pts. */
  function Arriving(cfg: Config, last: int, p: Packet): int
  {
    if cfg.noTimestamps || p.pts == NOPTS || last != NOPTS then p.dts else Min(p.dts, p.pts)
  }

  /**
   The packet keeps the order, with `last` the dts just before it and `latest` the last one there was:
   it has no dts, or it is repaired, or it does not arrive early, nor with dts > pts at a muxer without timestamps.
   */
  predicate Keeps(cfg: Config, last: int, latest: int, p: Packet)
  {
    || p.dts == NOPTS
    || (cfg.OrdersDts() && last != NOPTS)
    || (&& NextDts(cfg, latest) <= Arriving(cfg, last, p)
        && (cfg.noTimestamps && p.pts != NOPTS ==> p.dts <= p.pts))
  }

  predicate KeepsAt(cfg: Config, ps: seq<Packet>, i: nat)
    requires i < |ps|
  {
    var before := MuxedOut(cfg, ps[..i]);
    Keeps(cfg, LastDts(before), LatestDts(before), ps[i])
  }

  ghost predicate AllKeep(cfg: Config, ps: seq<Packet>)
  {
    forall i :: 0 <= i < |ps| ==> KeepsAt(cfg, ps, i)
  }

  /** `z` may follow a `latest` dts. */
  predicate Follows(cfg: Config, latest: int, z: Packet)
  {
    z.dts == NOPTS || (NextDts(cfg, latest) <= z.dts && (z.pts != NOPTS ==> z.dts <= z.pts))
  }

  lemma RepairFollows(cfg: Config, last: int, latest: int, p: Packet)
    requires Stamped(p) && latest >= NOPTS && (last == latest || last == NOPTS)
    ensures
      var z := Repair(cfg, last, p);
      && Stamped(z) && (z.dts == NOPTS <==> p.dts == NOPTS) && (Timed(p) ==> Timed(z))
      && (Follows(cfg, latest, z) <==> Keeps(cfg, last, latest, p))
  {
    GuessIsMedian(p.pts, p.dts, last);
  }

  lemma {:induction false} LatestBounds(cfg: Config, out: seq<Packet>)
    requires AllStamped(out)
    ensures LatestDts(out) >= NOPTS && (LastDts(out) == LatestDts(out) || LastDts(out) == NOPTS)
    ensures LatestDts(out) != NOPTS ==> exists i :: 0 <= i < |out| && out[i].dts == LatestDts(out)
    ensures Ordered(cfg, out) ==> forall i :: 0 <= i < |out| ==> out[i].dts <= LatestDts(out)
    decreases |out|
  {
    if |out| > 0 {
      var front := out[..|out| - 1];
      LatestBounds(cfg, front);
      if LatestDts(front) != NOPTS {
        var i :| 0 <= i < |front| && front[i].dts == LatestDts(front);
        assert out[i] == front[i];
      }
      if Ordered(cfg, out) {
        OrderedFront(cfg, out);
        forall i | 0 <= i < |out| ensures out[i].dts <= LatestDts(out) {
          if i < |front| { assert out[i] == front[i]; }
        }
      }
    }
  }

  lemma OrderedFront(cfg: Config, out: seq<Packet>)
    requires |out| > 0 && Ordered(cfg, out)
    ensures Ordered(cfg, out[..|out| - 1])
  {
  }

  lemma OneMoreOrdered(cfg: Config, out: seq<Packet>, z: Packet)
    requires AllStamped(out) && Stamped(z)
    ensures Ordered(cfg, out + [z]) <==> Ordered(cfg, out) && Follows(cfg, LatestDts(out), z)
  {
    var longer, latest, n := out + [z], LatestDts(out), |out|;
    LatestBounds(cfg, out);
    if Ordered(cfg, longer) {
      OrderedFront(cfg, longer);
      assert longer[..n] == out && longer[n] == z;
      if z.dts != NOPTS && latest != NOPTS {
        var i :| 0 <= i < n && out[i].dts == latest;
        assert longer[i].dts == latest;
      }
    }
    if Ordered(cfg, out) && Follows(cfg, latest, z) {
      forall i | 0 <= i < n && out[i].dts != NOPTS && z.dts != NOPTS
        ensures if cfg.nonStrict then out[i].dts <= z.dts else out[i].dts < z.dts
      {
        assert out[i].dts <= latest;
      }
    }
  }

  lemma {:induction false} MuxedAreStamped(cfg: Config, ps: seq<Packet>)
    requires AllStamped(ps)
    ensures AllStamped(MuxedOut(cfg, ps)) && (AllTimed(ps) ==> AllTimed(MuxedOut(cfg, ps)))
    decreases |ps|
  {
    if |ps| > 0 {
      var front := ps[..|ps| - 1];
      MuxedAreStamped(cfg, front);
      var before := MuxedOut(cfg, front);
      LatestBounds(cfg, before);
      RepairFollows(cfg, LastDts(before), LatestDts(before), ps[|ps| - 1]);
    }
  }

  /** Over any packets: what is muxed is in order exactly when every packet keeps the order. */
  lemma {:induction false} OrderExactly(cfg: Config, ps: seq<Packet>)
    requires AllStamped(ps)
    ensures Ordered(cfg, MuxedOut(cfg, ps)) <==> AllKeep(cfg, ps)
    decreases |ps|
  {
    if |ps| > 0 {
      OrderExactly(cfg, ps[..|ps| - 1]);
      OneMoreMuxed(cfg, ps);
      OneMoreKeeps(cfg, ps);
    }
  }

  lemma OneMoreMuxed(cfg: Config, ps: seq<Packet>)
    requires |ps| > 0 && AllStamped(ps)
    ensures Ordered(cfg, MuxedOut(cfg, ps)) <==>
      Ordered(cfg, MuxedOut(cfg, ps[..|ps| - 1])) && KeepsAt(cfg, ps, |ps| - 1)
  {
    var before, p := MuxedOut(cfg, ps[..|ps| - 1]), ps[|ps| - 1];
    MuxedAreStamped(cfg, ps[..|ps| - 1]);
    LatestBounds(cfg, before);
    RepairFollows(cfg, LastDts(before), LatestDts(before), p);
    OneMoreOrdered(cfg, before, Repair(cfg, LastDts(before), p));
  }

  lemma OneMoreKeeps(cfg: Config, ps: seq<Packet>)
    requires |ps| > 0
    ensures AllKeep(cfg, ps) <==> AllKeep(cfg, ps[..|ps| - 1]) && KeepsAt(cfg, ps, |ps| - 1)
  {
    var front := ps[..|ps| - 1];
    forall i: nat | i < |front| ensures KeepsAt(cfg, front, i) <==> KeepsAt(cfg, ps, i) {
      assert front[..i] == ps[..i];
    }
    if AllKeep(cfg, ps) {
      forall i | 0 <= i < |front| ensures KeepsAt(cfg, front, i) { assert KeepsAt(cfg, ps, i); }
    }
    if AllKeep(cfg, front) && KeepsAt(cfg, ps, |ps| - 1) {
      forall i | 0 <= i < |ps| ensures KeepsAt(cfg, ps, i) {
        if i < |front| { assert KeepsAt(cfg, front, i); }
      }
    }
  }

  // ---------------------------------------------------------------- runs mux one packet after the other

  /** The muxer has got exactly what becomes of the packets `ps`. */
  predicate HasMuxed(cfg: Config, st: State, ps: seq<Packet>)
  {
    st.headerWritten && st.muxed == MuxedOut(cfg, ps) && st.lastMuxDts == LastDts(st.muxed)
  }

  lemma MuxOneMore(cfg: Config, st: State, ps: seq<Packet>, p: Packet)
    requires HasMuxed(cfg, st, ps)
    ensures
      var (st', r) := Mux(cfg, st, p);
      && st'.queue == st.queue && st'.muxTimeBase == st.muxTimeBase && (r == Muxed || r == Aborted)
      && HasMuxed(cfg, st', if r == Muxed then ps + [ToStreamTime(cfg, st.muxTimeBase, p)] else ps)
  {
    assert (ps + [ToStreamTime(cfg, st.muxTimeBase, p)])[..|ps|] == ps;
  }

  lemma {:induction false} FlushMuxes(cfg: Config, st: State, ps: seq<Packet>)
    requires HasMuxed(cfg, st, ps)
    ensures
      var (st', ok) := Flush(cfg, st);
      var all := ps + StreamTimes(cfg, st.muxTimeBase, st.queue);
      && st'.muxTimeBase == st.muxTimeBase && |st'.muxed| <= |all|
      && HasMuxed(cfg, st', all[..|st'.muxed|])
      && (ok ==> st'.queue == [] && |st'.muxed| == |all|)
    decreases |st.queue|
  {
    var times := StreamTimes(cfg, st.muxTimeBase, st.queue);
    if |st.queue| == 0 {
      assert (ps + times)[..|ps|] == ps == ps + times;
    } else {
      var st0 := st.(queue := st.queue[1..]);
      MuxOneMore(cfg, st0, ps, st.queue[0]);
      var (st1, r) := WriteStep(cfg, st0, st.queue[0], true);
      if r == Aborted {
        assert (ps + times)[..|ps|] == ps;
      } else {
        assert times == [times[0]] + StreamTimes(cfg, st.muxTimeBase, st1.queue);
        FlushMuxes(cfg, st1, ps + [times[0]]);
        assert ps + [times[0]] + StreamTimes(cfg, st.muxTimeBase, st1.queue) == ps + times;
      }
    }
  }

  /** All waits before the header, and is muxed in turn after it; an abort leaves the rest behind. */
  ghost predicate MuxedInTurn(cfg: Config, tb: TimeBase, r: Run)
  {
    if r.st.headerWritten then
      && (r.st.muxTimeBase == tb || r.st.muxTimeBase == cfg.streamTimeBase)
      && |r.st.muxed| <= |r.accepted| && (r.live ==> r.st.queue == [] && |r.st.muxed| == |r.accepted|)
      && HasMuxed(cfg, r.st, StreamTimes(cfg, r.st.muxTimeBase, r.accepted)[..|r.st.muxed|])
    else
      r.st.queue == r.accepted && r.st.muxTimeBase == tb && r.st.muxed == [] && r.st.lastMuxDts == NOPTS
  }

  lemma MuxInTurn(cfg: Config, tb: TimeBase, st: State, accepted: seq<Packet>, p: Packet)
    requires st.headerWritten && MuxedInTurn(cfg, tb, Run(st, accepted, true))
    ensures
      var (st', r) := Mux(cfg, st, p);
      MuxedInTurn(cfg, tb, if r == Muxed then Run(st', accepted + [p], true) else Run(st', accepted, false))
  {
    var base, times := st.muxTimeBase, StreamTimes(cfg, st.muxTimeBase, accepted);
    assert times[..|times|] == times;
    MuxOneMore(cfg, st, times, p);
    var longer := StreamTimes(cfg, base, accepted + [p]);
    assert longer == times + [ToStreamTime(cfg, base, p)] && longer[..|longer|] == longer;
  }

  lemma WriteInTurn(cfg: Config, tb: TimeBase, r: Run, p: Packet)
    requires r.live && MuxedInTurn(cfg, tb, r)
    ensures MuxedInTurn(cfg, tb, ExecStep(cfg, r, Write(p)))
  {
    if r.st.headerWritten {
      MuxInTurn(cfg, tb, if cfg.CountsPackets() then r.st.(frameNumber := r.st.frameNumber + 1) else r.st, r.accepted, p);
    }
  }

  lemma HeaderInTurn(cfg: Config, tb: TimeBase, r: Run)
    requires r.live && MuxedInTurn(cfg, tb, r)
    ensures MuxedInTurn(cfg, tb, ExecStep(cfg, r, Header))
  {
    if !r.st.headerWritten {
      var st0 := r.st.(headerWritten := true,
                       muxTimeBase := if |r.st.queue| == 0 then cfg.streamTimeBase else r.st.muxTimeBase);
      FlushKeepsRoom(cfg, st0);
      FlushMuxes(cfg, st0, []);
      var times := StreamTimes(cfg, st0.muxTimeBase, r.accepted);
      assert [] + times == times;
    }
  }

  lemma {:induction false} RunsInTurn(cfg: Config, tb: TimeBase, events: seq<Event>)
    ensures MuxedInTurn(cfg, tb, Exec(cfg, tb, events))
    ensures forall p :: p in Exec(cfg, tb, events).accepted ==> Write(p) in events
    decreases |events|
  {
    if |events| > 0 {
      var before, e := events[..|events| - 1], events[|events| - 1];
      RunsInTurn(cfg, tb, before);
      var r := Exec(cfg, tb, before);
      if r.live {
        match e
        case Write(p) => WriteInTurn(cfg, tb, r, p);
        case Header => HeaderInTurn(cfg, tb, r);
      }
    }
  }

  /** The packet's timestamps are not below the sentinel in whichever time base the stream is muxed. */
  predicate StampedBoth(cfg: Config, tb: TimeBase, p: Packet)
  {
    Stamped(ToStreamTime(cfg, tb, p)) && Stamped(ToStreamTime(cfg, cfg.streamTimeBase, p))
  }

  /** And it has both. */
  predicate TimedBoth(cfg: Config, tb: TimeBase, p: Packet)
  {
    Timed(ToStreamTime(cfg, tb, p)) && Timed(ToStreamTime(cfg, cfg.streamTimeBase, p))
  }

  /**
   Over every run of any stream and any packets, with or without timestamps: the muxer has got the accepted
   packets repaired one after the other, all of them in a run that goes on after the header; and they are
   in order exactly when every one keeps the order.
   */
  lemma MuxedOrderExactly(cfg: Config, tb: TimeBase, events: seq<Event>)
    requires forall e :: e in events && e.Write? ==> StampedBoth(cfg, tb, e.packet)
    ensures
      var r := Exec(cfg, tb, events);
      && |r.st.muxed| <= |r.accepted|
      && var ps := StreamTimes(cfg, r.st.muxTimeBase, r.accepted)[..|r.st.muxed|];
      && r.st.muxed == MuxedOut(cfg, ps)
      && (r.live && r.st.headerWritten ==> |r.st.muxed| == |r.accepted|)
      && (Ordered(cfg, r.st.muxed) <==> AllKeep(cfg, ps))
  {
    RunsInTurn(cfg, tb, events);
    var r := Exec(cfg, tb, events);
    var ps := StreamTimes(cfg, r.st.muxTimeBase, r.accepted)[..|r.st.muxed|];
    forall i | 0 <= i < |ps| ensures Stamped(ps[i]) {
      assert r.accepted[i] in r.accepted;
      assert StampedBoth(cfg, tb, Write(r.accepted[i]).packet);
    }
    OrderExactly(cfg, ps);
  }

  /**
   So over every run of an audio or video stream whose packets carry both timestamps the dts handed to the
   muxer strictly increase (never decrease, if the muxer is not strict) and never exceed the pts.
   */
  lemma DtsIncrease(cfg: Config, tb: TimeBase, events: seq<Event>)
    requires !cfg.noTimestamps && (cfg.media.Audio? || cfg.media.Video?) && !cfg.vp9Copy
    requires forall e :: e in events && e.Write? ==> TimedBoth(cfg, tb, e.packet)
    ensures Increasing(cfg, Exec(cfg, tb, events).st.muxed)
  {
    RunsInTurn(cfg, tb, events);
    MuxedOrderExactly(cfg, tb, events);
    var r := Exec(cfg, tb, events);
    var ps := StreamTimes(cfg, r.st.muxTimeBase, r.accepted)[..|r.st.muxed|];
    forall i | 0 <= i < |ps| ensures Timed(ps[i]) {
      assert r.accepted[i] in r.accepted;
      assert TimedBoth(cfg, tb, Write(r.accepted[i]).packet);
    }
    MuxedAreStamped(cfg, ps);
    forall i | 0 <= i < |ps| ensures KeepsAt(cfg, ps, i) { TimedKeeps(cfg, ps, i); }
  }

  lemma TimedKeeps(cfg: Config, ps: seq<Packet>, i: nat)
    requires cfg.OrdersDts() && AllTimed(ps) && i < |ps|
    ensures KeepsAt(cfg, ps, i)
  {
    var before := MuxedOut(cfg, ps[..i]);
    MuxedAreStamped(cfg, ps[..i]);
    if i > 0 { assert Timed(before[i - 1]); }
  }

  // ---------------------------------------------------------------- the moments muxed timestamps stand for

  /** `q` is the timestamp `p` up to half a tick, absent if that is or if timestamps are dropped. */
  predicate SameMoment(cfg: Config, base: TimeBase, p: int, q: int)
  {
    if cfg.dropTimestamps || p == NOPTS then q == NOPTS
    else -HalfTick(cfg.streamTimeBase) <= Seconds(q, cfg.streamTimeBase) - Seconds(p, base) <= HalfTick(cfg.streamTimeBase)
  }

  /** `s` is the packet `p`, whose timestamps count in `base`, in the time base of the stream. */
  predicate StandsFor(cfg: Config, base: TimeBase, p: Packet, s: Packet)
  {
    s.payload == p.payload && SameMoment(cfg, base, p.pts, s.pts) && SameMoment(cfg, base, p.dts, s.dts)
  }

  lemma StreamTimeStandsFor(cfg: Config, base: TimeBase, p: Packet)
    ensures StandsFor(cfg, base, p, ToStreamTime(cfg, base, p))
  {
    RescaleIsNear(p.pts, base, cfg.streamTimeBase);
    RescaleIsNear(p.dts, base, cfg.streamTimeBase);
  }

  function FirstHeader(events: seq<Event>): (h: nat)
    ensures h <= |events| && (h < |events| ==> events[h].Header?)
    ensures forall i :: 0 <= i < h ==> events[i].Write?
  {
    if |events| == 0 || events[0].Header? then 0 else 1 + FirstHeader(events[1..])
  }

  lemma {:induction false} NoHeaderYet(cfg: Config, tb: TimeBase, events: seq<Event>)
    requires forall i :: 0 <= i < |events| ==> events[i].Write?
    ensures !Exec(cfg, tb, events).st.headerWritten
    decreases |events|
  {
    if |events| > 0 { NoHeaderYet(cfg, tb, events[..|events| - 1]); }
  }

  /**
   The packets of a stream count in the encoder's time base `tb`, unless nothing waited when the header was
   written: then the stream's own time base was taken over before the first packet.
   */
  lemma {:induction false} BaseOfTheHeader(cfg: Config, tb: TimeBase, events: seq<Event>)
    ensures
      var h, r := FirstHeader(events), Exec(cfg, tb, events);
      if h == |events| then !r.st.headerWritten
      else
        && (r.live ==> r.st.headerWritten)
        && (r.st.headerWritten ==>
              r.st.muxTimeBase == if Exec(cfg, tb, events[..h]).accepted == [] then cfg.streamTimeBase else tb)
    decreases |events|
  {
    var h := FirstHeader(events);
    if h == |events| {
      NoHeaderYet(cfg, tb, events);
    } else {
      var n := |events| - 1;
      var before, e := events[..n], events[n];
      assert before + [e] == events;
      if h < n {
        assert before[..h] == events[..h];
        SameFirstHeader(before, e);
        BaseOfTheHeader(cfg, tb, before);
        BaseStays(cfg, Exec(cfg, tb, before), e);
      } else {
        BaseIsChosen(cfg, tb, before);
      }
    }
  }

  lemma BaseIsChosen(cfg: Config, tb: TimeBase, before: seq<Event>)
    requires forall i :: 0 <= i < |before| ==> before[i].Write?
    ensures
      var r := Exec(cfg, tb, before);
      var r' := ExecStep(cfg, r, Header);
      && (r'.live ==> r'.st.headerWritten)
      && (r'.st.headerWritten ==> r'.st.muxTimeBase == if r.accepted == [] then cfg.streamTimeBase else tb)
  {
    var st := Exec(cfg, tb, before).st;
    NoHeaderYet(cfg, tb, before);
    RunsInTurn(cfg, tb, before);
    var st0 := st.(headerWritten := true, muxTimeBase := if |st.queue| == 0 then cfg.streamTimeBase else tb);
    FlushMuxes(cfg, st0, []);
    FlushKeepsRoom(cfg, st0);
  }

  lemma {:induction false} SameFirstHeader(before: seq<Event>, e: Event)
    requires FirstHeader(before + [e]) < |before|
    ensures FirstHeader(before) == FirstHeader(before + [e])
    decreases |before|
  {
    if !before[0].Header? {
      assert (before + [e])[1..] == before[1..] + [e];
      SameFirstHeader(before[1..], e);
    }
  }

  lemma BaseStays(cfg: Config, r: Run, e: Event)
    ensures r.st.headerWritten || !r.live ==>
      ExecStep(cfg, r, e).st.muxTimeBase == r.st.muxTimeBase && ExecStep(cfg, r, e).st.headerWritten == r.st.headerWritten
      && (ExecStep(cfg, r, e).live ==> r.live)
  {
  }

  lemma {:induction false} MuxedAt(cfg: Config, ps: seq<Packet>, i: nat)
    requires i < |ps|
    ensures MuxedOut(cfg, ps)[i] == Repair(cfg, LastDts(MuxedOut(cfg, ps)[..i]), ps[i])
    decreases |ps|
  {
    var n := |ps| - 1;
    var before := MuxedOut(cfg, ps[..n]);
    if i < n {
      MuxedAt(cfg, ps[..n], i);
      assert MuxedOut(cfg, ps)[..i] == before[..i];
    } else {
      assert MuxedOut(cfg, ps)[..n] == before;
    }
  }

  /** The packet needs neither a guess nor to be moved behind the dts `last`. */
  predicate Unrepaired(cfg: Config, last: int, s: Packet)
  {
    && (cfg.noTimestamps || s.dts == NOPTS || s.pts == NOPTS || s.dts <= s.pts)
    && (cfg.noTimestamps || cfg.media.OtherMedia? || cfg.vp9Copy || s.dts == NOPTS || last == NOPTS
        || (if cfg.nonStrict then last <= s.dts else last < s.dts))
  }

  /**
   Over every run the `i`-th packet muxed is the `i`-th accepted one, repaired where it must be: there is a
   packet for the same moments that it is the repair of, and which it is itself if it needs no repair.
   */
  lemma MuxedMoments(cfg: Config, tb: TimeBase, events: seq<Event>, i: nat) returns (s: Packet)
    requires i < |Exec(cfg, tb, events).st.muxed|
    ensures
      var r := Exec(cfg, tb, events);
      var last := LastDts(r.st.muxed[..i]);
      && i < |r.accepted| && StandsFor(cfg, r.st.muxTimeBase, r.accepted[i], s)
      && r.st.muxed[i] == Repair(cfg, last, s) && (Unrepaired(cfg, last, s) ==> r.st.muxed[i] == s)
  {
    RunsInTurn(cfg, tb, events);
    var r := Exec(cfg, tb, events);
    var ps := StreamTimes(cfg, r.st.muxTimeBase, r.accepted)[..|r.st.muxed|];
    MuxedAt(cfg, ps, i);
    s := ToStreamTime(cfg, r.st.muxTimeBase, r.accepted[i]);
    StreamTimeStandsFor(cfg, r.st.muxTimeBase, r.accepted[i]);
  }

  /** A packet without dts is muxed as it is, and one without pts only has its dts moved where the order demands it. */
  lemma RepairOfGaps(cfg: Config, last: int, p: Packet)
    requires Stamped(p) && last >= NOPTS
    ensures p.dts == NOPTS ==> Repair(cfg, last, p) == p
    ensures p.pts == NOPTS && p.dts != NOPTS ==>
      Repair(cfg, last, p) == if Unrepaired(cfg, last, p) then p else p.(dts := if cfg.nonStrict then last else last + 1)
  {
  }

  // ---------------------------------------------------------------- what ends a run or is left out

  /** Packets are left out by the frame limit alone, which is not for pictures being encoded. */
  lemma DroppedExactly(cfg: Config, st: State, p: Packet)
    ensures WriteStep(cfg, st, p, false).1 == Dropped <==>
      (!cfg.media.Video? || !cfg.encoded) && st.frameNumber >= cfg.maxFrames
    ensures WriteStep(cfg, st, p, true).1 != Dropped
    ensures
      var st' := WriteStep(cfg, st, p, false).0;
      st'.frameNumber == st.frameNumber +
        if (!cfg.media.Video? || !cfg.encoded) && st.frameNumber < cfg.maxFrames then 1 else 0
  {
  }

  /** With exit_on_error a run ends exactly at a packet that would have to be moved behind the last dts. */
  lemma AbortedExactly(cfg: Config, st: State, p: Packet)
    requires st.headerWritten && WriteStep(cfg, st, p, false).1 != Dropped
    ensures
      var s := ToStreamTime(cfg, st.muxTimeBase, p);
      var guessed := !cfg.noTimestamps && s.dts != NOPTS && s.pts != NOPTS && s.dts > s.pts;
      var dts := if guessed then Guess(s.pts, s.dts, st.lastMuxDts) else s.dts;
      WriteStep(cfg, st, p, false).1 == Aborted <==>
        && cfg.exitOnError && !cfg.noTimestamps && !cfg.media.OtherMedia? && !cfg.vp9Copy
        && dts != NOPTS && st.lastMuxDts != NOPTS && dts < (if cfg.nonStrict then st.lastMuxDts else st.lastMuxDts + 1)
  {
  }

  /** The room of the queue has been doubled from eight packets on, up to its limit. */
  predicate Doubled(n: int) { n == INITIAL_QUEUE || (n > INITIAL_QUEUE && n % 2 == 0 && Doubled(n / 2)) }

  /** It has, and no earlier than needed. */
  predicate RoomOk(cfg: Config, st: State)
  {
    || st.capacity == cfg.queueLimit
    || (Doubled(st.capacity) && (|st.queue| > INITIAL_QUEUE ==> |st.queue| > st.capacity / 2))
  }

  lemma WriteKeepsRoom(cfg: Config, st: State, p: Packet)
    requires RoomOk(cfg, st) && |st.queue| <= st.capacity && INITIAL_QUEUE <= st.capacity
    requires st.capacity == INITIAL_QUEUE || |st.queue| > INITIAL_QUEUE || st.capacity == cfg.queueLimit
    requires !st.headerWritten
    ensures
      var st' := WriteStep(cfg, st, p, false).0;
      RoomOk(cfg, st') && (st'.capacity == INITIAL_QUEUE || |st'.queue| > INITIAL_QUEUE || st'.capacity == cfg.queueLimit)
  {
    if |st.queue| == st.capacity {
      assert Doubled(st.capacity) ==> Doubled(2 * st.capacity);
    }
  }

  lemma {:induction false} RoomIsDoubled(cfg: Config, tb: TimeBase, events: seq<Event>)
    ensures
      var st := Exec(cfg, tb, events).st;
      && (st.capacity == cfg.queueLimit || Doubled(st.capacity))
      && (!st.headerWritten ==> RoomOk(cfg, st))
      && (!st.headerWritten ==>
            st.capacity == INITIAL_QUEUE || |st.queue| > INITIAL_QUEUE || st.capacity == cfg.queueLimit)
    decreases |events|
  {
    if |events| > 0 {
      var before, e := events[..|events| - 1], events[|events| - 1];
      RoomIsDoubled(cfg, tb, before);
      PacketsAreConserved(cfg, tb, before);
      var r := Exec(cfg, tb, before);
      if r.live && e.Write? && !r.st.headerWritten { WriteKeepsRoom(cfg, r.st, e.packet); }
      if r.live && e.Header? && !r.st.headerWritten {
        FlushKeepsRoom(cfg, r.st.(headerWritten := true,
          muxTimeBase := if |r.st.queue| == 0 then cfg.streamTimeBase else r.st.muxTimeBase));
      }
    }
  }

  lemma {:induction false} FlushKeepsRoom(cfg: Config, st: State)
    requires st.headerWritten
    ensures Flush(cfg, st).0.capacity == st.capacity && Flush(cfg, st).0.headerWritten
    decreases |st.queue|
  {
    if |st.queue| > 0 {
      FlushKeepsRoom(cfg, WriteStep(cfg, st.(queue := st.queue[1..]), st.queue[0], true).0);
    }
  }

  /** A stream exempt from the order repair keeps its times, unless timestamps are used and a dts is after its pts. */
  lemma ExemptRepair(cfg: Config, last: int, p: Packet)
    requires cfg.noTimestamps || cfg.media.OtherMedia? || cfg.vp9Copy
    requires Stamped(p)
    ensures
      Repair(cfg, last, p) ==
        if cfg.noTimestamps || p.pts == NOPTS || p.dts <= p.pts then p
        else
          var dts := Max(p.pts, Min(p.dts, last + 1));
          p.(pts := dts, dts := dts)
  {
    GuessIsMedian(p.pts, p.dts, last);
  }

  /** The order is not kept for streams exempt from the repair: a copied VP9 stream can step back. */
  lemma Vp9CopyMayStepBack()
    ensures
      var cfg := Config(Video, false, true, 2, 8, false, false, false, false, Rational(1, 1));
      var events := [Header, Write(Packet(0, 5, 5)), Write(Packet(1, 3, 3))];
      var muxed := Exec(cfg, Rational(1, 1), events).st.muxed;
      muxed == [Packet(0, 5, 5), Packet(1, 3, 3)] && !Ordered(cfg, muxed)
  {
    var cfg := Config(Video, false, true, 2, 8, false, false, false, false, Rational(1, 1));
    var tb := Rational(1, 1);
    var a, b := Packet(0, 5, 5), Packet(1, 3, 3);
    var events := [Header, Write(a), Write(b)];
    assert events[..2] == [Header, Write(a)] && [Header, Write(a)][..1] == [Header];
    assert [Header][..0] == [];
    assert Rescale(5, tb, tb) == 5 && Rescale(3, tb, tb) == 3;
    var r0 := Exec(cfg, tb, [Header]);
    assert r0 == Run(Init(tb).(headerWritten := true), [], true);
    var r1 := Exec(cfg, tb, [Header, Write(a)]);
    assert r1.st.muxed == [a] && r1.live;
    var muxed := Exec(cfg, tb, events).st.muxed;
    assert muxed == [a, b];
    assert muxed[0].dts > muxed[1].dts;
  }

  /** Nor behind a packet without dts, even of a stream that is repaired. */
  lemma GapMayStepBack()
    ensures
      var cfg := Config(Audio, true, false, 3, 8, false, false, false, false, Rational(1, 1));
      var events := [Header, Write(Packet(0, 5, 5)), Write(Packet(1, 6, NOPTS)), Write(Packet(2, 3, 3))];
      var muxed := Exec(cfg, Rational(1, 1), events).st.muxed;
      muxed == [Packet(0, 5, 5), Packet(1, 6, NOPTS), Packet(2, 3, 3)] && !Ordered(cfg, muxed)
  {
    var cfg := Config(Audio, true, false, 3, 8, false, false, false, false, Rational(1, 1));
    var tb := Rational(1, 1);
    var a, b, c := Packet(0, 5, 5), Packet(1, 6, NOPTS), Packet(2, 3, 3);
    var events := [Header, Write(a), Write(b), Write(c)];
    assert events[..3] == [Header, Write(a), Write(b)] && events[..3][..2] == [Header, Write(a)];
    assert events[..3][..2][..1] == [Header] && [Header][..0] == [];
    assert Rescale(5, tb, tb) == 5 && Rescale(6, tb, tb) == 6 && Rescale(3, tb, tb) == 3;
    assert Exec(cfg, tb, [Header]) == Run(Init(tb).(headerWritten := true), [], true);
    var r1 := Exec(cfg, tb, [Header, Write(a)]);
    assert r1.st.muxed == [a] && r1.live;
    var r2 := Exec(cfg, tb, events[..3]);
    assert r2.st.muxed == [a, b] && r2.live && r2.st.lastMuxDts == NOPTS;
    var muxed := Exec(cfg, tb, events).st.muxed;
    assert muxed == [a, b, c];
    assert muxed[0].dts > muxed[2].dts;
  }
}
