/**
 The pump that drives a packet through an output stream's chain of bitstream filters:
 `output_packet` in fftools/ffmpeg.c.

 A filter is any deterministic transducer: what it emits for a packet may depend on everything it
 has been sent so far. It answers a receive with its next pending output, with "again" when it has
 none, and with "end of file" when it has none and has been closed. A filter may also report a fault.
 */
module BitstreamFilters {
  import opened Common

  /** A packet; only its identity matters here. */
  datatype Packet = Packet(data: seq<int>, pts: int, dts: int)

  /** One pending answer of a filter: a packet, or an error code. */
  datatype Output = Data(packet: Packet) | Fault(code: int)

  /** `emit(h)` is what the last packet of history `h` releases; `flush(h)` what closing releases. */
  datatype Filter = Filter(emit: seq<Packet> -> seq<Output>, flush: seq<Packet> -> seq<Output>)

  /** A filter context: `history` and `eofs` log what it was sent, `pending` is not yet collected. */
  datatype Bsf = Bsf(filter: Filter, history: seq<Packet>, eofs: nat, pending: seq<Output>)
  {
    predicate Closed() { eofs > 0 }

    predicate Drained() { |pending| == 0 }
  }

  datatype Status = Ok | Again | EndOfFile | Error(code: int)

  const EINVAL: int := -22

  const EAGAIN: int := -11

  // ---------------------------------------------------------------- the filter interface

  /** av_bsf_send_packet; None is the end-of-file signal. */
  function Send(b: Bsf, pkt: Option<Packet>): (Bsf, Status)
  {
    match pkt
    case None =>
      (b.(eofs := b.eofs + 1, pending := b.pending + Flushed(b)), Ok)
    case Some(p) =>
      if b.Closed() then (b, Error(EINVAL))
      else if !b.Drained() then (b, Error(EAGAIN))
      else
        var h := b.history + [p];
        (b.(history := h, pending := b.filter.emit(h)), Ok)
  }

  function Flushed(b: Bsf): seq<Output>
  {
    if b.Closed() then [] else b.filter.flush(b.history)
  }

  /** av_bsf_receive_packet. */
  function Receive(b: Bsf): (Bsf, Status, Option<Packet>)
  {
    if !b.Drained() then
      var rest := b.(pending := b.pending[1..]);
      match b.pending[0]
      case Data(p) => (rest, Ok, Some(p))
      case Fault(c) => (rest, Error(c), None)
    else if b.Closed() then (b, EndOfFile, None)
    else (b, Again, None)
  }

  /**
   What a filter answers. It takes a packet exactly if it is neither closed nor still to be drained; closing it
   always succeeds, and releases what it holds back the first time only.
   */
  lemma SendAnswers(b: Bsf, p: Packet)
    ensures
      var b', st := Send(b, Some(p)).0, Send(b, Some(p)).1;
      if b.eofs > 0 then b' == b && st == Error(EINVAL)
      else if b.pending != [] then b' == b && st == Error(EAGAIN)
      else st == Ok && b' == Bsf(b.filter, b.history + [p], 0, b.filter.emit(b.history + [p]))
    ensures
      var b', st := Send(b, None).0, Send(b, None).1;
      var held := if b.eofs == 0 then b.filter.flush(b.history) else [];
      st == Ok && b' == Bsf(b.filter, b.history, b.eofs + 1, b.pending + held)
  {
  }

  /** It answers with its pending outputs, one after the other, and then with "again", or "end of file" once closed. */
  lemma ReceiveAnswers(b: Bsf)
    ensures
      var b', st, got := Receive(b).0, Receive(b).1, Receive(b).2;
      && b' == b.(pending := b'.pending)
      && (if b.pending == [] then b' == b && got == None && st == if b.eofs > 0 then EndOfFile else Again
          else
            && b.pending == [b.pending[0]] + b'.pending
            && (b.pending[0].Data? ==> st == Ok && got == Some(b.pending[0].packet))
            && (b.pending[0].Fault? ==> st == Error(b.pending[0].code) && got == None))
  {
  }

  // ---------------------------------------------------------------- specification

  /** Result of feeding a chain: the chain afterwards, what leaves its end, and loop turns used. */
  datatype Outcome = Outcome(chain: seq<Bsf>, out: seq<Output>, steps: nat)

  /** What one filter does with one item; faults pass through it untouched. */
  function Absorb(b: Bsf, x: Output): (Bsf, seq<Output>)
  {
    match x
    case Fault(c) => (b, [x])
    case Data(p) =>
      if b.Closed() then (b, [Fault(EINVAL)])
      else
        var h := b.history + [p];
        (b.(history := h), b.filter.emit(h))
  }

  /** Feed `xs`, and then end of file if `eof`, to the head of a drained chain, one item at a time. */
  function Feed(fs: seq<Bsf>, xs: seq<Output>, eof: bool): (r: Outcome)
    ensures |r.chain| == |fs|
    decreases |fs|, |xs|
  {
    if |fs| == 0 then Outcome(fs, xs, |xs| + if eof then 1 else 0)
    else if |xs| > 0 then
      var (b, outs) := Absorb(fs[0], xs[0]);
      var r1 := Feed(fs[1..], outs, false);
      var r2 := Feed([b] + r1.chain, xs[1..], eof);
      Outcome(r2.chain, r1.out + r2.out, 2 + r1.steps + r2.steps)
    else if eof then
      var r := Feed(fs[1..], Flushed(fs[0]), true);
      Outcome([fs[0].(eofs := fs[0].eofs + 1)] + r.chain, r.out, 1 + r.steps)
    else Outcome(fs, [], 0)
  }

  /** What the pump still has to do when it stands at `idx` with filters `idx..` drained. */
  function Finish(fs: seq<Bsf>, idx: nat): (r: Outcome)
    requires idx <= |fs|
    ensures |r.chain| == |fs|
    decreases idx
  {
    if idx == 0 then Outcome(fs, [], 0)
    else
      var b := fs[idx - 1];
      var r := Feed(fs[idx..], b.pending, b.Closed());
      var fs1 := fs[..idx - 1] + [b.(pending := [])] + r.chain;
      if b.Closed() then Outcome(fs1, r.out, 1 + r.steps)
      else
        var r2 := Finish(fs1, idx - 1);
        Outcome(r2.chain, r.out + r2.out, 1 + r.steps + r2.steps)
  }

  predicate HasFault(xs: seq<Output>) { exists i :: 0 <= i < |xs| && xs[i].Fault? }

  /** The packets of `xs` up to its first fault. */
  function Packets(xs: seq<Output>): seq<Packet>
  {
    if |xs| == 0 || xs[0].Fault? then [] else [xs[0].packet] + Packets(xs[1..])
  }

  ghost predicate Ready(fs: seq<Bsf>) { forall i :: 0 <= i < |fs| ==> fs[i].Drained() }

  // ---------------------------------------------------------------- one pump step

  lemma {:induction false} PacketsAppend(xs: seq<Output>, ys: seq<Output>)
    requires !HasFault(xs)
    ensures Packets(xs + ys) == Packets(xs) + Packets(ys)
  {
    if |xs| == 0 {
      assert xs + ys == ys;
    } else {
      assert xs[0].Data?;
      assert !HasFault(xs[1..]) by {
        forall i | 0 <= i < |xs[1..]| ensures !xs[1..][i].Fault? { assert xs[1..][i] == xs[i + 1]; }
      }
      assert (xs + ys)[1..] == xs[1..] + ys;
      PacketsAppend(xs[1..], ys);
    }
  }

  /** A fault at the front of the input is the first thing to leave the chain. */
  lemma {:induction false} FaultLeavesFirst(fs: seq<Bsf>, xs: seq<Output>, eof: bool)
    requires |xs| > 0 && xs[0].Fault?
    ensures |Feed(fs, xs, eof).out| > 0 && Feed(fs, xs, eof).out[0] == xs[0]
    decreases |fs|
  {
    if |fs| > 0 {
      FaultLeavesFirst(fs[1..], [xs[0]], false);
    }
  }

  lemma {:induction false} StepData(fs: seq<Bsf>, idx: nat)
    requires 0 < idx < |fs| && |fs[idx - 1].pending| > 0 && fs[idx - 1].pending[0].Data?
    requires !fs[idx].Closed() && fs[idx].Drained()
    ensures
      var p := fs[idx - 1].pending[0].packet;
      var fs' := fs[idx - 1 := Receive(fs[idx - 1]).0][idx := Send(fs[idx], Some(p)).0];
      var r, r' := Finish(fs, idx), Finish(fs', idx + 1);
      r.chain == r'.chain && r.out == r'.out && r.steps == r'.steps + 1
  {
    var b := fs[idx - 1];
    var p := b.pending[0].packet;
    var b' := b.(pending := b.pending[1..]);
    var g := Send(fs[idx], Some(p)).0;
    var fs' := fs[idx - 1 := b'][idx := g];
    var (a, outs) := Absorb(fs[idx..][0], b.pending[0]);
    assert a == g.(pending := []) && outs == g.pending;
    assert fs'[idx + 1..] == fs[idx..][1..];
    var r1 := Feed(fs[idx + 1..], outs, false);
    assert fs[idx..][1..] == fs[idx + 1..];
    var mid := fs'[..idx] + [a] + r1.chain;
    assert mid[idx..] == [a] + r1.chain;
    assert mid[idx - 1] == b';
    var r2 := Feed([a] + r1.chain, b.pending[1..], b.Closed());
    assert mid[..idx - 1] == fs[..idx - 1];
    var end := fs[..idx - 1] + [b.(pending := [])] + r2.chain;
    assert Finish(fs', idx + 1).out == r1.out + Finish(mid, idx).out;
    assert Feed(fs[idx..], b.pending, b.Closed()).out == r1.out + r2.out;
    if !b.Closed() {
      assert r1.out + (r2.out + Finish(end, idx - 1).out) == (r1.out + r2.out) + Finish(end, idx - 1).out;
    }
  }

  lemma {:induction false} StepAgain(fs: seq<Bsf>, idx: nat)
    requires 0 < idx <= |fs| && fs[idx - 1].Drained() && !fs[idx - 1].Closed()
    ensures
      var r, r' := Finish(fs, idx), Finish(fs, idx - 1);
      r.chain == r'.chain && r.out == r'.out && r.steps == r'.steps + 1
  {
    var b := fs[idx - 1];
    assert b == b.(pending := []);
    assert fs[..idx - 1] + [b] + fs[idx..] == fs;
  }

  lemma {:induction false} StepEof(fs: seq<Bsf>, idx: nat)
    requires 0 < idx < |fs| && fs[idx - 1].Drained() && fs[idx - 1].Closed() && fs[idx].Drained()
    ensures
      var fs' := fs[idx := Send(fs[idx], None).0];
      var r, r' := Finish(fs, idx), Finish(fs', idx + 1);
      r.chain == r'.chain && r.out == r'.out && r.steps == r'.steps + 1
  {
    var b := fs[idx - 1];
    var g := Send(fs[idx], None).0;
    var fs' := fs[idx := g];
    assert b == b.(pending := []);
    assert g.pending == Flushed(fs[idx]);
    assert fs[idx..][1..] == fs[idx + 1..] == fs'[idx + 1..];
    var r := Feed(fs[idx + 1..], Flushed(fs[idx]), true);
    assert g.(pending := []) == fs[idx].(eofs := fs[idx].eofs + 1);
    assert fs[..idx - 1] + [b] + ([g.(pending := [])] + r.chain) == fs'[..idx] + [g.(pending := [])] + r.chain;
  }

  lemma {:induction false} StepWrite(fs: seq<Bsf>, idx: nat)
    requires 0 < idx == |fs| && |fs[idx - 1].pending| > 0 && fs[idx - 1].pending[0].Data?
    ensures
      var fs' := fs[idx - 1 := Receive(fs[idx - 1]).0];
      var r, r' := Finish(fs, idx), Finish(fs', idx);
      r.chain == r'.chain && r.out == [fs[idx - 1].pending[0]] + r'.out && r.steps == r'.steps + 1
  {
    var b := fs[idx - 1];
    var b' := Receive(b).0;
    var fs' := fs[idx - 1 := b'];
    var done := b.(pending := []);
    var end := fs[..idx - 1] + [done];
    assert fs[idx..] == [] && fs'[idx..] == [];
    assert fs[..idx - 1] + [done] + [] == end && fs'[..idx - 1] + [done] + [] == end;
    assert b.pending == [b.pending[0]] + b'.pending;
    if !b.Closed() {
      var rest := Finish(end, idx - 1).out;
      assert ([b.pending[0]] + b'.pending) + rest == [b.pending[0]] + (b'.pending + rest);
    }
  }

  /** Whatever stops the pump early would have been the next thing to leave the chain. */
  lemma {:induction false} StepFault(fs: seq<Bsf>, idx: nat)
    requires 0 < idx <= |fs| && |fs[idx - 1].pending| > 0
    requires fs[idx - 1].pending[0].Fault? || (idx < |fs| && fs[idx].Closed())
    ensures Packets(Finish(fs, idx).out) == [] && HasFault(Finish(fs, idx).out)
  {
    var b := fs[idx - 1];
    var r := Feed(fs[idx..], b.pending, b.Closed());
    if b.pending[0].Fault? {
      FaultLeavesFirst(fs[idx..], b.pending, b.Closed());
    } else {
      FaultLeavesFirst(fs[idx..][1..], [Fault(EINVAL)], false);
    }
    assert r.out[0].Fault? && Finish(fs, idx).out[0] == r.out[0];
  }

  // ---------------------------------------------------------------- the pump itself

  /** What one turn of the pump's loop does. */
  datatype Turn = Stop(chain: seq<Bsf>, ret: Status) | Go(chain: seq<Bsf>, idx: nat, written: seq<Packet>)

  function TurnOf(fs: seq<Bsf>, idx: nat): Turn
    requires 0 < idx <= |fs|
  {
    var (b, st, got) := Receive(fs[idx - 1]);
    var fs1 := fs[idx - 1 := b];
    if st == Again then Go(fs1, idx - 1, [])
    else if st.Error? then Stop(fs1, st)
    else if idx < |fs| then
      var (g, sent) := Send(fs1[idx], got);
      if sent.Error? then Stop(fs1, sent)
      else Go(fs1[idx := g], idx + 1, [])
    else if st == EndOfFile then Stop(fs1, st)
    else Go(fs1, idx, [got.value])
  }

  ghost predicate DrainedFrom(fs: seq<Bsf>, idx: nat) { forall i :: idx <= i < |fs| ==> fs[i].Drained() }

  lemma {:induction false} TurnKeepsDrained(fs: seq<Bsf>, idx: nat)
    requires 0 < idx <= |fs| && DrainedFrom(fs, idx)
    ensures
      match TurnOf(fs, idx)
      case Go(fs', idx', w) => |fs'| == |fs| && idx' <= |fs| && DrainedFrom(fs', idx')
      case Stop(fs', st) => |fs'| == |fs|
  {
  }

  /** Moving from `(fs, idx)` to turn `t` loses nothing of what is left to do, and makes progress. */
  ghost predicate KeepsRest(r: Outcome, t: Turn)
    requires t.Go? ==> t.idx <= |t.chain|
  {
    if t.Stop? then Packets(r.out) == [] && (HasFault(r.out) <==> t.ret.Error?) && (t.ret.Error? || r.chain == t.chain)
    else
      var r' := Finish(t.chain, t.idx);
      && r'.steps < r.steps && r'.chain == r.chain
      && Packets(r.out) == t.written + Packets(r'.out) && (HasFault(r.out) <==> HasFault(r'.out))
  }

  lemma {:induction false} TurnWithData(fs: seq<Bsf>, idx: nat)
    requires 0 < idx <= |fs| && DrainedFrom(fs, idx) && !fs[idx - 1].Drained()
    requires fs[idx - 1].pending[0].Data? && (idx < |fs| ==> !fs[idx].Closed())
    ensures TurnOf(fs, idx).Go? && TurnOf(fs, idx).idx <= |TurnOf(fs, idx).chain|
    ensures KeepsRest(Finish(fs, idx), TurnOf(fs, idx))
  {
    TurnKeepsDrained(fs, idx);
    if idx < |fs| {
      StepData(fs, idx);
    } else {
      StepWrite(fs, idx);
      PacketsCons(fs[idx - 1].pending[0].packet, Finish(TurnOf(fs, idx).chain, idx).out);
    }
  }

  lemma {:induction false} TurnWithoutData(fs: seq<Bsf>, idx: nat)
    requires 0 < idx <= |fs| && DrainedFrom(fs, idx) && fs[idx - 1].Drained()
    ensures TurnOf(fs, idx).Go? ==> TurnOf(fs, idx).idx <= |TurnOf(fs, idx).chain|
    ensures KeepsRest(Finish(fs, idx), TurnOf(fs, idx))
  {
    TurnKeepsDrained(fs, idx);
    assert fs[idx - 1 := fs[idx - 1]] == fs;
    if !fs[idx - 1].Closed() {
      StepAgain(fs, idx);
    } else if idx < |fs| {
      StepEof(fs, idx);
    } else {
      AllClosed(fs);
    }
  }

  lemma {:induction false} TurnKeepsRest(fs: seq<Bsf>, idx: nat)
    requires 0 < idx <= |fs| && DrainedFrom(fs, idx)
    ensures TurnOf(fs, idx).Go? ==> TurnOf(fs, idx).idx <= |TurnOf(fs, idx).chain|
    ensures KeepsRest(Finish(fs, idx), TurnOf(fs, idx))
  {
    if fs[idx - 1].Drained() {
      TurnWithoutData(fs, idx);
    } else if fs[idx - 1].pending[0].Data? && (idx < |fs| ==> !fs[idx].Closed()) {
      TurnWithData(fs, idx);
    } else {
      StepFault(fs, idx);
    }
  }

  /** The pump's loop, turn after turn, from position `idx`. */
  datatype Driven = Driven(chain: seq<Bsf>, written: seq<Packet>, ret: Status, turns: nat)

  ghost function Drive(fs: seq<Bsf>, idx: nat): Driven
    requires idx <= |fs| && DrainedFrom(fs, idx)
    decreases Finish(fs, idx).steps
  {
    if idx == 0 then Driven(fs, [], Ok, 0)
    else
      TurnKeepsDrained(fs, idx);
      TurnKeepsRest(fs, idx);
      match TurnOf(fs, idx)
      case Stop(fs', st) => Driven(fs', [], st, 0)
      case Go(fs', idx', w) =>
        var d := Drive(fs', idx');
        Driven(d.chain, w + d.written, d.ret, 1 + d.turns)
  }

  lemma DriveTurn(fs: seq<Bsf>, idx: nat)
    requires 0 < idx <= |fs| && DrainedFrom(fs, idx)
    ensures
      match TurnOf(fs, idx)
      case Stop(fs', st) => Drive(fs, idx) == Driven(fs', [], st, 0)
      case Go(fs', idx', w) =>
        && idx' <= |fs'| == |fs| && DrainedFrom(fs', idx')
        && var d := Drive(fs', idx');
        Drive(fs, idx) == Driven(d.chain, w + d.written, d.ret, 1 + d.turns)
  {
    TurnKeepsDrained(fs, idx);
  }

  /** Turn by turn, the pump does exactly what is left to do. */
  lemma {:induction false} DriveIsFinish(fs: seq<Bsf>, idx: nat)
    requires idx <= |fs| && DrainedFrom(fs, idx)
    ensures
      var d, r := Drive(fs, idx), Finish(fs, idx);
      && d.written == Packets(r.out) && (d.ret.Error? <==> HasFault(r.out))
      && (!d.ret.Error? ==> d.chain == r.chain)
    decreases Finish(fs, idx).steps
  {
    if idx > 0 {
      TurnKeepsDrained(fs, idx);
      TurnKeepsRest(fs, idx);
      match TurnOf(fs, idx)
      case Stop(_, _) =>
      case Go(fs', idx', w) => DriveIsFinish(fs', idx');
    }
  }

  lemma {:induction false} FeedStaysReady(fs: seq<Bsf>, xs: seq<Output>, eof: bool)
    requires Ready(fs)
    ensures Ready(Feed(fs, xs, eof).chain)
    decreases |fs|, |xs|
  {
    if |fs| > 0 && |xs| > 0 {
      var (b, outs) := Absorb(fs[0], xs[0]);
      FeedStaysReady(fs[1..], outs, false);
      FeedStaysReady([b] + Feed(fs[1..], outs, false).chain, xs[1..], eof);
    } else if |fs| > 0 && eof {
      FeedStaysReady(fs[1..], Flushed(fs[0]), true);
    }
  }

  /** What a call feeds to the chain: one packet, or end of file. */
  function Input(pkt: Option<Packet>): seq<Output>
  {
    if pkt.Some? then [Data(pkt.value)] else []
  }

  /** The output stream: its chain of filter contexts and what it has passed to write_packet. */
  class OutputStream {
    var bsf: seq<Bsf>
    var written: seq<Packet>

    constructor (filters: seq<Filter>)
      ensures written == [] && |bsf| == |filters|
      ensures forall i :: 0 <= i < |bsf| ==> bsf[i] == Bsf(filters[i], [], 0, [])
      ensures Ready(bsf)
    {
      bsf := seq(|filters|, i requires 0 <= i < |filters| => Bsf(filters[i], [], 0, []));
      written := [];
    }

    /** One packet (or, with None, end of file) through the chain. */
    method OutputPacket(pkt: Option<Packet>) returns (ret: Status)
      requires Ready(bsf)
      modifies this
      ensures
        var r := Feed(old(bsf), Input(pkt), pkt.None?);
        && written == old(written) + Packets(r.out)
        && (ret.Error? <==> HasFault(r.out))
        && (!ret.Error? ==> bsf == r.chain && Ready(bsf))
    {
      FeedStaysReady(bsf, Input(pkt), pkt.None?);
      ret := Ok;
      if |bsf| > 0 {
        FirstSend(bsf, pkt);
        var (b, st) := Send(bsf[0], pkt);
        if st.Error? { return st; }
        bsf := bsf[0 := b];
        DriveIsFinish(bsf, 1);
        ret := Pump();
      } else if pkt.Some? {
        written := written + [pkt.value];
      }
    }

    /**
     The calls for a whole stream: one per packet, then the one for end of file, up to the first that
     fails. What they write is the composition of the filters, up to the first fault that leaves it.
     */
    method OutputAll(pkts: seq<Packet>) returns (failed: bool)
      requires Ready(bsf) && forall i :: 0 <= i < |bsf| ==> !bsf[i].Closed()
      modifies this
      ensures
        var out := Compose(old(bsf), AsData(pkts), true);
        written == old(written) + Packets(out) && (failed <==> HasFault(out))
      ensures !failed ==> Ready(bsf) && |bsf| == |old(bsf)| && forall k :: 0 <= k < |bsf| ==>
        bsf[k] == SentAll(old(bsf), k, pkts)
    {
      RunIsComposition(bsf, pkts);
      ghost var goal := Run(bsf, pkts);
      ghost var total := written + Packets(goal.out);
      var i: nat := 0;
      while i < |pkts|
        invariant i <= |pkts| && Ready(bsf)
        invariant total == written + Packets(Run(bsf, pkts[i..]).out)
        invariant HasFault(goal.out) <==> HasFault(Run(bsf, pkts[i..]).out)
        invariant goal.chain == Run(bsf, pkts[i..]).chain
      {
        assert pkts[i..][0] == pkts[i] && pkts[i..][1..] == pkts[i + 1..];
        ghost var first := Feed(bsf, Input(Some(pkts[i])), false);
        FirstCallOfRun(bsf, pkts[i..]);
        Regroup(written, Packets(first.out), Packets(Run(first.chain, pkts[i + 1..]).out));
        var ret := OutputPacket(Some(pkts[i]));
        if ret.Error? { return true; }
        i := i + 1;
      }
      assert pkts[i..] == [];
      var ret := OutputPacket(None);
      failed := ret.Error?;
    }

    /** The loop of output_packet, once the first filter has been sent its input. */
    method Pump() returns (ret: Status)
      requires |bsf| > 0 && DrainedFrom(bsf, 1)
      modifies this
      ensures
        var d := Drive(old(bsf), 1);
        bsf == d.chain && written == old(written) + d.written && ret == d.ret
    {
      ghost var goal, total := Drive(bsf, 1), written + Drive(bsf, 1).written;
      var idx := 1;
      ret := Ok;
      while idx > 0
        invariant ret == Ok && 0 <= idx <= |bsf| && DrainedFrom(bsf, idx)
        invariant goal.chain == Drive(bsf, idx).chain && goal.ret == Drive(bsf, idx).ret
        invariant total == written + Drive(bsf, idx).written
        decreases Drive(bsf, idx).turns
      {
        var done;
        done, idx, ret := NextTurn(idx);
        if done { return; }
      }
    }

    /** One turn, as the whole drive sees it. */
    method NextTurn(idx: nat) returns (done: bool, idx': nat, ret: Status)
      requires 0 < idx <= |bsf| && DrainedFrom(bsf, idx)
      modifies this
      ensures done ==>
        var d := Drive(old(bsf), idx);
        d.chain == bsf && d.ret == ret && written == old(written) + d.written
      ensures !done ==> ret == Ok && idx' <= |bsf| && DrainedFrom(bsf, idx')
      ensures !done ==>
        var d, d' := Drive(old(bsf), idx), Drive(bsf, idx');
        && d.chain == d'.chain && d.ret == d'.ret && d.turns > d'.turns
        && written + d'.written == old(written) + d.written
    {
      ghost var before := written;
      DriveTurn(bsf, idx);
      ghost var turn := TurnOf(bsf, idx);
      done, idx', ret := OneTurn(idx);
      if done {
        assert written + [] == written;
      } else {
        Regroup(before, turn.written, Drive(bsf, idx').written);
      }
    }

    /** The body of that loop: one receive, and where its result goes. */
    method OneTurn(idx: nat) returns (done: bool, idx': nat, ret: Status)
      requires 0 < idx <= |bsf|
      modifies this
      ensures
        match TurnOf(old(bsf), idx)
        case Stop(fs, st) => done && bsf == fs && ret == st && written == old(written)
        case Go(fs, i, w) => !done && bsf == fs && ret == Ok && idx' == i && written == old(written) + w
    {
      done, idx' := false, idx;
      var (b, st, got) := Receive(bsf[idx - 1]);
      bsf := bsf[idx - 1 := b];
      ret := st;
      if st == Again {
        return false, idx - 1, Ok;
      } else if st.Error? {
        return true, idx, st;
      }
      if idx < |bsf| {
        var (g, sent) := Send(bsf[idx], got);
        if sent.Error? {
          return true, idx, sent;
        }
        bsf := bsf[idx := g];
        return false, idx + 1, Ok;
      } else if st == EndOfFile {
        return true, idx, st;
      }
      written := written + [got.value];
    }
  }

  /** Sending the first filter its input leaves exactly the rest of the feed to do. */
  lemma {:induction false} FirstSend(fs: seq<Bsf>, pkt: Option<Packet>)
    requires |fs| > 0 && Ready(fs)
    ensures
      var r := Feed(fs, Input(pkt), pkt.None?);
      var (b, st) := Send(fs[0], pkt);
      var r' := Finish(fs[0 := b], 1);
      if st.Error? then Packets(r.out) == [] && HasFault(r.out)
      else st == Ok && DrainedFrom(fs[0 := b], 1) && r.chain == r'.chain && r.out == r'.out
  {
    if pkt.None? {
      FirstSendEof(fs);
    } else if fs[0].Closed() {
      FaultLeavesFirst(fs[1..], [Fault(EINVAL)], false);
      assert Feed(fs, Input(pkt), false).out[0].Fault?;
    } else {
      FirstSendPacket(fs, pkt.value);
    }
  }

  lemma {:induction false} FirstSendPacket(fs: seq<Bsf>, p: Packet)
    requires |fs| > 0 && Ready(fs) && !fs[0].Closed()
    ensures
      var r, r' := Feed(fs, [Data(p)], false), Finish(fs[0 := Send(fs[0], Some(p)).0], 1);
      r.chain == r'.chain && r.out == r'.out
  {
    var b := Send(fs[0], Some(p)).0;
    var fs' := fs[0 := b];
    var (a, outs) := Absorb(fs[0], Data(p));
    assert a == b.(pending := []) && outs == b.pending;
    var r1 := Feed(fs[1..], outs, false);
    var end := [a] + r1.chain;
    assert [Data(p)][1..] == [] && Feed(end, [], false) == Outcome(end, [], 0);
    assert Feed(fs, [Data(p)], false) == Outcome(end, r1.out + [], 2 + r1.steps);
    assert fs'[1..] == fs[1..] && fs'[..0] + [a] + r1.chain == end;
  }

  lemma {:induction false} FirstSendEof(fs: seq<Bsf>)
    requires |fs| > 0 && Ready(fs)
    ensures
      var r, r' := Feed(fs, [], true), Finish(fs[0 := Send(fs[0], None).0], 1);
      r.chain == r'.chain && r.out == r'.out
  {
    var b := Send(fs[0], None).0;
    var fs' := fs[0 := b];
    assert b.pending == Flushed(fs[0]) && fs'[1..] == fs[1..];
    var r1 := Feed(fs[1..], Flushed(fs[0]), true);
    assert fs'[..0] + [b.(pending := [])] + r1.chain == [b.(pending := [])] + r1.chain;
  }

  /** Once the last filter has ended, nothing more leaves the chain. */
  lemma {:induction false} AllClosed(fs: seq<Bsf>)
    requires |fs| > 0 && fs[|fs| - 1].Closed() && fs[|fs| - 1].Drained()
    ensures Finish(fs, |fs|).chain == fs && Finish(fs, |fs|).out == []
  {
    var b := fs[|fs| - 1];
    assert b == b.(pending := []);
    assert fs[|fs|..] == [];
    assert fs[..|fs| - 1] + [b] + [] == fs;
  }

  lemma {:induction false} PacketsCons(p: Packet, xs: seq<Output>)
    ensures Packets([Data(p)] + xs) == [p] + Packets(xs)
    ensures HasFault([Data(p)] + xs) <==> HasFault(xs)
  {
    var ys := [Data(p)] + xs;
    assert ys[1..] == xs;
    if HasFault(ys) {
      var i :| 0 <= i < |ys| && ys[i].Fault?;
      assert xs[i - 1].Fault?;
    }
    if HasFault(xs) {
      var i :| 0 <= i < |xs| && xs[i].Fault?;
      assert ys[i + 1].Fault?;
    }
  }

  // ---------------------------------------------------------------- composition of the filters

  /** Everything one filter emits for a whole input stream, by itself. */
  function Emitted(b: Bsf, xs: seq<Output>, eof: bool): seq<Output>
    decreases |xs|
  {
    if |xs| > 0 then
      var (b', outs) := Absorb(b, xs[0]);
      outs + Emitted(b', xs[1..], eof)
    else if eof then Flushed(b) else []
  }

  /** That filter after the whole input stream. */
  function After(b: Bsf, xs: seq<Output>, eof: bool): Bsf
    decreases |xs|
  {
    if |xs| > 0 then After(Absorb(b, xs[0]).0, xs[1..], eof)
    else if eof then b.(eofs := b.eofs + 1) else b
  }

  /** The reference: each filter in turn maps the whole stream before the next one sees any of it. */
  function Compose(fs: seq<Bsf>, xs: seq<Output>, eof: bool): seq<Output>
  {
    if |fs| == 0 then xs else Compose(fs[1..], Emitted(fs[0], xs, eof), eof)
  }

  /** The whole stream that reaches filter `k` of the chain. */
  function StageInput(fs: seq<Bsf>, k: nat, xs: seq<Output>, eof: bool): seq<Output>
    requires k <= |fs|
    decreases k
  {
    if k == 0 then xs else StageInput(fs[1..], k - 1, Emitted(fs[0], xs, eof), eof)
  }

  /** Feeding in two portions is feeding at once. */
  lemma {:induction false} FeedSplit(fs: seq<Bsf>, xs: seq<Output>, ys: seq<Output>, eof: bool)
    ensures
      var r1 := Feed(fs, xs, false);
      var r2 := Feed(r1.chain, ys, eof);
      var r := Feed(fs, xs + ys, eof);
      r.out == r1.out + r2.out && r.chain == r2.chain
    decreases |xs|
  {
    if |fs| == 0 {
    } else if |xs| == 0 {
      assert xs + ys == ys;
    } else {
      var (b, outs) := Absorb(fs[0], xs[0]);
      var r1 := Feed(fs[1..], outs, false);
      assert (xs + ys)[1..] == xs[1..] + ys;
      FeedSplit([b] + r1.chain, xs[1..], ys, eof);
    }
  }

  /** Item-by-item feeding lets the first filter see the whole stream, and the rest what it emits. */
  lemma {:induction false} FeedStage(fs: seq<Bsf>, xs: seq<Output>, eof: bool)
    requires |fs| > 0
    ensures
      var r, r' := Feed(fs, xs, eof), Feed(fs[1..], Emitted(fs[0], xs, eof), eof);
      r.out == r'.out && r.chain == [After(fs[0], xs, eof)] + r'.chain
    decreases |xs|
  {
    if |xs| > 0 {
      var (b, outs) := Absorb(fs[0], xs[0]);
      var r1 := Feed(fs[1..], outs, false);
      var mid := [b] + r1.chain;
      FeedStage(mid, xs[1..], eof);
      assert mid[1..] == r1.chain;
      FeedSplit(fs[1..], outs, Emitted(b, xs[1..], eof), eof);
    } else if !eof {
      IdleFeed(fs[1..]);
      assert [fs[0]] + fs[1..] == fs;
    }
  }

  lemma {:induction false} IdleFeed(fs: seq<Bsf>)
    ensures Feed(fs, [], false).out == [] && Feed(fs, [], false).chain == fs
  {
  }

  /** What leaves the chain is the composition of its filters, and each filter saw its whole input. */
  lemma {:induction false} FeedIsComposition(fs: seq<Bsf>, xs: seq<Output>, eof: bool)
    ensures Feed(fs, xs, eof).out == Compose(fs, xs, eof)
    ensures forall k :: 0 <= k < |fs| ==>
      Feed(fs, xs, eof).chain[k] == After(fs[k], StageInput(fs, k, xs, eof), eof)
    decreases |fs|
  {
    if |fs| > 0 {
      FeedStage(fs, xs, eof);
      var ys := Emitted(fs[0], xs, eof);
      FeedIsComposition(fs[1..], ys, eof);
      var r := Feed(fs, xs, eof);
      forall k | 0 <= k < |fs| ensures r.chain[k] == After(fs[k], StageInput(fs, k, xs, eof), eof) {
        if k > 0 {
          assert fs[k] == fs[1..][k - 1];
          assert r.chain[k] == Feed(fs[1..], ys, eof).chain[k - 1];
        }
      }
    }
  }

  // ---------------------------------------------------------------- whole runs

  function AsData(pkts: seq<Packet>): seq<Output>
  {
    seq(|pkts|, i requires 0 <= i < |pkts| => Data(pkts[i]))
  }

  /** A run: one OutputPacket call per packet, then the end-of-file call. */
  function Run(fs: seq<Bsf>, pkts: seq<Packet>): (r: Outcome)
    ensures |r.chain| == |fs|
    decreases |pkts|
  {
    if |pkts| == 0 then Feed(fs, Input(None), true)
    else
      var r1 := Feed(fs, Input(Some(pkts[0])), false);
      var r2 := Run(r1.chain, pkts[1..]);
      Outcome(r2.chain, r1.out + r2.out, r1.steps + r2.steps)
  }

  /** What those calls pass to write_packet, call after call. */
  function RunWritten(fs: seq<Bsf>, pkts: seq<Packet>): seq<Packet>
    decreases |pkts|
  {
    if |pkts| == 0 then Packets(Feed(fs, Input(None), true).out)
    else
      var r1 := Feed(fs, Input(Some(pkts[0])), false);
      Packets(r1.out) + RunWritten(r1.chain, pkts[1..])
  }

  lemma {:induction false} WrittenIsAllPackets(fs: seq<Bsf>, pkts: seq<Packet>)
    requires !HasFault(Run(fs, pkts).out)
    ensures RunWritten(fs, pkts) == Packets(Run(fs, pkts).out)
    decreases |pkts|
  {
    if |pkts| > 0 {
      var r1 := Feed(fs, Input(Some(pkts[0])), false);
      var r2 := Run(r1.chain, pkts[1..]);
      assert Run(fs, pkts).out == r1.out + r2.out;
      forall i | 0 <= i < |r1.out| ensures r1.out[i].Data? { assert (r1.out + r2.out)[i] == r1.out[i]; }
      forall i | 0 <= i < |r2.out| ensures r2.out[i].Data? { assert (r1.out + r2.out)[|r1.out| + i] == r2.out[i]; }
      PacketsAppend(r1.out, r2.out);
      WrittenIsAllPackets(r1.chain, pkts[1..]);
    }
  }

  /** What the first call of a run writes is the beginning of what the run writes, or all of it if it fails. */
  lemma {:induction false} FirstCallOfRun(fs: seq<Bsf>, pkts: seq<Packet>)
    requires |pkts| > 0
    ensures
      var r1, r := Feed(fs, Input(Some(pkts[0])), false), Run(fs, pkts);
      var r2 := Run(r1.chain, pkts[1..]);
      && r.chain == r2.chain
      && (if HasFault(r1.out) then HasFault(r.out) && Packets(r.out) == Packets(r1.out)
          else Packets(r.out) == Packets(r1.out) + Packets(r2.out) && (HasFault(r.out) <==> HasFault(r2.out)))
  {
    var r1 := Feed(fs, Input(Some(pkts[0])), false);
    var r2 := Run(r1.chain, pkts[1..]);
    FaultIn(r1.out, r2.out);
    if HasFault(r1.out) {
      PacketsOfFaulty(r1.out, r2.out);
    } else {
      PacketsAppend(r1.out, r2.out);
    }
  }

  lemma FaultIn(xs: seq<Output>, ys: seq<Output>)
    ensures HasFault(xs + ys) <==> HasFault(xs) || HasFault(ys)
  {
    if HasFault(xs) {
      var i :| 0 <= i < |xs| && xs[i].Fault?;
      assert (xs + ys)[i].Fault?;
    } else if HasFault(ys) {
      var i :| 0 <= i < |ys| && ys[i].Fault?;
      assert (xs + ys)[|xs| + i].Fault?;
    }
  }

  lemma {:induction false} PacketsOfFaulty(xs: seq<Output>, ys: seq<Output>)
    requires HasFault(xs)
    ensures Packets(xs + ys) == Packets(xs)
  {
    if xs[0].Data? {
      var i :| 0 <= i < |xs| && xs[i].Fault?;
      assert xs[1..][i - 1].Fault?;
      assert (xs + ys)[1..] == xs[1..] + ys;
      PacketsOfFaulty(xs[1..], ys);
    }
  }

  lemma Regroup(a: seq<Packet>, b: seq<Packet>, c: seq<Packet>)
    ensures (a + b) + c == a + (b + c)
  {
  }

  /** Filter `k` once it has been sent its whole input stream and one end of file. */
  function SentAll(fs: seq<Bsf>, k: nat, pkts: seq<Packet>): Bsf
    requires k < |fs|
  {
    fs[k].(history := fs[k].history + Packets(StageInput(fs, k, AsData(pkts), true)), eofs := 1)
  }

  lemma {:induction false} RunIsOneFeed(fs: seq<Bsf>, pkts: seq<Packet>)
    ensures
      var r, r' := Run(fs, pkts), Feed(fs, AsData(pkts), true);
      r.out == r'.out && r.chain == r'.chain
    decreases |pkts|
  {
    if |pkts| == 0 {
      assert AsData(pkts) == Input(None);
    } else {
      var r1 := Feed(fs, Input(Some(pkts[0])), false);
      RunIsOneFeed(r1.chain, pkts[1..]);
      FeedSplit(fs, [Data(pkts[0])], AsData(pkts[1..]), true);
      assert AsData(pkts) == [Data(pkts[0])] + AsData(pkts[1..]);
    }
  }

  /** A fault fed to the chain, or raised anywhere inside it, always comes out at its end. */
  lemma {:induction false} FaultsComeOut(fs: seq<Bsf>, xs: seq<Output>, eof: bool, k: nat)
    requires k <= |fs| && HasFault(StageInput(fs, k, xs, eof))
    ensures HasFault(Compose(fs, xs, eof))
    decreases |fs|
  {
    if |fs| > 0 {
      if k == 0 {
        EmittedKeepsFault(fs[0], xs, eof);
        FaultsComeOut(fs[1..], Emitted(fs[0], xs, eof), eof, 0);
      } else {
        FaultsComeOut(fs[1..], Emitted(fs[0], xs, eof), eof, k - 1);
      }
    }
  }

  lemma {:induction false} EmittedKeepsFault(b: Bsf, xs: seq<Output>, eof: bool)
    requires HasFault(xs)
    ensures HasFault(Emitted(b, xs, eof))
    decreases |xs|
  {
    var (b', outs) := Absorb(b, xs[0]);
    var rest := Emitted(b', xs[1..], eof);
    assert Emitted(b, xs, eof) == outs + rest;
    if xs[0].Fault? {
      assert (outs + rest)[0] == xs[0];
    } else {
      var i :| 0 <= i < |xs| && xs[i].Fault?;
      assert xs[1..][i - 1] == xs[i];
      EmittedKeepsFault(b', xs[1..], eof);
      var j :| 0 <= j < |rest| && rest[j].Fault?;
      assert (outs + rest)[|outs| + j] == rest[j];
    }
  }

  /** An open filter fed a fault-free stream and then closed has seen exactly that stream, then one end of file. */
  lemma {:induction false} AfterSawAll(b: Bsf, xs: seq<Output>)
    requires !b.Closed() && !HasFault(xs)
    ensures After(b, xs, true) == b.(history := b.history + Packets(xs), eofs := 1)
    decreases |xs|
  {
    if |xs| == 0 {
      assert b.history + [] == b.history;
    } else {
      assert xs[0].Data?;
      assert !HasFault(xs[1..]) by {
        forall i | 0 <= i < |xs[1..]| ensures !xs[1..][i].Fault? { assert xs[1..][i] == xs[i + 1]; }
      }
      AfterSawAll(Absorb(b, xs[0]).0, xs[1..]);
      assert (b.history + [xs[0].packet]) + Packets(xs[1..]) == b.history + Packets(xs);
    }
  }

  /**
   The run theorem. Over any chain of open filters, any packets and the final end-of-file call, what
   leaves the chain is the composition of the filters; and if no filter faults, that is what the calls
   wrote, and every filter was sent its whole input in order and one end of file.
   */
  lemma {:induction false} RunIsComposition(fs: seq<Bsf>, pkts: seq<Packet>)
    requires forall i :: 0 <= i < |fs| ==> !fs[i].Closed()
    ensures Run(fs, pkts).out == Compose(fs, AsData(pkts), true)
    ensures !HasFault(Run(fs, pkts).out) ==> RunWritten(fs, pkts) == Packets(Compose(fs, AsData(pkts), true))
    ensures !HasFault(Run(fs, pkts).out) ==>
      forall k :: 0 <= k < |fs| ==>
        var stream := StageInput(fs, k, AsData(pkts), true);
        && !HasFault(stream)
        && Run(fs, pkts).chain[k] == fs[k].(history := fs[k].history + Packets(stream), eofs := 1)
  {
    RunIsOneFeed(fs, pkts);
    FeedIsComposition(fs, AsData(pkts), true);
    if !HasFault(Run(fs, pkts).out) {
      WrittenIsAllPackets(fs, pkts);
      forall k | 0 <= k < |fs|
        ensures
          var stream := StageInput(fs, k, AsData(pkts), true);
          && !HasFault(stream)
          && Run(fs, pkts).chain[k] == fs[k].(history := fs[k].history + Packets(stream), eofs := 1)
      {
        var stream := StageInput(fs, k, AsData(pkts), true);
        if HasFault(stream) { FaultsComeOut(fs, AsData(pkts), true, k); }
        AfterSawAll(fs[k], stream);
      }
    }
  }
}
