/**
 The player's packet queue and the decoder that reads it: `packet_queue_*` and
 `decoder_decode_frame` in fftools/ffplay.c. Every packet carries the serial number the queue had
 when it was put; a seek empties the queue and puts a flush packet, which raises the serial.
 The reader thread and the decoder thread take turns in any order, one atomic step at a time.
 */
module PacketQueue {
  import opened Common

  /** The flush packet is recognised by the address of its data; a null packet is an ordinary one of size 0. */
  datatype Packet = FlushPacket | MediaPacket(id: int, size: nat, duration: nat)
  {
    function Size(): nat { if MediaPacket? then size else 0 }

    function Duration(): nat { if MediaPacket? then duration else 0 }
  }

  datatype Node = Node(pkt: Packet, serial: int)

  /** sizeof(MyAVPacketList) */
  const NODE_SIZE: nat := 112

  // ---------------------------------------------------------------- the queue

  datatype QState = QState(pkts: seq<Node>, serial: int, abort: bool)

  /** packet_queue_put: after an abort nothing is put, and a flush packet does not raise the serial. */
  function PutStep(q: QState, pkt: Packet): QState
  {
    if q.abort then q
    else
      var serial := if pkt.FlushPacket? then q.serial + 1 else q.serial;
      q.(serial := serial, pkts := q.pkts + [Node(pkt, serial)])
  }

  function FlushStep(q: QState): QState { q.(pkts := []) }

  function AbortStep(q: QState): QState { q.(abort := true) }

  function StartStep(q: QState): QState { PutStep(q.(abort := false), FlushPacket) }

  function TotalSize(pkts: seq<Node>): int
  {
    if |pkts| == 0 then 0 else pkts[0].pkt.Size() + NODE_SIZE + TotalSize(pkts[1..])
  }

  function TotalDuration(pkts: seq<Node>): int
  {
    if |pkts| == 0 then 0 else pkts[0].pkt.Duration() + TotalDuration(pkts[1..])
  }

  lemma {:induction false} TotalsAppend(pkts: seq<Node>, n: Node)
    ensures TotalSize(pkts + [n]) == TotalSize(pkts) + NODE_SIZE + match n.pkt
      case MediaPacket(_, size, _) => size
      case FlushPacket => 0
    ensures TotalDuration(pkts + [n]) == TotalDuration(pkts) + match n.pkt
      case MediaPacket(_, _, duration) => duration
      case FlushPacket => 0
    decreases |pkts|
  {
    if |pkts| > 0 {
      assert (pkts + [n])[1..] == pkts[1..] + [n];
      TotalsAppend(pkts[1..], n);
    }
  }

  class Queue {
    var pkts: seq<Node>
    var nbPackets: int
    var size: int
    var duration: int
    var abortRequest: bool
    var serial: int

    /** The counters always describe the list. */
    ghost predicate Valid()
      reads this
    {
      nbPackets == |pkts| && size == TotalSize(pkts) && duration == TotalDuration(pkts)
    }

    function View(): QState
      reads this
    {
      QState(pkts, serial, abortRequest)
    }

    constructor ()
      ensures Valid() && View() == QState([], 0, true)
    {
      pkts, nbPackets, size, duration, abortRequest, serial := [], 0, 0, 0, true, 0;
    }

    method Put(pkt: Packet) returns (ok: bool)
      requires Valid()
      modifies this
      ensures Valid() && View() == PutStep(old(View()), pkt) && ok == !old(abortRequest)
      ensures ok ==> serial == old(serial) + (if pkt == FlushPacket then 1 else 0)
      ensures ok ==> pkts == old(pkts) + [Node(pkt, serial)]
      ensures !ok ==> pkts == old(pkts) && serial == old(serial)
    {
      if abortRequest { return false; }
      if pkt.FlushPacket? { serial := serial + 1; }
      var node := Node(pkt, serial);
      TotalsAppend(pkts, node);
      pkts := pkts + [node];
      nbPackets := nbPackets + 1;
      size := size + pkt.Size() + NODE_SIZE;
      duration := duration + pkt.Duration();
      return true;
    }

    method Flush()
      requires Valid()
      modifies this
      ensures Valid() && View() == FlushStep(old(View()))
      ensures pkts == [] && serial == old(serial) && abortRequest == old(abortRequest)
    {
      pkts, nbPackets, size, duration := [], 0, 0, 0;
    }

    method Abort()
      requires Valid()
      modifies this
      ensures Valid() && View() == AbortStep(old(View()))
      ensures abortRequest && pkts == old(pkts) && serial == old(serial)
    {
      abortRequest := true;
    }

    method Start()
      requires Valid()
      modifies this
      ensures Valid() && View() == StartStep(old(View()))
      ensures !abortRequest && serial == old(serial) + 1 && pkts == old(pkts) + [Node(FlushPacket, serial)]
    {
      abortRequest := false;
      var _ := Put(FlushPacket);
    }

    /** One round of packet_queue_get: None with `aborted` false means that the caller would wait. */
    method Get() returns (got: Option<Node>, aborted: bool)
      requires Valid()
      modifies this
      ensures Valid() && aborted == old(abortRequest)
      ensures got.Some? <==> !aborted && |old(pkts)| > 0
      ensures got.Some? ==> old(pkts) == [got.value] + pkts && View() == old(View()).(pkts := pkts)
      ensures got.None? ==> View() == old(View())
    {
      if abortRequest { return None, true; }
      if |pkts| == 0 { return None, false; }
      var node := pkts[0];
      pkts := pkts[1..];
      nbPackets := nbPackets - 1;
      size := size - (node.pkt.Size() + NODE_SIZE);
      duration := duration - node.pkt.Duration();
      return Some(node), false;
    }
  }

  // ---------------------------------------------------------------- the two threads

  /** Where the decoder stands inside decoder_decode_frame. */
  datatype Pc = CheckSerial | Receive | Fetch | CheckFetched | Dispatch | Stopped

  datatype CodecEvent = Input(serial: int) | CodecFlush

  /**
   The decoder. `hand` is the local packet and `pending` the one refused by the codec; `codec` is what
   the codec has been sent since its last flush, and `history` everything that happened to it.
   */
  datatype Decoder = Decoder(
    pktSerial: int,
    finished: int,
    pc: Pc,
    hand: Option<Node>,
    pending: Option<Node>,
    codec: seq<Node>,
    history: seq<CodecEvent>)

  /** `seeking`: the reader has emptied the queue and not yet put the flush packet. */
  datatype System = System(q: QState, seeking: bool, d: Decoder)

  /** What the codec answers when asked for a frame. */
  datatype Reply = Frame | Again | EndOfStream | Failure

  datatype Action =
    | Put(id: int, size: nat, duration: nat)
    | SeekFlush
    | SeekPut
    | Abort
    | DecCheck
    | DecReceive(reply: Reply)
    | DecFetch
    | DecCheckFetched
    | DecDispatch(accepted: bool)

  function Start(): System
  {
    System(StartStep(QState([], 0, true)), false, Decoder(-1, 0, CheckSerial, None, None, [], []))
  }

  predicate Enabled(s: System, a: Action)
  {
    match a
    case Put(_, _, _) => !s.seeking
    case SeekFlush => !s.seeking
    case SeekPut => s.seeking
    case Abort => true
    case DecCheck => s.d.pc.CheckSerial?
    case DecReceive(_) => s.d.pc.Receive?
    case DecFetch => s.d.pc.Fetch? && (s.d.pending.Some? || s.q.abort || |s.q.pkts| > 0)
    case DecCheckFetched => s.d.pc.CheckFetched? && s.d.hand.Some?
    case DecDispatch(_) => s.d.pc.Dispatch? && s.d.hand.Some?
  }

  function FlushCodec(d: Decoder): Decoder
  {
    d.(codec := [], history := d.history + [CodecFlush])
  }

  function Apply(s: System, a: Action): System
    requires Enabled(s, a)
  {
    var q, d := s.q, s.d;
    match a
    case Put(id, size, duration) => s.(q := PutStep(q, MediaPacket(id, size, duration)))
    case SeekFlush => s.(q := FlushStep(q), seeking := true)
    case SeekPut => s.(q := PutStep(q, FlushPacket), seeking := false)
    case Abort => s.(q := AbortStep(q))
    case DecCheck => s.(d := d.(pc := if q.serial == d.pktSerial then Receive else Fetch))
    case DecReceive(reply) =>
      if q.abort then s.(d := d.(pc := Stopped))
      else (
        match reply
        case Frame => s.(d := d.(pc := CheckSerial))
        case Again => s.(d := d.(pc := Fetch))
        case EndOfStream => s.(d := FlushCodec(d).(finished := d.pktSerial, pc := CheckSerial))
        case Failure => s
      )
    case DecFetch =>
      if d.pending.Some? then s.(d := d.(hand := d.pending, pending := None, pc := CheckFetched))
      else if q.abort then s.(d := d.(pc := Stopped))
      else
        var n := q.pkts[0];
        s.(q := q.(pkts := q.pkts[1..]), d := d.(hand := Some(n), pktSerial := n.serial, pc := CheckFetched))
    case DecCheckFetched =>
      s.(d := d.(pc := if q.serial != d.pktSerial then Fetch else Dispatch))
    case DecDispatch(accepted) =>
      var n := d.hand.value;
      if n.pkt.FlushPacket? then s.(d := FlushCodec(d).(finished := 0, hand := None, pc := CheckSerial))
      else if accepted then
        s.(d := d.(codec := d.codec + [n], history := d.history + [Input(n.serial)], hand := None, pc := CheckSerial))
      else s.(d := d.(pending := Some(n), hand := None, pc := CheckSerial))
  }

  ghost predicate Follows(s: System, a: Action, s': System) { Enabled(s, a) && s' == Apply(s, a) }

  /** Any interleaving of the two threads. */
  ghost predicate IsRun(actions: seq<Action>, states: seq<System>)
  {
    && |states| == |actions| + 1
    && states[0] == Start()
    && forall n :: 0 <= n < |actions| ==> Follows(states[n], actions[n], states[n + 1])
  }

  // ---------------------------------------------------------------- the invariant

  /** The serial in force before node `i`: the one before it, or the decoder's at the front. */
  function Before(q: QState, pktSerial: int, i: nat): int
    requires i <= |q.pkts|
  {
    if i == 0 then pktSerial else q.pkts[i - 1].serial
  }

  /** Serials never decrease along the queue, and rise only at a flush packet. */
  ghost predicate QueueOrdered(q: QState, pktSerial: int)
  {
    && pktSerial <= q.serial
    && (forall i :: 0 <= i < |q.pkts| ==> pktSerial <= q.pkts[i].serial <= q.serial)
    && (forall i, j :: 0 <= i < j < |q.pkts| ==> q.pkts[i].serial <= q.pkts[j].serial)
    && (forall i :: 0 <= i < |q.pkts| && !q.pkts[i].pkt.FlushPacket? ==>
          q.pkts[i].serial == Before(q, pktSerial, i))
  }

  /** A codec flush lies between any two inputs of different serials; `epoch` is the serial since the last one. */
  ghost predicate Separated(history: seq<CodecEvent>)
  {
    forall i, j :: 0 <= i < j < |history| && Differ(history[i], history[j]) ==>
      exists k :: i < k < j && history[k].CodecFlush?
  }

  predicate Differ(a: CodecEvent, b: CodecEvent) { a.Input? && b.Input? && a.serial != b.serial }

  ghost predicate InEpoch(d: Decoder, epoch: int)
  {
    && Separated(d.history)
    && (forall i :: 0 <= i < |d.codec| ==> d.codec[i].serial == epoch)
    && (forall i :: 0 <= i < |d.history| && d.history[i].Input? && d.history[i].serial != epoch ==>
          exists k :: i < k < |d.history| && d.history[k].CodecFlush?)
  }

  /** The decoder holds a flush packet that it has fetched but not yet acted upon. */
  predicate FlushInHand(d: Decoder)
  {
    (d.pc.CheckFetched? || d.pc.Dispatch?) && d.hand.Some? && d.hand.value.pkt.FlushPacket?
  }

  ghost predicate Inv(s: System, epoch: int)
  {
    var q, d := s.q, s.d;
    && q.serial >= 1
    && QueueOrdered(q, d.pktSerial)
    && (!q.abort && !s.seeking ==> Before(q, d.pktSerial, |q.pkts|) == q.serial)
    && InEpoch(d, epoch)
    && (d.pktSerial == epoch || d.pktSerial < q.serial || FlushInHand(d))
    && (d.pc.Receive? ==> d.pktSerial == epoch)
    && (d.pc.CheckFetched? || d.pc.Dispatch? ==> d.hand.Some? && d.hand.value.serial == d.pktSerial)
    && (d.pc.Dispatch? && !FlushInHand(d) ==> d.pktSerial == epoch)
    && (d.pending.Some? ==> d.pending.value.serial == d.pktSerial && !d.pending.value.pkt.FlushPacket?)
  }

  /** The serial since the last codec flush, after action `a`: dispatching a flush packet opens a new one. */
  function NextEpoch(s: System, a: Action, epoch: int): int
  {
    if a.DecDispatch? && FlushInHand(s.d) then s.d.pktSerial else epoch
  }

  lemma PutKeepsOrder(q: QState, pktSerial: int, pkt: Packet)
    requires QueueOrdered(q, pktSerial) && !q.abort
    requires pkt.FlushPacket? || Before(q, pktSerial, |q.pkts|) == q.serial
    ensures QueueOrdered(PutStep(q, pkt), pktSerial)
    ensures Before(PutStep(q, pkt), pktSerial, |q.pkts| + 1) == PutStep(q, pkt).serial >= q.serial
  {
    var q' := PutStep(q, pkt);
    forall i | 0 <= i < |q'.pkts| && !q'.pkts[i].pkt.FlushPacket?
      ensures q'.pkts[i].serial == Before(q', pktSerial, i)
    {
      assert Before(q', pktSerial, i) == Before(q, pktSerial, i);
    }
  }

  lemma ReaderKeepsInv(s: System, a: Action, epoch: int)
    requires Inv(s, epoch) && Enabled(s, a) && (a.Put? || a.SeekFlush? || a.SeekPut? || a.Abort?)
    ensures Inv(Apply(s, a), epoch)
  {
    if !s.q.abort {
      match a
      case Put(id, size, duration) => PutKeepsOrder(s.q, s.d.pktSerial, MediaPacket(id, size, duration));
      case SeekPut => PutKeepsOrder(s.q, s.d.pktSerial, FlushPacket);
      case _ =>
    }
  }

  lemma FlushKeepsEpoch(d: Decoder, epoch: int, epoch': int)
    requires InEpoch(d, epoch)
    ensures InEpoch(FlushCodec(d), epoch')
  {
    var h := FlushCodec(d).history;
    var n := |d.history|;
    assert h[n].CodecFlush?;
    forall i, j | 0 <= i < j < |h| && Differ(h[i], h[j])
      ensures exists k :: i < k < j && h[k].CodecFlush?
    {
      assert d.history[i] == h[i] && d.history[j] == h[j];
      var k :| i < k < j && d.history[k].CodecFlush?;
      assert h[k].CodecFlush?;
    }
  }

  lemma InputKeepsEpoch(d: Decoder, n: Node)
    requires InEpoch(d, n.serial)
    ensures InEpoch(d.(codec := d.codec + [n], history := d.history + [Input(n.serial)]), n.serial)
  {
    var h := d.history + [Input(n.serial)];
    forall i, j | 0 <= i < j < |h| && Differ(h[i], h[j])
      ensures exists k :: i < k < j && h[k].CodecFlush?
    {
      assert d.history[i] == h[i];
      var k :| i < k < j && k < |d.history| && d.history[k].CodecFlush?;
      assert h[k].CodecFlush?;
    }
    forall i | 0 <= i < |h| && h[i].Input? && h[i].serial != n.serial
      ensures exists k :: i < k < |h| && h[k].CodecFlush?
    {
      assert d.history[i] == h[i];
      var k :| i < k < |d.history| && d.history[k].CodecFlush?;
      assert h[k].CodecFlush?;
    }
  }

  lemma ReceiveKeepsInv(s: System, reply: Reply, epoch: int)
    requires Inv(s, epoch) && s.d.pc.Receive?
    ensures Inv(Apply(s, DecReceive(reply)), epoch)
  {
    FlushKeepsEpoch(s.d, epoch, epoch);
  }

  lemma DispatchKeepsInv(s: System, accepted: bool, epoch: int)
    requires Inv(s, epoch) && s.d.pc.Dispatch?
    ensures Inv(Apply(s, DecDispatch(accepted)), NextEpoch(s, DecDispatch(accepted), epoch))
  {
    if FlushInHand(s.d) {
      FlushKeepsEpoch(s.d, epoch, s.d.pktSerial);
    } else {
      InputKeepsEpoch(s.d, s.d.hand.value);
    }
  }

  lemma FetchKeepsInv(s: System, epoch: int)
    requires Inv(s, epoch) && Enabled(s, DecFetch)
    ensures Inv(Apply(s, DecFetch), epoch)
  {
    if s.d.pending.None? && !s.q.abort {
      FetchKeepsOrder(s.q, s.d.pktSerial);
    }
  }

  lemma DecoderKeepsInv(s: System, a: Action, epoch: int)
    requires Inv(s, epoch) && Enabled(s, a) && !(a.Put? || a.SeekFlush? || a.SeekPut? || a.Abort?)
    ensures Inv(Apply(s, a), NextEpoch(s, a, epoch))
  {
    match a
    case DecReceive(reply) => ReceiveKeepsInv(s, reply, epoch);
    case DecDispatch(accepted) => DispatchKeepsInv(s, accepted, epoch);
    case DecFetch => FetchKeepsInv(s, epoch);
    case _ =>
  }

  lemma FetchKeepsOrder(q: QState, pktSerial: int)
    requires |q.pkts| > 0 && QueueOrdered(q, pktSerial)
    ensures
      var q' := q.(pkts := q.pkts[1..]);
      && QueueOrdered(q', q.pkts[0].serial)
      && Before(q', q.pkts[0].serial, |q'.pkts|) == Before(q, pktSerial, |q.pkts|)
  {
    var q' := q.(pkts := q.pkts[1..]);
    forall i | 0 <= i < |q'.pkts| && !q'.pkts[i].pkt.FlushPacket?
      ensures q'.pkts[i].serial == Before(q', q.pkts[0].serial, i)
    {
      assert q'.pkts[i] == q.pkts[i + 1];
    }
  }

  /** The epoch after `n` actions. */
  function Epoch(actions: seq<Action>, states: seq<System>, n: nat): int
    requires n <= |actions| && |states| == |actions| + 1
  {
    if n == 0 then -1 else NextEpoch(states[n - 1], actions[n - 1], Epoch(actions, states, n - 1))
  }

  lemma {:induction false} InvHolds(actions: seq<Action>, states: seq<System>, n: nat)
    requires IsRun(actions, states) && n <= |actions|
    ensures Inv(states[n], Epoch(actions, states, n))
  {
    if n > 0 {
      assert Follows(states[n - 1], actions[n - 1], states[n]);
      InvHolds(actions, states, n - 1);
      var a := actions[n - 1];
      if a.Put? || a.SeekFlush? || a.SeekPut? || a.Abort? {
        ReaderKeepsInv(states[n - 1], a, Epoch(actions, states, n - 1));
      } else {
        DecoderKeepsInv(states[n - 1], a, Epoch(actions, states, n - 1));
      }
    }
  }

  // ---------------------------------------------------------------- what a seek may rely on

  /**
   In every interleaving: queued serials never decrease and never pass the queue's own; whenever the
   decoder asks for a frame, everything in the codec carries the serial of the packet last fetched;
   and two codec inputs of different serials always have a codec flush between them.
   */
  lemma SeekSafety(actions: seq<Action>, states: seq<System>, n: nat)
    requires IsRun(actions, states) && n <= |actions|
    ensures
      var q := states[n].q;
      && (forall i, j :: 0 <= i < j < |q.pkts| ==> q.pkts[i].serial <= q.pkts[j].serial)
      && (forall i :: 0 <= i < |q.pkts| ==> states[n].d.pktSerial <= q.pkts[i].serial <= q.serial)
    ensures
      var d := states[n].d;
      && (d.pc.Receive? ==> forall i :: 0 <= i < |d.codec| ==> d.codec[i].serial == d.pktSerial)
      && Separated(d.history)
  {
    InvHolds(actions, states, n);
  }

  /** A packet is sent to the codec only into its own serial: all that is in the codec already shares it. */
  lemma InputsJoinTheirOwn(actions: seq<Action>, states: seq<System>, n: nat)
    requires IsRun(actions, states) && n < |actions|
    requires actions[n].DecDispatch? && states[n].d.hand.Some? && states[n].d.hand.value.pkt.MediaPacket?
    ensures forall i :: 0 <= i < |states[n].d.codec| ==>
      states[n].d.codec[i].serial == states[n].d.hand.value.serial
  {
    assert Follows(states[n], actions[n], states[n + 1]);
    InvHolds(actions, states, n);
  }

  // ---------------------------------------------------------------- what a seek does, by the history of the run

  /** Action `k` is a seek that is not ignored after an abort. */
  predicate Seeks(actions: seq<Action>, states: seq<System>, k: nat)
    requires k < |actions| && k < |states|
  {
    actions[k].SeekPut? && !states[k].q.abort
  }

  function SeekCount(actions: seq<Action>, states: seq<System>, n: nat): nat
    requires n <= |actions| && n <= |states|
  {
    if n == 0 then 0 else SeekCount(actions, states, n - 1) + if Seeks(actions, states, n - 1) then 1 else 0
  }

  /** The serial of the queue counts its flush packets: the one it started with, and one for each seek. */
  lemma {:induction false} SerialCountsSeeks(actions: seq<Action>, states: seq<System>, n: nat)
    requires IsRun(actions, states) && n <= |actions|
    ensures states[n].q.serial == 1 + SeekCount(actions, states, n)
  {
    if n > 0 {
      assert Follows(states[n - 1], actions[n - 1], states[n]);
      SerialCountsSeeks(actions, states, n - 1);
    }
  }

  lemma {:induction false} SeekCountGrows(actions: seq<Action>, states: seq<System>, m: nat, n: nat)
    requires m <= n <= |actions| && n <= |states|
    ensures SeekCount(actions, states, m) <= SeekCount(actions, states, n)
    ensures SeekCount(actions, states, m) == SeekCount(actions, states, n) ==>
      forall k :: m <= k < n ==> !Seeks(actions, states, k)
    decreases n
  {
    if m < n { SeekCountGrows(actions, states, m, n - 1); }
  }

  /** The node was put into the queue by action `t`: it is the last one in it after that. */
  predicate PutBy(actions: seq<Action>, states: seq<System>, t: nat, node: Node)
    requires t < |actions| && t + 1 < |states|
  {
    var pkts := states[t + 1].q.pkts;
    && !states[t].q.abort && |pkts| > 0 && pkts[|pkts| - 1] == node
    && match actions[t]
       case Put(id, size, duration) => node.pkt == MediaPacket(id, size, duration)
       case SeekPut => node.pkt == FlushPacket
       case _ => false
  }

  /** The node was there from the start, or was put by one of the first `n` actions. */
  ghost predicate WasPut(actions: seq<Action>, states: seq<System>, n: nat, node: Node)
    requires n <= |actions| && |states| == |actions| + 1
  {
    node == Node(FlushPacket, 1) || exists t :: 0 <= t < n && PutBy(actions, states, t, node)
  }

  /** The node is in the queue, in hand, pending or in the codec. */
  predicate Around(s: System, node: Node)
  {
    node in s.q.pkts || s.d.hand == Some(node) || s.d.pending == Some(node) || node in s.d.codec
  }

  /** An action brings no nodes around but the one it puts, and none but media packets into the codec. */
  lemma WhereFrom(s: System, a: Action, node: Node)
    requires Enabled(s, a) && Around(Apply(s, a), node)
    ensures
      var pkts := Apply(s, a).q.pkts;
      || Around(s, node)
      || ((a.Put? || a.SeekPut?) && !s.q.abort && |pkts| > 0 && node == pkts[|pkts| - 1])
    ensures node in Apply(s, a).d.codec ==> node in s.d.codec || node.pkt.MediaPacket?
  {
  }

  lemma StillPut(actions: seq<Action>, states: seq<System>, n: nat, node: Node)
    requires n < |actions| && |states| == |actions| + 1 && WasPut(actions, states, n, node)
    ensures WasPut(actions, states, n + 1, node)
  {
    if node != Node(FlushPacket, 1) {
      var t :| 0 <= t < n && PutBy(actions, states, t, node);
      assert PutBy(actions, states, t, node);
    }
  }

  /** Everything around was put; in the codec there are media packets. */
  lemma {:induction false} PacketsWerePut(actions: seq<Action>, states: seq<System>, n: nat, node: Node)
    requires IsRun(actions, states) && n <= |actions| && Around(states[n], node)
    ensures WasPut(actions, states, n, node) && (node in states[n].d.codec ==> node.pkt.MediaPacket?)
  {
    if n > 0 {
      var s, a := states[n - 1], actions[n - 1];
      assert Follows(s, a, states[n]);
      WhereFrom(s, a, node);
      if Around(s, node) {
        PacketsWerePut(actions, states, n - 1, node);
        StillPut(actions, states, n - 1, node);
      } else {
        assert PutBy(actions, states, n - 1, node);
      }
    }
  }

  lemma PutTells(actions: seq<Action>, states: seq<System>, t: nat, node: Node)
    requires IsRun(actions, states) && t < |actions| && PutBy(actions, states, t, node)
    ensures node.serial == states[t + 1].q.serial == 1 + SeekCount(actions, states, t + 1)
  {
    assert Follows(states[t], actions[t], states[t + 1]);
    SerialCountsSeeks(actions, states, t + 1);
  }

  /** No serial around is above the queue's own. */
  lemma SerialsAreBounded(actions: seq<Action>, states: seq<System>, n: nat, node: Node)
    requires IsRun(actions, states) && n <= |actions| && WasPut(actions, states, n, node)
    ensures 1 <= node.serial <= states[n].q.serial
  {
    SerialCountsSeeks(actions, states, n);
    if node != Node(FlushPacket, 1) {
      var t :| 0 <= t < n && PutBy(actions, states, t, node);
      PutTells(actions, states, t, node);
      SeekCountGrows(actions, states, t + 1, n);
    }
  }

  /** So a seek raises the serial above that of every packet in the queue, in hand, pending or in the codec. */
  lemma SeekRaisesSerial(actions: seq<Action>, states: seq<System>, n: nat, node: Node)
    requires IsRun(actions, states) && n < |actions| && Seeks(actions, states, n)
    requires Around(states[n], node)
    ensures node.serial < states[n + 1].q.serial
    ensures states[n + 1].q.pkts == states[n].q.pkts + [Node(FlushPacket, states[n + 1].q.serial)]
  {
    assert Follows(states[n], actions[n], states[n + 1]);
    PacketsWerePut(actions, states, n, node);
    SerialsAreBounded(actions, states, n, node);
  }

  ghost predicate NoSeekAfter(actions: seq<Action>, states: seq<System>, t: nat, n: nat)
    requires n <= |actions| && n <= |states|
  {
    forall k :: t < k < n ==> !Seeks(actions, states, k)
  }

  /**
   Whenever the decoder finds its serial unchanged and goes on to ask for a frame, everything in the codec was
   put after the last seek: frames from before it can no longer come out.
   */
  lemma NothingFromBeforeTheSeek(actions: seq<Action>, states: seq<System>, n: nat, node: Node)
    requires IsRun(actions, states) && n < |actions| && actions[n].DecCheck? && states[n + 1].d.pc.Receive?
    requires node in states[n + 1].d.codec
    ensures exists t :: 0 <= t < n && PutBy(actions, states, t, node) && actions[t].Put? && NoSeekAfter(actions, states, t, n)
  {
    assert Follows(states[n], actions[n], states[n + 1]);
    InvHolds(actions, states, n + 1);
    PacketsWerePut(actions, states, n, node);
    SerialCountsSeeks(actions, states, n);
    var t :| 0 <= t < n && PutBy(actions, states, t, node);
    PutTells(actions, states, t, node);
    SeekCountGrows(actions, states, t + 1, n);
    assert actions[t].Put?;
  }

  /** A packet that was put stays where it is behind, until the reader empties the queue or the decoder takes it. */
  lemma PacketsWaitInOrder(s: System, a: Action)
    requires Enabled(s, a)
    ensures
      var s' := Apply(s, a);
      match a
      case Put(id, size, duration) =>
        s'.q.pkts == s.q.pkts + if s.q.abort then [] else [Node(MediaPacket(id, size, duration), s.q.serial)]
      case SeekFlush => s'.q.pkts == []
      case SeekPut => s'.q.pkts == s.q.pkts + if s.q.abort then [] else [Node(FlushPacket, s.q.serial + 1)]
      case DecFetch => s.d.pending.None? && !s.q.abort ==> s.q.pkts == [s'.d.hand.value] + s'.q.pkts
      case _ => s'.q.pkts == s.q.pkts
  {
  }

  // ---------------------------------------------------------------- every packet is handled once, in order

  /** The nodes put so far, without those that a seek has thrown out of the queue. */
  function PutSoFar(actions: seq<Action>, states: seq<System>, n: nat): seq<Node>
    requires n <= |actions| && |states| == |actions| + 1
  {
    if n == 0 then [Node(FlushPacket, 1)]
    else
      var before, q := PutSoFar(actions, states, n - 1), states[n - 1].q;
      match actions[n - 1]
      case Put(id, size, duration) =>
        if q.abort then before else before + [Node(MediaPacket(id, size, duration), 1 + SeekCount(actions, states, n))]
      case SeekPut =>
        if q.abort then before else before + [Node(FlushPacket, 1 + SeekCount(actions, states, n))]
      case SeekFlush => if |q.pkts| <= |before| then before[..|before| - |q.pkts|] else []
      case _ => before
  }

  /** The nodes the decoder is done with: sent to the codec, flushed it, or skipped as older than the last seek. */
  function Handled(actions: seq<Action>, states: seq<System>, n: nat): seq<Node>
    requires n <= |actions| && |states| == |actions| + 1
  {
    if n == 0 then []
    else
      var before, d := Handled(actions, states, n - 1), states[n - 1].d;
      if d.hand.None? then before
      else
        match actions[n - 1]
        case DecCheckFetched =>
          if d.hand.value.serial == 1 + SeekCount(actions, states, n - 1) then before else before + [d.hand.value]
        case DecDispatch(accepted) =>
          if accepted || d.hand.value.pkt == FlushPacket then before + [d.hand.value] else before
        case _ => before
  }

  /** The node the decoder is busy with: the one in hand, or else the one the codec has refused. */
  function Busy(d: Decoder): seq<Node>
  {
    if d.pc.CheckFetched? || d.pc.Dispatch? then (if d.hand.Some? then [d.hand.value] else [])
    else if d.pending.Some? then [d.pending.value] else []
  }

  ghost predicate InLine(actions: seq<Action>, states: seq<System>, n: nat)
    requires n <= |actions| && |states| == |actions| + 1
  {
    var s := states[n];
    && Handled(actions, states, n) + Busy(s.d) + s.q.pkts == PutSoFar(actions, states, n)
    && (s.d.pc.CheckFetched? || s.d.pc.Dispatch? ==> s.d.hand.Some? && s.d.pending.None?)
  }

  /**
   In every interleaving the nodes that the decoder is done with, the one it is busy with and those in the queue
   are all that were put, in this order: none is lost, none is handled twice, and a refused one stays in line.
   */
  lemma {:induction false} PacketsStayInLine(actions: seq<Action>, states: seq<System>, n: nat)
    requires IsRun(actions, states) && n <= |actions|
    ensures InLine(actions, states, n)
  {
    if n > 0 {
      PacketsStayInLine(actions, states, n - 1);
      InvHolds(actions, states, n - 1);
      SerialCountsSeeks(actions, states, n - 1);
      SerialCountsSeeks(actions, states, n);
      OneMoreInLine(actions, states, n - 1);
    }
  }

  lemma OneMoreInLine(actions: seq<Action>, states: seq<System>, n: nat)
    requires n < |actions| && |states| == |actions| + 1 && Follows(states[n], actions[n], states[n + 1])
    requires states[n].q.serial == 1 + SeekCount(actions, states, n)
    requires states[n + 1].q.serial == 1 + SeekCount(actions, states, n + 1)
    requires states[n].d.hand.Some? && (states[n].d.pc.CheckFetched? || states[n].d.pc.Dispatch?) ==>
      states[n].d.hand.value.serial == states[n].d.pktSerial
    ensures InLine(actions, states, n) ==> InLine(actions, states, n + 1)
  {
    match actions[n]
    case Put(_, _, _) => PutInLine(actions, states, n);
    case SeekPut => PutInLine(actions, states, n);
    case SeekFlush => EmptyInLine(actions, states, n);
    case DecFetch => FetchInLine(actions, states, n);
    case DecCheckFetched => HandleInLine(actions, states, n);
    case DecDispatch(_) => HandleInLine(actions, states, n);
    case _ => OthersInLine(actions, states, n);
  }

  lemma PutInLine(actions: seq<Action>, states: seq<System>, n: nat)
    requires n < |actions| && |states| == |actions| + 1 && Follows(states[n], actions[n], states[n + 1])
    requires states[n].q.serial == 1 + SeekCount(actions, states, n)
    requires states[n + 1].q.serial == 1 + SeekCount(actions, states, n + 1)
    requires actions[n].Put? || actions[n].SeekPut?
    ensures InLine(actions, states, n) ==> InLine(actions, states, n + 1)
  {
    var s, s' := states[n], states[n + 1];
    if !s.q.abort {
      Regroup(Handled(actions, states, n) + Busy(s.d), s.q.pkts, [s'.q.pkts[|s.q.pkts|]]);
    }
  }

  lemma EmptyInLine(actions: seq<Action>, states: seq<System>, n: nat)
    requires n < |actions| && |states| == |actions| + 1 && Follows(states[n], actions[n], states[n + 1])
    requires states[n].q.serial == 1 + SeekCount(actions, states, n)
    requires states[n + 1].q.serial == 1 + SeekCount(actions, states, n + 1)
    requires actions[n].SeekFlush?
    ensures InLine(actions, states, n) ==> InLine(actions, states, n + 1)
  {
    if InLine(actions, states, n) {
      var s, done := states[n], Handled(actions, states, n) + Busy(states[n].d);
      WithoutEnd(done, s.q.pkts);
      assert done + [] == done;
    }
  }

  lemma WithoutEnd(a: seq<Node>, b: seq<Node>)
    ensures (a + b)[..|a + b| - |b|] == a
  {
  }

  lemma FetchInLine(actions: seq<Action>, states: seq<System>, n: nat)
    requires n < |actions| && |states| == |actions| + 1 && Follows(states[n], actions[n], states[n + 1])
    requires states[n].q.serial == 1 + SeekCount(actions, states, n)
    requires states[n + 1].q.serial == 1 + SeekCount(actions, states, n + 1)
    requires actions[n].DecFetch?
    ensures InLine(actions, states, n) ==> InLine(actions, states, n + 1)
  {
    var s, done := states[n], Handled(actions, states, n);
    if s.d.pending.None? && !s.q.abort {
      assert done + [] == done && s.q.pkts == [s.q.pkts[0]] + s.q.pkts[1..];
      Regroup(done, [s.q.pkts[0]], s.q.pkts[1..]);
    }
  }

  lemma HandleInLine(actions: seq<Action>, states: seq<System>, n: nat)
    requires n < |actions| && |states| == |actions| + 1 && Follows(states[n], actions[n], states[n + 1])
    requires states[n].q.serial == 1 + SeekCount(actions, states, n)
    requires states[n + 1].q.serial == 1 + SeekCount(actions, states, n + 1)
    requires actions[n].DecCheckFetched? || actions[n].DecDispatch?
    requires states[n].d.hand.Some? && states[n].d.hand.value.serial == states[n].d.pktSerial
    ensures InLine(actions, states, n) ==> InLine(actions, states, n + 1)
  {
    var done, node := Handled(actions, states, n), states[n].d.hand.value;
    assert done + [node] + [] == done + [node];
  }

  lemma OthersInLine(actions: seq<Action>, states: seq<System>, n: nat)
    requires n < |actions| && |states| == |actions| + 1 && Follows(states[n], actions[n], states[n + 1])
    requires states[n].q.serial == 1 + SeekCount(actions, states, n)
    requires states[n + 1].q.serial == 1 + SeekCount(actions, states, n + 1)
    requires actions[n].Abort? || actions[n].DecCheck? || actions[n].DecReceive?
    ensures InLine(actions, states, n) ==> InLine(actions, states, n + 1)
  {
  }

  lemma Regroup(a: seq<Node>, b: seq<Node>, c: seq<Node>)
    ensures a + (b + c) == a + b + c
  {
  }

  /** What the codec has been sent since its last flush, by the history of the run. */
  function SentSinceFlush(actions: seq<Action>, states: seq<System>, n: nat): seq<Node>
    requires n <= |actions| && |states| == |actions| + 1
  {
    if n == 0 then []
    else
      var before, d := SentSinceFlush(actions, states, n - 1), states[n - 1].d;
      match actions[n - 1]
      case DecDispatch(accepted) =>
        if d.hand.None? then before
        else if d.hand.value.pkt == FlushPacket then []
        else if accepted then before + [d.hand.value] else before
      case DecReceive(reply) => if reply == EndOfStream && !states[n - 1].q.abort then [] else before
      case _ => before
  }

  /** `finished` is the serial in which the codec came to its end, until a flush packet starts a new one. */
  function FinishedIn(actions: seq<Action>, states: seq<System>, n: nat): int
    requires n <= |actions| && |states| == |actions| + 1
  {
    if n == 0 then 0
    else
      var before, d := FinishedIn(actions, states, n - 1), states[n - 1].d;
      match actions[n - 1]
      case DecReceive(reply) => if reply == EndOfStream && !states[n - 1].q.abort then d.pktSerial else before
      case DecDispatch(_) => if d.hand.Some? && d.hand.value.pkt == FlushPacket then 0 else before
      case _ => before
  }

  lemma {:induction false} CodecHoldsWhatWasSent(actions: seq<Action>, states: seq<System>, n: nat)
    requires IsRun(actions, states) && n <= |actions|
    ensures states[n].d.codec == SentSinceFlush(actions, states, n)
    ensures states[n].d.finished == FinishedIn(actions, states, n)
  {
    if n > 0 {
      assert Follows(states[n - 1], actions[n - 1], states[n]);
      CodecHoldsWhatWasSent(actions, states, n - 1);
    }
  }

  // ---------------------------------------------------------------- when the threads wait

  /** The decoder waits exactly for a packet, and is stopped exactly by an abort that it sees. */
  lemma DecoderWaitsExactly(actions: seq<Action>, states: seq<System>, n: nat, reply: Reply, accepted: bool)
    requires IsRun(actions, states) && n <= |actions|
    ensures
      var s := states[n];
      var canMove := Enabled(s, DecCheck) || Enabled(s, DecReceive(reply)) || Enabled(s, DecFetch)
        || Enabled(s, DecCheckFetched) || Enabled(s, DecDispatch(accepted));
      var waits := s.d.pc.Fetch? && s.d.pending.None? && !s.q.abort && s.q.pkts == [];
      && (!canMove <==> s.d.pc.Stopped? || waits)
      && (s.d.pc.Receive? ==> (Apply(s, DecReceive(reply)).d.pc.Stopped? <==> s.q.abort))
      && (s.d.pc.Fetch? && Enabled(s, DecFetch) ==>
            (Apply(s, DecFetch).d.pc.Stopped? <==> s.q.abort && s.d.pending.None?))
  {
    InvHolds(actions, states, n);
  }

  /** The decoder goes on to ask for a frame exactly if no seek has happened since its packet was put. */
  lemma ChecksSerial(s: System)
    ensures s.d.pc.CheckSerial? ==>
      Apply(s, DecCheck).d.pc == if s.q.serial == s.d.pktSerial then Receive else Fetch
    ensures s.d.pc.Receive? && !s.q.abort ==>
      && Apply(s, DecReceive(Again)).d.pc.Fetch? && Apply(s, DecReceive(Failure)) == s
      && Apply(s, DecReceive(Frame)).d.pc.CheckSerial? && Apply(s, DecReceive(EndOfStream)).d.pc.CheckSerial?
    ensures s.d.pc.Dispatch? && s.d.hand.Some? ==> forall accepted :: Apply(s, DecDispatch(accepted)).d.pc.CheckSerial?
  {
  }

  /** The reader is never kept from putting, seeking or aborting, but in the middle of a seek. */
  lemma ReaderIsFree(s: System, id: int, size: nat, duration: nat)
    ensures Enabled(s, Abort) && Apply(s, Abort).q.abort
    ensures s.seeking <==> Enabled(s, SeekPut)
    ensures s.seeking <==> !Enabled(s, Put(id, size, duration))
    ensures s.seeking <==> !Enabled(s, SeekFlush)
    ensures s.seeking ==> !Apply(s, SeekPut).seeking
    ensures !s.seeking ==> Apply(s, SeekFlush).seeking && !Apply(s, Put(id, size, duration)).seeking
  {
  }

  /** At the start the flush packet alone is in the queue, with serial 1, and the decoder has none. */
  lemma StartsWithFlush()
    ensures
      var s := Start();
      && s.q == QState([Node(FlushPacket, 1)], 1, false) && !s.seeking
      && s.d == Decoder(-1, 0, CheckSerial, None, None, [], [])
  {
  }
}
