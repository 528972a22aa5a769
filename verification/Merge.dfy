/**
 Merging the video of one file with the audio of another: `ReadPacket` and the loop of `MergeTwoFile`
 in merge.cpp. The loop always reads next from the stream whose last timestamp is behind, and stops
 as soon as the stream it wants to read from has ended.
 */
module Merge {
  import opened Common
  import opened Timing

  const INT64_MIN: int := -0x8000_0000_0000_0000
  const INT64_MAX: int := 0x7fff_ffff_ffff_ffff

  datatype Packet = Packet(stream: int, id: int, pts: int, dts: int, duration: int)

  /** One side of the merge: the stream picked from its file, and where it goes. */
  datatype Side = Side(stream: int, tb: TimeBase, outStream: int, outTb: TimeBase)

  /** The packets of the picked stream. */
  function Select(side: Side, pkts: seq<Packet>): seq<Packet>
  {
    if |pkts| == 0 then []
    else if pkts[0].stream == side.stream then [pkts[0]] + Select(side, pkts[1..])
    else Select(side, pkts[1..])
  }

  /** av_rescale_q_rnd with AV_ROUND_PASS_MINMAX: the extreme values stand for themselves. */
  function RescalePass(ts: int, side: Side): int
  {
    if ts == INT64_MIN || ts == INT64_MAX then ts else Rescale(ts, side.tb, side.outTb)
  }

  /** The packet as it is written. */
  function Out(side: Side, p: Packet): Packet
  {
    Packet(side.outStream, p.id, RescalePass(p.pts, side), RescalePass(p.dts, side),
           Rescale(p.duration, side.tb, side.outTb))
  }

  // ---------------------------------------------------------------- specification

  /** What was written, what was read from each side, and the two last timestamps after every read. */
  datatype Merged = Merged(out: seq<Packet>, video: seq<Packet>, audio: seq<Packet>, marks: seq<(int, int)>)

  function MergeFrom(vs: Side, as_: Side, v: seq<Packet>, a: seq<Packet>, lastV: int, lastA: int): Merged
    decreases |v| + |a|
  {
    if CompareTs(lastV, vs.tb, lastA, as_.tb) <= 0 then
      if |v| == 0 then Merged([], [], [], [])
      else
        var m := MergeFrom(vs, as_, v[1..], a, v[0].pts, lastA);
        Merged([Out(vs, v[0])] + m.out, [v[0]] + m.video, m.audio, [(v[0].pts, lastA)] + m.marks)
    else
      if |a| == 0 then Merged([], [], [], [])
      else
        var m := MergeFrom(vs, as_, v, a[1..], lastV, a[0].pts);
        Merged([Out(as_, a[0])] + m.out, m.video, [a[0]] + m.audio, [(lastV, a[0].pts)] + m.marks)
  }

  // ---------------------------------------------------------------- the program

  /** A file being demuxed. */
  class MediaInfo {
    const packets: seq<Packet>
    const side: Side
    var pos: nat

    constructor (packets: seq<Packet>, side: Side)
      ensures this.packets == packets && this.side == side && pos == 0
    {
      this.packets, this.side, pos := packets, side, 0;
    }

    ghost predicate Valid()
      reads this
    {
      pos <= |packets|
    }

    /** The packets of the stream not read yet. */
    ghost function Rest(): seq<Packet>
      requires Valid()
      reads this
    {
      Select(side, packets[pos..])
    }

    /** Reads on until a packet of the stream turns up. */
    method ReadPacket() returns (pkt: Option<Packet>)
      requires Valid()
      modifies this
      ensures Valid()
      ensures pkt.None? ==> old(Rest()) == [] && Rest() == []
      ensures pkt.Some? ==> old(Rest()) == [pkt.value] + Rest()
    {
      while pos < |packets|
        invariant Valid() && Rest() == old(Rest())
      {
        var p := packets[pos];
        assert packets[pos..][1..] == packets[pos + 1..];
        pos := pos + 1;
        if p.stream == side.stream { return Some(p); }
      }
      return None;
    }
  }

  lemma Regroup(out: seq<Packet>, p: Packet, rest: seq<Packet>)
    ensures out + ([p] + rest) == (out + [p]) + rest
  {
  }

  method MergeTwoFile(audio: MediaInfo, video: MediaInfo) returns (out: seq<Packet>)
    requires audio != video && audio.Valid() && video.Valid()
    modifies audio, video
    ensures out == MergeFrom(video.side, audio.side, old(video.Rest()), old(audio.Rest()), 0, 0).out
  {
    var lastVideoPts, lastAudioPts := 0, 0;
    out := [];
    ghost var goal := MergeFrom(video.side, audio.side, video.Rest(), audio.Rest(), 0, 0).out;
    while true
      invariant audio.Valid() && video.Valid()
      invariant out + MergeFrom(video.side, audio.side, video.Rest(), audio.Rest(), lastVideoPts, lastAudioPts).out == goal
      decreases |video.Rest()| + |audio.Rest()|
    {
      if CompareTs(lastVideoPts, video.side.tb, lastAudioPts, audio.side.tb) <= 0 {
        ghost var rest := video.Rest();
        var pkt := video.ReadPacket();
        if pkt.None? { break; }
        assert rest[1..] == video.Rest();
        lastVideoPts := pkt.value.pts;
        Regroup(out, Out(video.side, pkt.value),
          MergeFrom(video.side, audio.side, video.Rest(), audio.Rest(), lastVideoPts, lastAudioPts).out);
        out := out + [Out(video.side, pkt.value)];
      } else {
        ghost var rest := audio.Rest();
        var pkt := audio.ReadPacket();
        if pkt.None? { break; }
        assert rest[1..] == audio.Rest();
        lastAudioPts := pkt.value.pts;
        Regroup(out, Out(audio.side, pkt.value),
          MergeFrom(video.side, audio.side, video.Rest(), audio.Rest(), lastVideoPts, lastAudioPts).out);
        out := out + [Out(audio.side, pkt.value)];
      }
    }
  }

  // ---------------------------------------------------------------- what is written

  /** `out` takes turns between `xs` and `ys`, each in its own order. */
  ghost predicate Interleaves(out: seq<Packet>, xs: seq<Packet>, ys: seq<Packet>)
    decreases |out|
  {
    if |out| == 0 then |xs| == 0 && |ys| == 0
    else
      || (|xs| > 0 && out[0] == xs[0] && Interleaves(out[1..], xs[1..], ys))
      || (|ys| > 0 && out[0] == ys[0] && Interleaves(out[1..], xs, ys[1..]))
  }

  function Outs(side: Side, pkts: seq<Packet>): seq<Packet>
  {
    seq(|pkts|, i requires 0 <= i < |pkts| => Out(side, pkts[i]))
  }

  /** The output is an interleaving of what was read from the two streams, which are prefixes of them. */
  lemma {:induction false} OutputInterleaves(vs: Side, as_: Side, v: seq<Packet>, a: seq<Packet>, lastV: int, lastA: int)
    ensures
      var m := MergeFrom(vs, as_, v, a, lastV, lastA);
      && m.video <= v && m.audio <= a
      && Interleaves(m.out, Outs(vs, m.video), Outs(as_, m.audio))
    decreases |v| + |a|
  {
    var m := MergeFrom(vs, as_, v, a, lastV, lastA);
    if CompareTs(lastV, vs.tb, lastA, as_.tb) <= 0 {
      if |v| > 0 {
        OutputInterleaves(vs, as_, v[1..], a, v[0].pts, lastA);
        assert m.out[1..] == MergeFrom(vs, as_, v[1..], a, v[0].pts, lastA).out;
        assert Outs(vs, m.video)[1..] == Outs(vs, m.video[1..]);
      }
    } else if |a| > 0 {
      OutputInterleaves(vs, as_, v, a[1..], lastV, a[0].pts);
      assert m.out[1..] == MergeFrom(vs, as_, v, a[1..], lastV, a[0].pts).out;
      assert Outs(as_, m.audio)[1..] == Outs(as_, m.audio[1..]);
    }
  }

  /** `q` stands for the timestamp `p` up to half a tick; an extreme value stands for itself. */
  predicate StandsFor(side: Side, p: int, q: int)
  {
    if p == INT64_MIN || p == INT64_MAX then q == p
    else -HalfTick(side.outTb) <= Seconds(q, side.outTb) - Seconds(p, side.tb) <= HalfTick(side.outTb)
  }

  /** The written packet is the read one, in the other stream and time base. */
  lemma OutStandsFor(side: Side, p: Packet)
    ensures
      var q := Out(side, p);
      && q.stream == side.outStream && q.id == p.id
      && StandsFor(side, p.pts, q.pts) && StandsFor(side, p.dts, q.dts)
      && -HalfTick(side.outTb) <= Seconds(q.duration, side.outTb) - Seconds(p.duration, side.tb) <= HalfTick(side.outTb)
  {
    RescaleIsNear(p.pts, side.tb, side.outTb);
    RescaleIsNear(p.dts, side.tb, side.outTb);
    RescaleIsNear(p.duration, side.tb, side.outTb);
  }

  /** Selecting takes the packets of the stream and leaves out the others, wherever the file is divided. */
  lemma {:induction false} SelectDivides(side: Side, a: seq<Packet>, b: seq<Packet>)
    ensures Select(side, a + b) == Select(side, a) + Select(side, b)
    ensures |a| == 1 ==> Select(side, a) == if a[0].stream == side.stream then a else []
    decreases |a|
  {
    if |a| > 0 {
      assert (a + b)[1..] == a[1..] + b;
      SelectDivides(side, a[1..], b);
    } else {
      assert a + b == b;
    }
  }

  /** Every packet written is the next one of the stream whose last timestamp is behind, the video's if both are equal. */
  lemma {:induction false} ReadsTheOneBehind(vs: Side, as_: Side, v: seq<Packet>, a: seq<Packet>, lastV: int, lastA: int, n: nat)
    requires n < |MergeFrom(vs, as_, v, a, lastV, lastA).out|
    ensures
      var m := MergeFrom(vs, as_, v, a, lastV, lastA);
      && |m.marks| == |m.out|
      && var (t, u) := if n == 0 then (lastV, lastA) else m.marks[n - 1];
      m.out[n].stream == if Seconds(t, vs.tb) <= Seconds(u, as_.tb) then vs.outStream else as_.outStream
    decreases |v| + |a|
  {
    var m := MergeFrom(vs, as_, v, a, lastV, lastA);
    CompareIsByTime(lastV, vs.tb, lastA, as_.tb);
    MarksPerRead(vs, as_, v, a, lastV, lastA);
    if n > 0 {
      if CompareTs(lastV, vs.tb, lastA, as_.tb) <= 0 {
        ReadsTheOneBehind(vs, as_, v[1..], a, v[0].pts, lastA, n - 1);
        assert m.out[n] == MergeFrom(vs, as_, v[1..], a, v[0].pts, lastA).out[n - 1];
      } else {
        ReadsTheOneBehind(vs, as_, v, a[1..], lastV, a[0].pts, n - 1);
        assert m.out[n] == MergeFrom(vs, as_, v, a[1..], lastV, a[0].pts).out[n - 1];
      }
    }
  }

  lemma {:induction false} MarksPerRead(vs: Side, as_: Side, v: seq<Packet>, a: seq<Packet>, lastV: int, lastA: int)
    ensures
      var m := MergeFrom(vs, as_, v, a, lastV, lastA);
      |m.marks| == |m.out|
    decreases |v| + |a|
  {
    if CompareTs(lastV, vs.tb, lastA, as_.tb) <= 0 {
      if |v| > 0 { MarksPerRead(vs, as_, v[1..], a, v[0].pts, lastA); }
    } else if |a| > 0 {
      MarksPerRead(vs, as_, v, a[1..], lastV, a[0].pts);
    }
  }

  /** Written timestamps keep the order of the read ones. */
  lemma OutKeepsOrder(side: Side, p: Packet, q: Packet)
    requires Plain(p.pts) && Plain(q.pts) && p.pts <= q.pts
    ensures Out(side, p).pts <= Out(side, q).pts
  {
    RescaleMonotone(p.pts, q.pts, side.tb, side.outTb);
  }

  // ---------------------------------------------------------------- balance

  /** Timestamps do not decrease, and no step, counting the one from `last`, is longer than `d` seconds. */
  ghost predicate Steady(pkts: seq<Packet>, tb: TimeBase, last: int, d: real)
    decreases |pkts|
  {
    |pkts| == 0 || (
      && Seconds(last, tb) <= Seconds(pkts[0].pts, tb) <= Seconds(last, tb) + d
      && Steady(pkts[1..], tb, pkts[0].pts, d))
  }

  ghost predicate Near(x: real, y: real, d: real) { -d <= x - y <= d }

  /** After every read the last timestamps of the two streams are within one step of each other. */
  lemma {:induction false} GapIsBounded(vs: Side, as_: Side, v: seq<Packet>, a: seq<Packet>, lastV: int, lastA: int, d: real)
    requires Steady(v, vs.tb, lastV, d) && Steady(a, as_.tb, lastA, d)
    requires Near(Seconds(lastV, vs.tb), Seconds(lastA, as_.tb), d)
    ensures
      forall m :: m in MergeFrom(vs, as_, v, a, lastV, lastA).marks ==>
        Near(Seconds(m.0, vs.tb), Seconds(m.1, as_.tb), d)
    decreases |v| + |a|
  {
    CompareIsByTime(lastV, vs.tb, lastA, as_.tb);
    if CompareTs(lastV, vs.tb, lastA, as_.tb) <= 0 {
      if |v| > 0 {
        assert Near(Seconds(v[0].pts, vs.tb), Seconds(lastA, as_.tb), d);
        GapIsBounded(vs, as_, v[1..], a, v[0].pts, lastA, d);
      }
    } else if |a| > 0 {
      assert Near(Seconds(lastV, vs.tb), Seconds(a[0].pts, as_.tb), d);
      GapIsBounded(vs, as_, v, a[1..], lastV, a[0].pts, d);
    }
  }

  lemma BalancedMerge(vs: Side, as_: Side, v: seq<Packet>, a: seq<Packet>, d: real)
    requires d >= 0.0 && Steady(v, vs.tb, 0, d) && Steady(a, as_.tb, 0, d)
    ensures
      forall m :: m in MergeFrom(vs, as_, v, a, 0, 0).marks ==>
        Near(Seconds(m.0, vs.tb), Seconds(m.1, as_.tb), d)
  {
    GapIsBounded(vs, as_, v, a, 0, 0, d);
  }

  /** A timestamp, not one of the two extreme values that stand for themselves. */
  predicate Plain(ts: int) { INT64_MIN < ts < INT64_MAX }

  ghost predicate AllPlain(pkts: seq<Packet>) { forall i :: 0 <= i < |pkts| ==> Plain(pkts[i].pts) }

  /** The pts of the last packet written to a stream, or `last` before the first. */
  function LastWritten(out: seq<Packet>, stream: int, last: int): int
    decreases |out|
  {
    if |out| == 0 then last
    else LastWritten(out[1..], stream, if out[0].stream == stream then out[0].pts else last)
  }

  /** The marks stand for the packets written last. */
  lemma {:induction false} MarksAreWritten(vs: Side, as_: Side, v: seq<Packet>, a: seq<Packet>, lastV: int, lastA: int, n: nat)
    requires vs.outStream != as_.outStream && n <= |MergeFrom(vs, as_, v, a, lastV, lastA).out|
    ensures
      var m := MergeFrom(vs, as_, v, a, lastV, lastA);
      && |m.marks| == |m.out|
      && var mark := if n == 0 then (lastV, lastA) else m.marks[n - 1];
      && LastWritten(m.out[..n], vs.outStream, RescalePass(lastV, vs)) == RescalePass(mark.0, vs)
      && LastWritten(m.out[..n], as_.outStream, RescalePass(lastA, as_)) == RescalePass(mark.1, as_)
    decreases |v| + |a|
  {
    var out := MergeFrom(vs, as_, v, a, lastV, lastA).out;
    if |out| > 0 {
      if n > 0 { assert out[..n][1..] == out[1..][..n - 1]; }
      if CompareTs(lastV, vs.tb, lastA, as_.tb) <= 0 {
        MarksAreWritten(vs, as_, v[1..], a, v[0].pts, lastA, if n > 0 then n - 1 else 0);
      } else {
        MarksAreWritten(vs, as_, v, a[1..], lastV, a[0].pts, if n > 0 then n - 1 else 0);
      }
    }
  }

  lemma {:induction false} MarksArePlain(vs: Side, as_: Side, v: seq<Packet>, a: seq<Packet>, lastV: int, lastA: int, k: nat)
    requires AllPlain(v) && AllPlain(a) && Plain(lastV) && Plain(lastA)
    requires k < |MergeFrom(vs, as_, v, a, lastV, lastA).marks|
    ensures
      var mark := MergeFrom(vs, as_, v, a, lastV, lastA).marks[k];
      Plain(mark.0) && Plain(mark.1)
    decreases |v| + |a|
  {
    if k > 0 {
      if CompareTs(lastV, vs.tb, lastA, as_.tb) <= 0 {
        MarksArePlain(vs, as_, v[1..], a, v[0].pts, lastA, k - 1);
      } else {
        MarksArePlain(vs, as_, v, a[1..], lastV, a[0].pts, k - 1);
      }
    }
  }

  lemma ZeroStays(side: Side)
    ensures RescalePass(0, side) == 0
  {
    var b, c := side.tb.num * side.outTb.den, side.outTb.num * side.tb.den;
    assert c > 0 && 0 * b == 0 && (c / 2) / c == 0;
  }

  /**
   So is what is written, up to half a tick of each output time base: in every prefix of the output the
   last video and the last audio packet, counting from 0, are as close.
   */
  lemma WrittenBalance(vs: Side, as_: Side, v: seq<Packet>, a: seq<Packet>, d: real, n: nat)
    requires d >= 0.0 && Steady(v, vs.tb, 0, d) && Steady(a, as_.tb, 0, d) && AllPlain(v) && AllPlain(a)
    requires vs.outStream != as_.outStream && n <= |MergeFrom(vs, as_, v, a, 0, 0).out|
    ensures
      var out := MergeFrom(vs, as_, v, a, 0, 0).out[..n];
      Near(Seconds(LastWritten(out, vs.outStream, 0), vs.outTb), Seconds(LastWritten(out, as_.outStream, 0), as_.outTb),
           d + HalfTick(vs.outTb) + HalfTick(as_.outTb))
  {
    ZeroStays(vs);
    ZeroStays(as_);
    MarksAreWritten(vs, as_, v, a, 0, 0, n);
    var mark := (0, 0);
    if n > 0 {
      var m := MergeFrom(vs, as_, v, a, 0, 0);
      mark := m.marks[n - 1];
      assert mark in m.marks;
      BalancedMerge(vs, as_, v, a, d);
      MarksArePlain(vs, as_, v, a, 0, 0, n - 1);
    }
    RescaleIsNear(mark.0, vs.tb, vs.outTb);
    RescaleIsNear(mark.1, as_.tb, as_.outTb);
  }

  // ---------------------------------------------------------------- where it stops

  ghost predicate NotBefore(pkts: seq<Packet>, tb: TimeBase, t: real)
  {
    forall i :: 0 <= i < |pkts| ==> t <= Seconds(pkts[i].pts, tb)
  }

  ghost predicate NonDecreasing(pkts: seq<Packet>, tb: TimeBase, last: int)
    decreases |pkts|
  {
    |pkts| == 0 || (Seconds(last, tb) <= Seconds(pkts[0].pts, tb) && NonDecreasing(pkts[1..], tb, pkts[0].pts))
  }

  lemma {:induction false} RestIsLater(pkts: seq<Packet>, tb: TimeBase, last: int)
    requires NonDecreasing(pkts, tb, last)
    ensures NotBefore(pkts, tb, Seconds(last, tb))
    decreases |pkts|
  {
    if |pkts| > 0 {
      RestIsLater(pkts[1..], tb, pkts[0].pts);
      forall i | 0 <= i < |pkts| ensures Seconds(last, tb) <= Seconds(pkts[i].pts, tb) {
        if i > 0 { assert pkts[i] == pkts[1..][i - 1]; }
      }
    }
  }

  /** The last timestamp read from a stream that started at `last`. */
  function LastPts(read: seq<Packet>, last: int): int
  {
    if |read| == 0 then last else read[|read| - 1].pts
  }

  ghost predicate StopsRight(m: Merged, v: seq<Packet>, tbV: TimeBase, a: seq<Packet>, tbA: TimeBase, lastV: int, lastA: int)
  {
    && |m.video| <= |v| && |m.audio| <= |a|
    && (|| (m.video == v && NotBefore(a[|m.audio|..], tbA, Seconds(LastPts(v, lastV), tbV)))
        || (m.audio == a && NotBefore(v[|m.video|..], tbV, Seconds(LastPts(a, lastA), tbA))))
  }

  lemma VideoReadStops(m: Merged, v: seq<Packet>, tbV: TimeBase, a: seq<Packet>, tbA: TimeBase, lastV: int, lastA: int)
    requires |v| > 0
    ensures StopsRight(m, v[1..], tbV, a, tbA, v[0].pts, lastA) ==>
      StopsRight(m.(video := [v[0]] + m.video), v, tbV, a, tbA, lastV, lastA)
  {
    assert LastPts(v[1..], v[0].pts) == LastPts(v, lastV);
    if |m.video| <= |v[1..]| { assert v[|m.video| + 1..] == v[1..][|m.video|..]; }
    assert [v[0]] + v[1..] == v;
  }

  lemma AudioReadStops(m: Merged, v: seq<Packet>, tbV: TimeBase, a: seq<Packet>, tbA: TimeBase, lastV: int, lastA: int)
    requires |a| > 0
    ensures StopsRight(m, v, tbV, a[1..], tbA, lastV, a[0].pts) ==>
      StopsRight(m.(audio := [a[0]] + m.audio), v, tbV, a, tbA, lastV, lastA)
  {
    assert LastPts(a[1..], a[0].pts) == LastPts(a, lastA);
    if |m.audio| <= |a[1..]| { assert a[|m.audio| + 1..] == a[1..][|m.audio|..]; }
    assert [a[0]] + a[1..] == a;
  }

  lemma LastReadStops(v: seq<Packet>, tbV: TimeBase, a: seq<Packet>, tbA: TimeBase, lastV: int, lastA: int)
    requires NonDecreasing(v, tbV, lastV) && NonDecreasing(a, tbA, lastA)
    requires if CompareTs(lastV, tbV, lastA, tbA) <= 0 then |v| == 0 else |a| == 0
    ensures StopsRight(Merged([], [], [], []), v, tbV, a, tbA, lastV, lastA)
  {
    CompareIsByTime(lastV, tbV, lastA, tbA);
    RestIsLater(v, tbV, lastV);
    RestIsLater(a, tbA, lastA);
  }

  /**
   One stream is written completely, and of the other every packet that comes before the last one of
   the complete stream.
   */
  lemma {:induction false} StopsAtTheEndOfOne(vs: Side, as_: Side, v: seq<Packet>, a: seq<Packet>, lastV: int, lastA: int)
    requires NonDecreasing(v, vs.tb, lastV) && NonDecreasing(a, as_.tb, lastA)
    ensures StopsRight(MergeFrom(vs, as_, v, a, lastV, lastA), v, vs.tb, a, as_.tb, lastV, lastA)
    decreases |v| + |a|
  {
    if CompareTs(lastV, vs.tb, lastA, as_.tb) <= 0 {
      if |v| > 0 {
        StopsAtTheEndOfOne(vs, as_, v[1..], a, v[0].pts, lastA);
        var m := MergeFrom(vs, as_, v[1..], a, v[0].pts, lastA);
        VideoReadStops(m, v, vs.tb, a, as_.tb, lastV, lastA);
      } else {
        LastReadStops(v, vs.tb, a, as_.tb, lastV, lastA);
      }
    } else if |a| > 0 {
      StopsAtTheEndOfOne(vs, as_, v, a[1..], lastV, a[0].pts);
      var m := MergeFrom(vs, as_, v, a[1..], lastV, a[0].pts);
      AudioReadStops(m, v, vs.tb, a, as_.tb, lastV, lastA);
    } else {
      LastReadStops(v, vs.tb, a, as_.tb, lastV, lastA);
    }
  }
}
