/**
 The 8SVX audio decoder of libavcodec/8svx.c: the whole sound arrives in the first packet, and every
 call decodes the next piece of it, carrying the last sample of each channel over to the next call.
 */
module EightSvx {
  import opened Common

  type Byte = x: int | 0 <= x < 256

  const FIBONACCI: seq<int> := [-34, -21, -13, -8, -5, -3, -2, -1, 0, 1, 2, 3, 5, 8, 13, 21]
  const EXPONENTIAL: seq<int> := [-128, -64, -32, -16, -8, -4, -2, -1, 0, 1, 2, 4, 8, 16, 32, 64]
  const MAX_FRAME_SIZE := 2048
  const HDR_SIZE := 2

  function Clip(x: int): Byte { if x < 0 then 0 else if x > 255 then 255 else x }

  lemma ClipIsNearest(x: int)
    ensures if x < 0 then Clip(x) == 0 else if x <= 255 then Clip(x) == x else Clip(x) == 255
  {
  }

  /** The steps are the Fibonacci numbers, or the powers of two, in both directions. */
  lemma TablesAreSymmetric()
    ensures |FIBONACCI| == |EXPONENTIAL| == 16 && FIBONACCI[8] == EXPONENTIAL[8] == 0
    ensures FIBONACCI[9] == 1 && FIBONACCI[10] == 2 && EXPONENTIAL[9] == 1
    ensures forall i :: 11 <= i < 16 ==> FIBONACCI[i] == FIBONACCI[i - 1] + FIBONACCI[i - 2]
    ensures forall i :: 10 <= i < 16 ==> EXPONENTIAL[i] == 2 * EXPONENTIAL[i - 1]
    ensures forall i :: 1 <= i < 8 ==> FIBONACCI[i] == -FIBONACCI[16 - i] && EXPONENTIAL[i] == -EXPONENTIAL[16 - i]
    ensures FIBONACCI[0] == FIBONACCI[1] + FIBONACCI[2] && EXPONENTIAL[0] == 2 * EXPONENTIAL[1]
  {
  }

  /** The two samples held by one byte, low half first. */
  function Low(table: seq<int>, d: Byte, val: Byte): Byte
    requires |table| == 16
  {
    Clip(val + table[d % 16])
  }

  function High(table: seq<int>, d: Byte, val: Byte): Byte
    requires |table| == 16
  {
    Clip(Low(table, d, val) + table[d / 16])
  }

  /** The samples of `src` from the start value `val`. */
  function Decode(table: seq<int>, src: seq<Byte>, val: Byte): (samples: seq<Byte>)
    requires |table| == 16
    ensures |samples| == 2 * |src|
  {
    if |src| == 0 then []
    else [Low(table, src[0], val), High(table, src[0], val)] + Decode(table, src[1..], High(table, src[0], val))
  }

  /** The start value that is left for the next call. */
  function Final(table: seq<int>, src: seq<Byte>, val: Byte): Byte
    requires |table| == 16
  {
    if |src| == 0 then val else Final(table, src[1..], High(table, src[0], val))
  }

  /** delta_decode on `size` bytes of `src` from `at`. */
  method DeltaDecode(dst: array<Byte>, src: seq<Byte>, at: nat, size: nat, state: Byte, table: seq<int>)
    returns (val: Byte)
    requires |table| == 16 && at + size <= |src| && dst.Length == 2 * size
    modifies dst
    ensures dst[..] == Decode(table, src[at..at + size], state)
    ensures val == Final(table, src[at..at + size], state)
  {
    val := state;
    var i := 0;
    assert src[at..at] == [];
    while i < size
      invariant 0 <= i <= size
      invariant dst[..2 * i] == Decode(table, src[at..at + i], state)
      invariant val == Final(table, src[at..at + i], state)
    {
      var d := src[at + i];
      DecodeMore(table, src[at..at + i], d, state);
      assert src[at..at + i] + [d] == src[at..at + i + 1];
      val := Clip(val + table[d % 16]);
      dst[2 * i] := val;
      val := Clip(val + table[d / 16]);
      dst[2 * i + 1] := val;
      i := i + 1;
    }
    assert dst[..] == dst[..2 * size];
  }

  /** Decoding in two pieces is decoding in one, when the last sample is carried over. */
  lemma {:induction false} DecodeSplit(table: seq<int>, a: seq<Byte>, b: seq<Byte>, val: Byte)
    requires |table| == 16
    ensures Decode(table, a + b, val) == Decode(table, a, val) + Decode(table, b, Final(table, a, val))
    ensures Final(table, a + b, val) == Final(table, b, Final(table, a, val))
    decreases |a|
  {
    if |a| == 0 {
      assert a + b == b;
    } else {
      assert (a + b)[1..] == a[1..] + b;
      DecodeSplit(table, a[1..], b, High(table, a[0], val));
    }
  }

  lemma DecodeMore(table: seq<int>, src: seq<Byte>, d: Byte, val: Byte)
    requires |table| == 16
    ensures
      var v := Final(table, src, val);
      && Decode(table, src + [d], val) == Decode(table, src, val) + [Low(table, d, v), High(table, d, v)]
      && Final(table, src + [d], val) == High(table, d, v)
  {
    DecodeSplit(table, src, [d], val);
    assert [d][1..] == [];
  }

  /**
   Two start values never cross and never move apart: the sounds they give stay in order, at most as
   far from each other as at the start.
   */
  lemma {:induction false} MonotoneNonExpansive(table: seq<int>, src: seq<Byte>, v: Byte, w: Byte)
    requires |table| == 16 && v <= w
    ensures forall k :: 0 <= k < 2 * |src| ==>
      0 <= Decode(table, src, w)[k] - Decode(table, src, v)[k] <= w - v
    ensures 0 <= Final(table, src, w) - Final(table, src, v) <= w - v
    decreases |src|
  {
    if |src| > 0 {
      MonotoneNonExpansive(table, src[1..], High(table, src[0], v), High(table, src[0], w));
    }
  }

  /** The samples of a chain of deltas, one step of the table after the other. */
  function Walk(table: seq<int>, steps: seq<nat>, val: Byte): seq<Byte>
    requires |table| == 16 && forall k :: 0 <= k < |steps| ==> steps[k] < 16
  {
    if |steps| == 0 then []
    else
      var next := Clip(val + table[steps[0]]);
      [next] + Walk(table, steps[1..], next)
  }

  /** Two steps in a byte, the first in the low half. */
  function PackSteps(steps: seq<nat>): seq<Byte>
    requires |steps| % 2 == 0 && forall k :: 0 <= k < |steps| ==> steps[k] < 16
  {
    if |steps| == 0 then []
    else
      var low: nat, high: nat := steps[0], steps[1];
      [low + 16 * high] + PackSteps(steps[2..])
  }

  /** Decoding walks through the steps in the order they were packed. */
  lemma {:induction false} DecodeWalksThrough(table: seq<int>, steps: seq<nat>, val: Byte)
    requires |table| == 16 && |steps| % 2 == 0 && forall k :: 0 <= k < |steps| ==> steps[k] < 16
    ensures Decode(table, PackSteps(steps), val) == Walk(table, steps, val)
    decreases |steps|
  {
    if |steps| > 0 {
      var d: int := PackSteps(steps)[0];
      assert d % 16 == steps[0] && d / 16 == steps[1];
      assert steps[1..][1..] == steps[2..];
      DecodeWalksThrough(table, steps[2..], High(table, PackSteps(steps)[0], val));
    }
  }

  // ---------------------------------------------------------------- the decoder

  /** What the decoder keeps between calls; `data` is empty until the first packet. */
  datatype State = State(data: seq<seq<Byte>>, fibAcc: seq<Byte>, size: nat, idx: nat)

  /** The answer to one call; `used` is the number of bytes it reports as consumed. */
  datatype Answer = InvalidData | NoFrame(used: int) | Frame(samples: seq<seq<Byte>>, used: int)

  ghost predicate Valid(channels: nat, st: State)
  {
    && 1 <= channels <= 2 && |st.fibAcc| == 2
    && (|st.data| > 0 ==>
      && |st.data| == channels && st.idx <= st.size
      && forall ch :: 0 <= ch < channels ==> |st.data[ch]| == st.size)
  }

  /** `n` bytes in each of one or two channels. */
  function Total(channels: nat, n: int): int { if channels == 2 then 2 * n else n }

  lemma TimesChannels(channels: nat, n: int)
    requires 1 <= channels <= 2
    ensures n * channels == Total(channels, n)
  {
  }

  function ChannelSize(channels: nat, packet: seq<Byte>): int
  {
    (if channels == 2 then |packet| / 2 else |packet|) - HDR_SIZE
  }

  /** Where the header of channel `ch` begins. */
  function HeaderAt(channels: nat, packet: seq<Byte>, ch: nat): int
  {
    if ch == 0 then 0 else HDR_SIZE + ChannelSize(channels, packet)
  }

  /** A signed sample made unsigned, in eight bits. */
  function Unsigned(b: Byte): Byte
  {
    var signed: int := b;
    (signed + 128) % 256
  }

  /** Read as a signed number, the byte is moved up by half the range. */
  lemma UnsignedMeans(b: Byte)
    ensures Unsigned(b) == 128 + if b < 128 then b else b - 256
  {
  }

  /** The start value of channel `ch`, from the header in front of its data, as an unsigned sample. */
  function StartValue(channels: nat, packet: seq<Byte>, ch: nat): Byte
    requires ch < channels <= 2 && |packet| >= Total(channels, 3)
  {
    Unsigned(packet[HeaderAt(channels, packet, ch) + 1])
  }

  function ChannelData(channels: nat, packet: seq<Byte>, ch: nat): (data: seq<Byte>)
    requires ch < channels <= 2 && |packet| >= Total(channels, 3)
    ensures |data| == ChannelSize(channels, packet) > 0
  {
    var from := HeaderAt(channels, packet, ch) + HDR_SIZE;
    packet[from..from + ChannelSize(channels, packet)]
  }

  /** The decoder once the first packet is taken over. */
  function Loaded(channels: nat, packet: seq<Byte>, st: State): State
    requires 1 <= channels <= 2 && |packet| >= Total(channels, 3) && |st.fibAcc| == 2
  {
    State([ChannelData(channels, packet, 0)] + if channels == 2 then [ChannelData(channels, packet, 1)] else [],
      [StartValue(channels, packet, 0), if channels == 2 then StartValue(channels, packet, 1) else st.fibAcc[1]],
      ChannelSize(channels, packet), 0)
  }

  /** Where the parts of a packet are found: each channel is two header bytes and then its data. */
  lemma ChannelsAreFound(skip0: Byte, start0: Byte, data0: seq<Byte>, skip1: Byte, start1: Byte, data1: seq<Byte>)
    requires |data0| == |data1| > 0
    ensures
      var packet := [skip0, start0] + data0;
      && ChannelData(1, packet, 0) == data0 && StartValue(1, packet, 0) == Unsigned(start0)
    ensures
      var packet := [skip0, start0] + data0 + ([skip1, start1] + data1);
      && ChannelData(2, packet, 0) == data0 && StartValue(2, packet, 0) == Unsigned(start0)
      && ChannelData(2, packet, 1) == data1 && StartValue(2, packet, 1) == Unsigned(start1)
  {
    var n, packet := |data0|, [skip0, start0] + data0 + ([skip1, start1] + data1);
    assert packet[2..2 + n] == data0 && packet[n + 4..n + 4 + n] == data1;
    assert packet[n + 3] == start1;
  }

  function Samples(table: seq<int>, st: State, ch: nat, n: nat): seq<Byte>
    requires |table| == 16 && ch < |st.data| && ch < |st.fibAcc| && st.idx + n <= |st.data[ch]|
  {
    Decode(table, st.data[ch][st.idx..st.idx + n], st.fibAcc[ch])
  }

  function NextAcc(table: seq<int>, st: State, ch: nat, n: nat): Byte
    requires |table| == 16 && ch < |st.fibAcc| && (ch < |st.data| ==> st.idx + n <= |st.data[ch]|)
  {
    if ch < |st.data| then Final(table, st.data[ch][st.idx..st.idx + n], st.fibAcc[ch]) else st.fibAcc[ch]
  }

  function AllSamples(table: seq<int>, st: State, n: nat): seq<seq<Byte>>
    requires |table| == 16 && 1 <= |st.data| <= 2 <= |st.fibAcc|
    requires forall ch :: 0 <= ch < |st.data| ==> st.idx + n <= |st.data[ch]|
  {
    [Samples(table, st, 0, n)] + if |st.data| == 2 then [Samples(table, st, 1, n)] else []
  }

  /** One call, `frameNumber` frames after the start. */
  ghost predicate Follows(table: seq<int>, channels: nat, packet: seq<Byte>, frameNumber: nat,
    st: State, answer: Answer, st': State)
    requires |table| == 16 && Valid(channels, st)
  {
    if |st.data| == 0 && |packet| < Total(channels, 3) then answer == InvalidData && st' == st
    else
      var s := if |st.data| == 0 then Loaded(channels, packet, st) else st;
      var n := Min(MAX_FRAME_SIZE, s.size - s.idx);
      if n <= 0 then answer == NoFrame(|packet|) && st' == s
      else
        && answer == Frame(AllSamples(table, s, n),
          Total(channels, (if frameNumber == 0 then HDR_SIZE else 0) + n))
        && st' == s.(idx := s.idx + n, fibAcc := [NextAcc(table, s, 0, n), NextAcc(table, s, 1, n)])
  }

  /** Refused is exactly a first packet without a byte of sound for every channel, and nothing is loaded then. */
  lemma RefusesExactly(table: seq<int>, channels: nat, packet: seq<Byte>, frameNumber: nat, st: State, answer: Answer, st': State)
    requires |table| == 16 && Valid(channels, st) && Follows(table, channels, packet, frameNumber, st, answer, st')
    ensures answer == InvalidData <==> st.data == [] && |packet| < 3 * channels
    ensures answer == InvalidData ==> st' == st
    ensures answer != InvalidData ==> |st'.data| == channels
  {
  }

  class Decoder {
    const table: seq<int>
    const channels: nat
    var data: seq<seq<Byte>>
    var fibAcc: seq<Byte>
    var dataSize: nat
    var dataIdx: nat

    ghost function View(): State
      reads this
    {
      State(data, fibAcc, dataSize, dataIdx)
    }

    constructor (table: seq<int>, channels: nat)
      requires (table == FIBONACCI || table == EXPONENTIAL) && 1 <= channels <= 2
      ensures this.table == table && this.channels == channels
      ensures Valid(channels, View()) && View() == State([], [0, 0], 0, 0)
    {
      this.table, this.channels := table, channels;
      data, fibAcc, dataSize, dataIdx := [], [0, 0], 0, 0;
    }

    method Close()
      requires Valid(channels, View())
      modifies this
      ensures Valid(channels, View()) && View() == State([], old(fibAcc), 0, 0)
    {
      data, dataSize, dataIdx := [], 0, 0;
    }

    method DecodeFrame(packet: seq<Byte>, frameNumber: nat) returns (answer: Answer)
      requires |table| == 16 && Valid(channels, View())
      modifies this
      ensures Valid(channels, View())
      ensures Follows(table, channels, packet, frameNumber, old(View()), answer, View())
    {
      // take over the first packet
      if |data| == 0 {
        if |packet| < (HDR_SIZE + 1) * channels { return InvalidData; }
        Load(packet);
      }
      // decode the next piece
      var bufSize := Min(MAX_FRAME_SIZE, dataSize - dataIdx);
      if bufSize <= 0 { return NoFrame(|packet|); }
      var samples := DecodePiece(bufSize);
      var used := (if frameNumber == 0 then HDR_SIZE else 0) + bufSize;
      TimesChannels(channels, used);
      return Frame(samples, used * channels);
    }

    method Load(packet: seq<Byte>)
      requires Valid(channels, View()) && |data| == 0 && |packet| >= Total(channels, 3)
      modifies this
      ensures Valid(channels, View()) && View() == Loaded(channels, packet, old(View()))
    {
      var chanSize := |packet| / channels - HDR_SIZE;
      fibAcc := fibAcc[0 := Unsigned(packet[1])];
      if channels == 2 {
        fibAcc := fibAcc[1 := Unsigned(packet[2 + chanSize + 1])];
      }
      dataIdx, dataSize := 0, chanSize;
      data := [packet[HDR_SIZE..HDR_SIZE + chanSize]];
      if channels == 2 {
        data := data + [packet[2 * HDR_SIZE + chanSize..2 * HDR_SIZE + 2 * chanSize]];
      }
    }

    /** The next `bufSize` bytes of every channel. */
    method DecodePiece(bufSize: nat) returns (samples: seq<seq<Byte>>)
      requires |table| == 16 && Valid(channels, View()) && |data| > 0 && dataIdx + bufSize <= dataSize
      modifies `fibAcc, `dataIdx
      ensures samples == AllSamples(table, old(View()), bufSize)
      ensures dataIdx == old(dataIdx) + bufSize
      ensures fibAcc == [NextAcc(table, old(View()), 0, bufSize), NextAcc(table, old(View()), 1, bufSize)]
    {
      ghost var was := View();
      samples := [];
      var ch := 0;
      while ch < channels
        invariant 0 <= ch <= channels && |samples| == ch && |fibAcc| == 2 && dataIdx == old(dataIdx)
        invariant forall c :: 0 <= c < ch ==> samples[c] == Samples(table, was, c, bufSize)
        invariant forall c :: 0 <= c < ch ==> fibAcc[c] == NextAcc(table, was, c, bufSize)
        invariant forall c :: ch <= c < 2 ==> fibAcc[c] == was.fibAcc[c]
      {
        var dst := new Byte[2 * bufSize];
        var acc := DeltaDecode(dst, data[ch], dataIdx, bufSize, fibAcc[ch], table);
        fibAcc := fibAcc[ch := acc];
        samples := samples + [dst[..]];
        ch := ch + 1;
      }
      dataIdx := dataIdx + bufSize;
    }
  }

  // ---------------------------------------------------------------- whole sounds

  datatype Run = Run(table: seq<int>, channels: nat, packets: seq<seq<Byte>>, states: seq<State>, answers: seq<Answer>)

  /** A decoder opened, given a first packet that is large enough, and called again and again. */
  ghost predicate IsRun(r: Run)
  {
    && |r.table| == 16
    && |r.packets| == |r.answers| && |r.states| == |r.packets| + 1 > 1
    && (forall i :: 0 <= i < |r.states| ==> Valid(r.channels, r.states[i]))
    && r.states[0].data == [] && |r.packets[0]| >= Total(r.channels, 3)
    && (forall i :: 0 <= i < |r.packets| ==>
      Follows(r.table, r.channels, r.packets[i], i, r.states[i], r.answers[i], r.states[i + 1]))
  }

  /** Everything that came out for channel `ch` in the first `n` calls. */
  function Output(answers: seq<Answer>, ch: nat, n: nat): seq<Byte>
    requires n <= |answers|
  {
    if n == 0 then []
    else
      var last := if answers[n - 1].Frame? && ch < |answers[n - 1].samples| then answers[n - 1].samples[ch] else [];
      Output(answers, ch, n - 1) + last
  }

  /** Bytes reported as consumed by the first `n` calls, as long as there were frames. */
  function Consumed(answers: seq<Answer>, n: nat): int
    requires n <= |answers|
  {
    if n == 0 then 0
    else Consumed(answers, n - 1) + if answers[n - 1].Frame? then answers[n - 1].used else 0
  }

  function Done(r: Run, n: nat): int
    requires |r.packets| > 0
  {
    Min(MAX_FRAME_SIZE * n, ChannelSize(r.channels, r.packets[0]))
  }

  ghost predicate After(r: Run, ch: nat, n: nat)
    requires IsRun(r) && ch < r.channels && 1 <= n <= |r.packets|
  {
    var src, v := ChannelData(r.channels, r.packets[0], ch), StartValue(r.channels, r.packets[0], ch);
    var st, done := r.states[n], Done(r, n);
    && |st.data| == r.channels && st.data[ch] == src && st.size == |src| && st.idx == done
    && st.fibAcc[ch] == Final(r.table, src[..done], v)
    && Output(r.answers, ch, n) == Decode(r.table, src[..done], v)
  }

  lemma {:induction false} AfterCalls(r: Run, ch: nat, n: nat)
    requires IsRun(r) && ch < r.channels && 1 <= n <= |r.packets|
    ensures After(r, ch, n)
    decreases n
  {
    var src := ChannelData(r.channels, r.packets[0], ch);
    assert Follows(r.table, r.channels, r.packets[n - 1], n - 1, r.states[n - 1], r.answers[n - 1], r.states[n]);
    if n == 1 {
      FirstCall(r, ch);
    } else {
      AfterCalls(r, ch, n - 1);
      NextCall(r, ch, n);
    }
  }

  lemma FirstCall(r: Run, ch: nat)
    requires IsRun(r) && ch < r.channels
    requires Follows(r.table, r.channels, r.packets[0], 0, r.states[0], r.answers[0], r.states[1])
    ensures After(r, ch, 1)
  {
    var src := ChannelData(r.channels, r.packets[0], ch);
    assert src[0..Done(r, 1)] == src[..Done(r, 1)];
    assert Output(r.answers, ch, 0) == [];
  }

  lemma NextCall(r: Run, ch: nat, n: nat)
    requires IsRun(r) && ch < r.channels && 2 <= n <= |r.packets| && After(r, ch, n - 1)
    requires Follows(r.table, r.channels, r.packets[n - 1], n - 1, r.states[n - 1], r.answers[n - 1], r.states[n])
    ensures After(r, ch, n)
  {
    var src, v := ChannelData(r.channels, r.packets[0], ch), StartValue(r.channels, r.packets[0], ch);
    PieceOf(r.table, r.channels, r.packets[n - 1], n - 1, r.states[n - 1], r.answers[n - 1], r.states[n], ch);
    PieceExtends(r.table, r.channels, r.states[n - 1], r.answers[n - 1], r.states[n],
      ch, src, v, Output(r.answers, ch, n - 1));
  }

  /** What a call on a loaded decoder does for channel `ch`. */
  ghost predicate Piece(table: seq<int>, channels: nat, st: State, answer: Answer, st': State, ch: nat)
    requires |table| == 16 && Valid(channels, st) && ch < |st.data|
  {
    var n := Min(MAX_FRAME_SIZE, st.size - st.idx);
    && st'.data == st.data && st'.size == st.size && st'.idx == st.idx + n && |st'.fibAcc| == 2
    && st'.fibAcc[ch] == NextAcc(table, st, ch, n)
    && (if n > 0 then answer.Frame? && ch < |answer.samples| && answer.samples[ch] == Samples(table, st, ch, n)
        else !answer.Frame?)
  }

  lemma PieceOf(table: seq<int>, channels: nat, packet: seq<Byte>, frameNumber: nat,
    st: State, answer: Answer, st': State, ch: nat)
    requires |table| == 16 && Valid(channels, st) && ch < |st.data|
    requires Follows(table, channels, packet, frameNumber, st, answer, st')
    ensures Piece(table, channels, st, answer, st', ch)
  {
  }

  /** A call after the first adds the next piece to what came out for channel `ch`. */
  lemma PieceExtends(table: seq<int>, channels: nat,
    st: State, answer: Answer, st': State, ch: nat, src: seq<Byte>, v: Byte, out: seq<Byte>)
    requires |table| == 16 && Valid(channels, st) && ch < |st.data| && st.data[ch] == src
    requires Piece(table, channels, st, answer, st', ch)
    requires st.fibAcc[ch] == Final(table, src[..st.idx], v) && out == Decode(table, src[..st.idx], v)
    ensures st'.idx == Min(st.idx + MAX_FRAME_SIZE, |src|)
    ensures st'.fibAcc[ch] == Final(table, src[..st'.idx], v)
    ensures out + (if answer.Frame? then answer.samples[ch] else []) == Decode(table, src[..st'.idx], v)
  {
    DecodePrefix(table, src, st.idx, st'.idx, v);
  }

  lemma DecodePrefix(table: seq<int>, src: seq<Byte>, i: nat, j: nat, v: Byte)
    requires |table| == 16 && i <= j <= |src|
    ensures Decode(table, src[..j], v) == Decode(table, src[..i], v) + Decode(table, src[i..j], Final(table, src[..i], v))
    ensures Final(table, src[..j], v) == Final(table, src[i..j], Final(table, src[..i], v))
  {
    DecodeSplit(table, src[..i], src[i..j], v);
    assert src[..i] + src[i..j] == src[..j];
  }

  /** What one call reports, and how far it goes. */
  ghost predicate Uses(channels: nat, frameNumber: nat, st: State, answer: Answer, st': State)
  {
    && |st'.data| == channels && st'.size == st.size && st.idx <= st'.idx == Min(st.idx + MAX_FRAME_SIZE, st.size)
    && (answer.Frame? ==>
      answer.used == Total(channels, (if frameNumber == 0 then HDR_SIZE else 0) + st'.idx - st.idx))
    && (!answer.Frame? ==> st'.idx == st.idx)
  }

  lemma CallUses(table: seq<int>, channels: nat, packet: seq<Byte>, frameNumber: nat,
    st: State, answer: Answer, st': State)
    requires |table| == 16 && Valid(channels, st) && Follows(table, channels, packet, frameNumber, st, answer, st')
    requires |st.data| == 0 ==> |packet| >= Total(channels, 3)
    ensures Uses(channels, frameNumber, if |st.data| == 0 then Loaded(channels, packet, st) else st, answer, st')
    ensures |st.data| == 0 ==> answer.Frame?
  {
  }

  ghost predicate UsedSoFar(r: Run, n: nat)
    requires IsRun(r) && n <= |r.packets|
  {
    && |r.states[n].data| == r.channels && r.states[n].size == ChannelSize(r.channels, r.packets[0])
    && r.states[n].idx == Done(r, n) && Consumed(r.answers, n) == Total(r.channels, HDR_SIZE + Done(r, n))
  }

  lemma {:induction false} ConsumedSoFar(r: Run, n: nat)
    requires IsRun(r) && 1 <= n <= |r.packets|
    ensures UsedSoFar(r, n)
    decreases n
  {
    if n > 1 {
      ConsumedSoFar(r, n - 1);
      NextUses(r, n);
    } else {
      FirstUses(r);
    }
  }

  lemma FirstUses(r: Run)
    requires IsRun(r)
    ensures UsedSoFar(r, 1)
  {
    CallUses(r.table, r.channels, r.packets[0], 0, r.states[0], r.answers[0], r.states[1]);
    assert Consumed(r.answers, 0) == 0;
  }

  lemma NextUses(r: Run, n: nat)
    requires IsRun(r) && 1 < n <= |r.packets| && UsedSoFar(r, n - 1)
    ensures UsedSoFar(r, n)
  {
    assert Follows(r.table, r.channels, r.packets[n - 1], n - 1, r.states[n - 1], r.answers[n - 1], r.states[n]);
    CallUses(r.table, r.channels, r.packets[n - 1], n - 1, r.states[n - 1], r.answers[n - 1], r.states[n]);
  }

  /**
   Chunking: once enough calls were made, what came out, put together, is one decoding of the whole
   channel, two samples a byte; the bytes reported as consumed are those of the packet that count.
   */
  lemma Chunking(r: Run, ch: nat)
    requires IsRun(r) && ch < r.channels
    requires MAX_FRAME_SIZE * |r.packets| >= ChannelSize(r.channels, r.packets[0])
    ensures
      var src, v := ChannelData(r.channels, r.packets[0], ch), StartValue(r.channels, r.packets[0], ch);
      && Output(r.answers, ch, |r.packets|) == Decode(r.table, src, v)
      && |Output(r.answers, ch, |r.packets|)| == 2 * |src|
      && Consumed(r.answers, |r.packets|) == |r.packets[0]| - (if r.channels == 2 then |r.packets[0]| % 2 else 0)
  {
    AfterCalls(r, ch, |r.packets|);
    ConsumedSoFar(r, |r.packets|);
    var src := ChannelData(r.channels, r.packets[0], ch);
    assert src[..|src|] == src;
  }

  /** There are exactly as many frames as pieces of MAX_FRAME_SIZE bytes; then NoFrame for ever. */
  lemma FrameCount(r: Run, n: nat)
    requires IsRun(r) && n < |r.packets|
    ensures r.answers[n].Frame? <==> MAX_FRAME_SIZE * n < ChannelSize(r.channels, r.packets[0])
    ensures !r.answers[n].Frame? ==> r.answers[n] == NoFrame(|r.packets[n]|)
  {
    assert Follows(r.table, r.channels, r.packets[n], n, r.states[n], r.answers[n], r.states[n + 1]);
    if n > 0 { AfterCalls(r, 0, n); }
  }

  /** Two sounds that differ in their start values only stay in order, and as close as they began. */
  lemma StartsDoNotDiverge(r: Run, q: Run, ch: nat, k: nat)
    requires IsRun(r) && IsRun(q) && r.table == q.table && r.channels == q.channels && ch < r.channels
    requires |r.packets| == |q.packets| && |r.packets[0]| == |q.packets[0]|
    requires ChannelData(r.channels, r.packets[0], ch) == ChannelData(q.channels, q.packets[0], ch)
    requires StartValue(r.channels, r.packets[0], ch) <= StartValue(q.channels, q.packets[0], ch)
    requires k < |Output(r.answers, ch, |r.packets|)|
    ensures |Output(r.answers, ch, |r.packets|)| == |Output(q.answers, ch, |q.packets|)|
    ensures 0 <= Output(q.answers, ch, |q.packets|)[k] - Output(r.answers, ch, |r.packets|)[k]
      <= StartValue(q.channels, q.packets[0], ch) - StartValue(r.channels, r.packets[0], ch)
  {
    var n := |r.packets|;
    AfterCalls(r, ch, n);
    AfterCalls(q, ch, n);
    MonotoneNonExpansive(r.table, ChannelData(r.channels, r.packets[0], ch)[..Done(r, n)],
      StartValue(r.channels, r.packets[0], ch), StartValue(q.channels, q.packets[0], ch));
  }
}
