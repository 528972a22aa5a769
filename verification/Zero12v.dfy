/**
 The 012v decoder of libavcodec/012v.c: uncompressed 4:2:2 video, three 10-bit samples to a word, six
 columns to a group of four words. Planes are arrays of 16-bit samples.
 */
module Zero12v {
  import opened Common
  import opened Strides

  type Byte = x: int | 0 <= x < 256

  type Sample = x: int | 0 <= x < 0x1_0000

  const MISSING: Sample := 0x8000

  /** Words are unsigned and of 32 bits. */
  const WORDS: nat := 0x1_0000_0000

  // ---------------------------------------------------------------- words

  /** AV_RL32 */
  function Word(src: seq<Byte>, at: nat): (t: nat)
    requires at + 4 <= |src|
    ensures t < WORDS
  {
    var b0: nat, b1: nat, b2: nat, b3: nat := src[at], src[at + 1], src[at + 2], src[at + 3];
    b0 + 0x100 * b1 + 0x1_0000 * b2 + 0x100_0000 * b3
  }

  /** The ten bits of a word that make a sample, six bits further up: bits 0, 10 or 20 and on. */
  datatype Field = Low | Mid | High

  function Take(t: nat, f: Field): Sample
  {
    var bits := match f
      case Low => t % 1024
      case Mid => t / 1024 % 1024
      case High => t / 0x10_0000 % 1024;
    bits * 64
  }

  /** `x & 0xFFC0`: bits 6 to 15, where they stand. */
  function Mask(x: nat): Sample { x / 64 % 1024 * 64 }

  /** The decoder's `t << 6 & 0xFFC0`, `t >> 4 & 0xFFC0` and `t >> 14 & 0xFFC0`. */
  function Shl6(t: nat): Sample { Mask(t * 64 % WORDS) }

  function Shr4(t: nat): Sample { Mask(t / 16) }

  function Shr14(t: nat): Sample { Mask(t / 0x4000) }

  /** On machine words, shifting is multiplying and dividing, and the mask is as above. */
  lemma ShiftsAreArithmetic(t: bv32)
    ensures t << 6 == t * 64 && t >> 4 == t / 16 && t >> 14 == t / 0x4000
    ensures t & 0xFFC0 == t / 64 % 1024 * 64
  {
  }

  /** The shifts and masks of the decoder take the ten bits of a field. */
  lemma ShiftsTakeFields(t: nat)
    requires t < WORDS
    ensures Shl6(t) == Take(t, Low) && Shr4(t) == Take(t, Mid) && Shr14(t) == Take(t, High)
  {
    LowBits(t);
    assert Shr4(t) == t / 16 / 64 % 1024 * 64 && t / 16 / 64 == t / 1024;
    assert Shr14(t) == t / 0x4000 / 64 % 1024 * 64 && t / 0x4000 / 64 == t / 0x10_0000;
  }

  lemma LowBits(t: nat)
    ensures Shl6(t) == t % 1024 * 64
  {
    var low, high := t % 0x400_0000, t / 0x400_0000;
    Remainder(high, 64 * low);
    LowestBits(high, low);
  }

  lemma Remainder(n: nat, rest: nat)
    requires rest < WORDS
    ensures (n * WORDS + rest) % WORDS == rest
  {
  }

  lemma LowestBits(high: nat, low: nat)
    ensures (high * 0x400_0000 + low) % 1024 == low % 1024
  {
    var n, rest := low / 1024, low % 1024;
    TenBits(high * 0x1_0000 + n, rest);
    assert high * 0x400_0000 + low == (high * 0x1_0000 + n) * 1024 + rest;
  }

  lemma TenBits(n: nat, rest: nat)
    requires rest < 1024
    ensures (n * 1024 + rest) % 1024 == rest
  {
  }

  datatype Channel = Luma | Cb | Cr

  /** Where a sample of a group stands: which of the four words, and which field of it. */
  datatype Spot = Spot(word: nat, field: Field)

  function SpotOf(c: Channel, i: nat): Spot
  {
    match c
    case Luma =>
      if i == 0 then Spot(0, Mid) else if i == 1 then Spot(1, Low) else if i == 2 then Spot(1, High)
      else if i == 3 then Spot(2, Mid) else if i == 4 then Spot(3, Low) else Spot(3, High)
    case Cb => if i == 0 then Spot(0, Low) else if i == 1 then Spot(1, Mid) else Spot(2, High)
    case Cr => if i == 0 then Spot(0, High) else if i == 1 then Spot(2, Low) else Spot(3, Mid)
  }

  predicate Present(line: seq<Byte>, at: nat, s: Spot) { at + 4 * s.word + 4 <= |line| }

  /** The sample at spot `s` of the group at `at`, or `otherwise` when its word is beyond the line. */
  function SampleAt(line: seq<Byte>, at: nat, s: Spot, otherwise: Sample): Sample
  {
    if Present(line, at, s) then Take(Word(line, at + 4 * s.word), s.field) else otherwise
  }

  /** The samples of a channel in a group, and in `n` columns. */
  function PerGroup(c: Channel): nat { if c.Luma? then 6 else 3 }

  function Samples(c: Channel, n: nat): nat { if c.Luma? then n else (n + 1) / 2 }

  function FirstOf(c: Channel, g: nat): nat { if c.Luma? then 6 * g else 3 * g }

  function GroupOf(c: Channel, j: nat): nat { if c.Luma? then j / 6 else j / 3 }

  function InGroup(c: Channel, j: nat): nat { if c.Luma? then j % 6 else j % 3 }

  /** Sample `j` of a channel of a line, found without decoding what stands before it. */
  function Value(line: seq<Byte>, c: Channel, j: nat): Sample
  {
    SampleAt(line, 16 * GroupOf(c, j), SpotOf(c, InGroup(c, j)), MISSING)
  }

  // ---------------------------------------------------------------- strides

  datatype Packet = Packet(data: seq<Byte>, width: int, height: int, tag012v: bool)

  function MinStride(width: int): int { width * 8 / 3 }

  /** The bytes of a line, or None for a packet that is refused. */
  function Stride(p: Packet): (s: Option<nat>)
    ensures s.Some? ==> p.width >= 2 && p.height >= 1 && s.value >= MinStride(p.width)
    ensures s.Some? ==> Span(p.height, s.value) <= |p.data|
  {
    if p.width <= 1 || p.height <= 0 then None
    else
      var stride :=
        if p.tag012v && |p.data| % p.height == 0 && |p.data| / p.height * 3 >= p.width * 8 then |p.data| / p.height
        else MinStride(p.width);
      if |p.data| < Span(p.height, stride) then None else Some(stride)
  }

  /** A group with six columns left has all of its sixteen bytes: only the last group can be short. */
  lemma FullGroupsAreWhole(width: nat, stride: nat, g: nat)
    requires stride >= MinStride(width) && width - 6 * g >= 6
    ensures stride - 16 * g >= 16
  {
  }

  // ---------------------------------------------------------------- decoding a line

  /** `now` is `was` with the samples in the first `w` words of the group at `src`, from index `at` on. */
  ghost predicate WordsRead(line: seq<Byte>, src: nat, c: Channel, w: nat, now: seq<Sample>, was: seq<Sample>, at: nat)
  {
    && |now| == |was|
    && forall i :: 0 <= i < |now| ==>
      now[i] == if at <= i < at + PerGroup(c) && SpotOf(c, i - at).word < w
        then SampleAt(line, src, SpotOf(c, i - at), was[i]) else was[i]
  }

  ghost predicate GroupRead(line: seq<Byte>, src: nat, c: Channel, now: seq<Sample>, was: seq<Sample>, at: nat)
  {
    WordsRead(line, src, c, 4, now, was, at)
  }

  /** `now` is `was` with `n` samples from index `at` on. */
  ghost predicate Holds(sample: nat -> int, n: nat, now: seq<Sample>, was: seq<Sample>, at: nat)
  {
    && |now| == |was|
    && forall i :: 0 <= i < |now| ==> now[i] == if at <= i < at + n then sample(i - at) else was[i]
  }

  function ValueOf(line: seq<Byte>, c: Channel): nat -> int { (j: nat) => Value(line, c, j) }

  /** With two or four columns left, the copy of the chroma samples ends in the middle of one. */
  predicate Spills(c: Channel, width: nat) { !c.Luma? && (width % 6 == 2 || width % 6 == 4) }

  /** The samples of a line that are written to, if only in part. */
  function Touched(c: Channel, width: nat): nat { Samples(c, width) + if Spills(c, width) then 1 else 0 }

  /** `s` with its low byte, the first one in memory, copied from `t`. */
  function WithLowByte(s: Sample, t: int): Sample { s / 256 * 256 + t % 256 }

  function SpilledInto(was: seq<Sample>, i: nat, t: int): (now: seq<Sample>)
    ensures |now| == |was|
  {
    if i < |was| then was[i := WithLowByte(was[i], t)] else was
  }

  /** `now` is `was` with `n` samples from index `at` on and, if the line spills, a byte of the next one. */
  ghost predicate LineDone(sample: nat -> int, n: nat, spills: bool, now: seq<Sample>, was: seq<Sample>, at: nat)
  {
    Holds(sample, n, now, if spills then SpilledInto(was, at + n, sample(n)) else was, at)
  }

  /** `now` is `was` with the first `n` samples of the line from index `at` on. */
  ghost predicate LineRead(line: seq<Byte>, c: Channel, n: nat, now: seq<Sample>, was: seq<Sample>, at: nat)
  {
    Holds(ValueOf(line, c), n, now, was, at)
  }

  lemma HoldsMore(sample: nat -> int, m: nat, n: nat, now: seq<Sample>, mid: seq<Sample>, was: seq<Sample>, at: nat)
    requires Holds(sample, m, mid, was, at) && |now| == |mid|
    requires forall i :: 0 <= i < |now| ==> now[i] == if at + m <= i < at + m + n then sample(i - at) else mid[i]
    ensures Holds(sample, m + n, now, was, at)
  {
  }

  lemma OneMoreGroup(line: seq<Byte>, c: Channel, g: nat, now: seq<Sample>, mid: seq<Sample>, was: seq<Sample>, at: nat)
    requires LineRead(line, c, FirstOf(c, g), mid, was, at)
    requires GroupRead(line, 16 * g, c, now, mid, at + FirstOf(c, g)) && 16 * g + 16 <= |line|
    ensures LineRead(line, c, FirstOf(c, g + 1), now, was, at)
  {
    var m, sample := FirstOf(c, g), ValueOf(line, c);
    forall i | at + m <= i < at + m + PerGroup(c) && i < |now| ensures now[i] == sample(i - at) {
      var k: nat := i - at - m;
      ValueInGroup(line, c, g, k, mid[i]);
      assert now[i] == SampleAt(line, 16 * g, SpotOf(c, k), mid[i]);
      assert i - at == m + k && sample(m + k) == Value(line, c, m + k);
    }
    HoldsMore(sample, m, PerGroup(c), now, mid, was, at);
  }

  lemma ValueInGroup(line: seq<Byte>, c: Channel, g: nat, k: nat, otherwise: Sample)
    requires k < PerGroup(c)
    ensures Value(line, c, FirstOf(c, g) + k) == SampleAt(line, 16 * g, SpotOf(c, k), MISSING)
    ensures 16 * g + 16 <= |line| ==>
      Value(line, c, FirstOf(c, g) + k) == SampleAt(line, 16 * g, SpotOf(c, k), otherwise)
  {
    InThatGroup(c, g, k);
  }

  lemma OneMoreGroups(line: seq<Byte>, g: nat,
    y: seq<Sample>, y1: seq<Sample>, ys: seq<Sample>, y0: nat,
    u: seq<Sample>, u1: seq<Sample>, us: seq<Sample>, u0: nat,
    v: seq<Sample>, v1: seq<Sample>, vs: seq<Sample>, v0: nat)
    requires 16 * g + 16 <= |line|
    requires LineRead(line, Luma, 6 * g, y1, ys, y0) && GroupRead(line, 16 * g, Luma, y, y1, y0 + 6 * g)
    requires LineRead(line, Cb, 3 * g, u1, us, u0) && GroupRead(line, 16 * g, Cb, u, u1, u0 + 3 * g)
    requires LineRead(line, Cr, 3 * g, v1, vs, v0) && GroupRead(line, 16 * g, Cr, v, v1, v0 + 3 * g)
    ensures LineRead(line, Luma, 6 * (g + 1), y, ys, y0)
    ensures LineRead(line, Cb, 3 * (g + 1), u, us, u0)
    ensures LineRead(line, Cr, 3 * (g + 1), v, vs, v0)
  {
    OneMoreGroup(line, Luma, g, y, y1, ys, y0);
    OneMoreGroup(line, Cb, g, u, u1, us, u0);
    OneMoreGroup(line, Cr, g, v, v1, vs, v0);
  }

  lemma InThatGroup(c: Channel, g: nat, k: nat)
    requires k < PerGroup(c)
    ensures GroupOf(c, FirstOf(c, g) + k) == g && InGroup(c, FirstOf(c, g) + k) == k
  {
  }

  /** The four words of a group, as far as the line goes, into `y`, `u` and `v`. */
  method ReadGroup(line: seq<Byte>, at: nat, y: array<Sample>, yi: nat, u: array<Sample>, ui: nat, v: array<Sample>, vi: nat)
    returns (whole: bool)
    requires y != u && y != v && u != v
    requires yi + 6 <= y.Length && ui + 3 <= u.Length && vi + 3 <= v.Length
    modifies y, u, v
    ensures whole == (at + 16 <= |line|)
    ensures GroupRead(line, at, Luma, y[..], old(y[..]), yi)
    ensures GroupRead(line, at, Cb, u[..], old(u[..]), ui)
    ensures GroupRead(line, at, Cr, v[..], old(v[..]), vi)
  {
    ghost var ys, us, vs := y[..], u[..], v[..];
    if |line| - at < 4 { return false; }
    PutWord(line, at, 0, y, yi, u, ui, v, vi, ys, us, vs);
    if |line| - (at + 4) < 4 { return false; }
    PutWord(line, at, 1, y, yi, u, ui, v, vi, ys, us, vs);
    if |line| - (at + 8) < 4 { return false; }
    PutWord(line, at, 2, y, yi, u, ui, v, vi, ys, us, vs);
    if |line| - (at + 12) < 4 { return false; }
    PutWord(line, at, 3, y, yi, u, ui, v, vi, ys, us, vs);
    return true;
  }

  /** Word `w` of the group at `at`: its three samples, where they belong. */
  method PutWord(line: seq<Byte>, at: nat, w: nat, y: array<Sample>, yi: nat, u: array<Sample>, ui: nat,
    v: array<Sample>, vi: nat, ghost ys: seq<Sample>, ghost us: seq<Sample>, ghost vs: seq<Sample>)
    requires y != u && y != v && u != v && w < 4 && at + 4 * w + 4 <= |line|
    requires yi + 6 <= y.Length && ui + 3 <= u.Length && vi + 3 <= v.Length
    requires WordsRead(line, at, Luma, w, y[..], ys, yi)
    requires WordsRead(line, at, Cb, w, u[..], us, ui)
    requires WordsRead(line, at, Cr, w, v[..], vs, vi)
    modifies y, u, v
    ensures WordsRead(line, at, Luma, w + 1, y[..], ys, yi)
    ensures WordsRead(line, at, Cb, w + 1, u[..], us, ui)
    ensures WordsRead(line, at, Cr, w + 1, v[..], vs, vi)
  {
    var t := Word(line, at + 4 * w);
    ShiftsTakeFields(t);
    ghost var y1, u1, v1 := y[..], u[..], v[..];
    if w == 0 {
      u[ui], y[yi], v[vi] := Shl6(t), Shr4(t), Shr14(t);
    } else if w == 1 {
      y[yi + 1], u[ui + 1], y[yi + 2] := Shl6(t), Shr4(t), Shr14(t);
    } else if w == 2 {
      v[vi + 1], y[yi + 3], u[ui + 2] := Shl6(t), Shr4(t), Shr14(t);
    } else {
      y[yi + 4], v[vi + 2], y[yi + 5] := Shl6(t), Shr4(t), Shr14(t);
    }
    OneMoreWord(line, at, Luma, w, t, y[..], y1, ys, yi);
    OneMoreWord(line, at, Cb, w, t, u[..], u1, us, ui);
    OneMoreWord(line, at, Cr, w, t, v[..], v1, vs, vi);
  }

  lemma OneMoreWord(line: seq<Byte>, src: nat, c: Channel, w: nat, t: nat, now: seq<Sample>, mid: seq<Sample>,
    was: seq<Sample>, at: nat)
    requires WordsRead(line, src, c, w, mid, was, at) && |now| == |mid|
    requires src + 4 * w + 4 <= |line| && t == Word(line, src + 4 * w)
    requires forall i :: 0 <= i < |now| ==>
      now[i] == if at <= i < at + PerGroup(c) && SpotOf(c, i - at).word == w then Take(t, SpotOf(c, i - at).field) else mid[i]
    ensures WordsRead(line, src, c, w + 1, now, was, at)
  {
  }

  /** The bytes that the last group has for a channel: one more than whole chroma samples when two or four columns are left. */
  function LastBytes(c: Channel, left: nat): nat { if c.Luma? then 2 * left else 2 * (left + 1) / 2 }

  lemma LastBytesFill(c: Channel, width: nat, g: nat)
    requires 6 * g < width < 6 * g + 6
    ensures FirstOf(c, g) + LastBytes(c, width - 6 * g) / 2 == Samples(c, width)
    ensures LastBytes(c, width - 6 * g) % 2 == 1 <==> Spills(c, width)
    ensures FirstOf(c, g) + (LastBytes(c, width - 6 * g) + 1) / 2 == Touched(c, width)
  {
  }

  /** The first `bytes` bytes of `temp` in the place of those of `mid` from index `to` on. */
  function Copied(mid: seq<Sample>, to: nat, bytes: nat, temp: seq<Sample>): (now: seq<Sample>)
    requires (bytes + 1) / 2 <= |temp|
    ensures |now| == |mid|
  {
    var n := bytes / 2;
    seq(|mid|, i requires 0 <= i < |mid| =>
      if to <= i < to + n then temp[i - to]
      else if i == to + n && bytes % 2 == 1 then WithLowByte(mid[i], temp[n]) else mid[i])
  }

  ghost predicate Fills(sample: nat -> int, m: nat, temp: seq<Sample>)
  {
    forall k: nat :: k < |temp| ==> temp[k] == sample(m + k)
  }

  lemma CopiedIsDone(sample: nat -> int, m: nat, bytes: nat, n: nat, spills: bool,
    temp: seq<Sample>, now: seq<Sample>, mid: seq<Sample>, was: seq<Sample>, at: nat)
    requires (bytes + 1) / 2 <= |temp| && at + m + (bytes + 1) / 2 <= |mid|
    requires n == m + bytes / 2 && (spills <==> bytes % 2 == 1)
    ensures Holds(sample, m, mid, was, at) && Fills(sample, m, temp) && now == Copied(mid, at + m, bytes, temp) ==>
      LineDone(sample, n, spills, now, was, at)
  {
  }

  /** The last group comes by way of `temp`. */
  lemma LastGroup(line: seq<Byte>, c: Channel, g: nat, temp: seq<Sample>)
    requires |temp| == PerGroup(c)
    ensures GroupRead(line, 16 * g, c, temp, Blank(c), 0) ==> Fills(ValueOf(line, c), FirstOf(c, g), temp)
  {
    if GroupRead(line, 16 * g, c, temp, Blank(c), 0) {
      forall k: nat | k < |temp| ensures temp[k] == ValueOf(line, c)(FirstOf(c, g) + k) {
        ValueInGroup(line, c, g, k, MISSING);
        assert temp[k] == SampleAt(line, 16 * g, SpotOf(c, k), Blank(c)[k]);
      }
    }
  }

  /** memcpy */
  method CopyBytes(temp: array<Sample>, bytes: nat, plane: array<Sample>, to: nat)
    requires temp != plane && (bytes + 1) / 2 <= temp.Length && to + (bytes + 1) / 2 <= plane.Length
    modifies plane
    ensures plane[..] == Copied(old(plane[..]), to, bytes, temp[..])
  {
    var n := bytes / 2;
    for k := 0 to n
      invariant forall i :: 0 <= i < plane.Length ==>
        plane[i] == if to <= i < to + k then temp[i - to] else old(plane[i])
    {
      plane[to + k] := temp[k];
    }
    if bytes % 2 == 1 { plane[to + n] := WithLowByte(plane[to + n], temp[n]); }
  }

  lemma LastIsDone(sample: nat -> int, c: Channel, width: nat, g: nat, temp: seq<Sample>,
    now: seq<Sample>, mid: seq<Sample>, was: seq<Sample>, at: nat)
    requires 6 * g < width < 6 * g + 6 && at + Touched(c, width) <= |mid| && |temp| == PerGroup(c)
    ensures
      && Holds(sample, FirstOf(c, g), mid, was, at) && Fills(sample, FirstOf(c, g), temp)
      && now == Copied(mid, at + FirstOf(c, g), LastBytes(c, width - 6 * g), temp)
      ==> LineDone(sample, Samples(c, width), Spills(c, width), now, was, at)
  {
    LastBytesFill(c, width, g);
    CopiedIsDone(sample, FirstOf(c, g), LastBytes(c, width - 6 * g), Samples(c, width), Spills(c, width),
      temp, now, mid, was, at);
  }

  /** The columns behind the last whole group, of one channel whose samples are `sample`. */
  method CopyLast(ghost sample: nat -> int, c: Channel, width: nat, g: nat, temp: array<Sample>, plane: array<Sample>,
    at: nat, ghost was: seq<Sample>)
    requires temp != plane && 6 * g < width < 6 * g + 6 && at + Touched(c, width) <= plane.Length
    requires temp.Length == PerGroup(c)
    modifies plane
    ensures Holds(sample, FirstOf(c, g), old(plane[..]), was, at) && Fills(sample, FirstOf(c, g), temp[..]) ==>
      LineDone(sample, Samples(c, width), Spills(c, width), plane[..], was, at)
  {
    var bytes := LastBytes(c, width - 6 * g);
    LastBytesFill(c, width, g);
    CopyBytes(temp, bytes, plane, at + FirstOf(c, g));
    LastIsDone(sample, c, width, g, temp[..], plane[..], old(plane[..]), was, at);
  }

  lemma WholeIsDone(line: seq<Byte>, c: Channel, width: nat, g: nat, now: seq<Sample>, was: seq<Sample>, at: nat)
    requires width == 6 * g
    ensures LineRead(line, c, FirstOf(c, g), now, was, at) ==>
      LineDone(ValueOf(line, c), Samples(c, width), Spills(c, width), now, was, at)
  {
  }

  function Blank(c: Channel): seq<Sample> { seq(PerGroup(c), _ => MISSING) }

  /** A plane of `length` samples has room for all that is written of `height` lines. */
  predicate HoldsLines(c: Channel, width: nat, height: nat, length: nat, lineSize: nat)
  {
    lineSize >= Samples(c, width) && (height > 0 ==> Span(height - 1, lineSize) + Touched(c, width) <= length)
  }

  /** The planes of a picture, and the samples from one line of each to the next. */
  class Picture {
    const y: array<Sample>
    const u: array<Sample>
    const v: array<Sample>
    const yLine: nat
    const uLine: nat
    const vLine: nat

    constructor (y: array<Sample>, u: array<Sample>, v: array<Sample>, yLine: nat, uLine: nat, vLine: nat)
      ensures this.y == y && this.u == u && this.v == v
      ensures this.yLine == yLine && this.uLine == uLine && this.vLine == vLine
    {
      this.y, this.u, this.v, this.yLine, this.uLine, this.vLine := y, u, v, yLine, uLine, vLine;
    }

    /** Room for `height` lines of `width` columns. */
    ghost predicate HasRoom(width: nat, height: nat)
    {
      && y != u && y != v && u != v
      && HoldsLines(Luma, width, height, y.Length, yLine)
      && HoldsLines(Cb, width, height, u.Length, uLine) && HoldsLines(Cr, width, height, v.Length, vLine)
    }

    /** The whole packet; None stands for invalid data. */
    method DecodeFrame(p: Packet) returns (ret: Option<nat>)
      requires Stride(p).Some? ==> HasRoom(p.width, p.height)
      modifies y, u, v
      ensures ret == if Stride(p).Some? then Some(|p.data|) else None
      ensures ret.None? ==> y[..] == old(y[..]) && u[..] == old(u[..]) && v[..] == old(v[..])
      ensures ret.Some? ==>
        && FrameRead(p, Luma, p.height, y[..], old(y[..]), yLine)
        && FrameRead(p, Cb, p.height, u[..], old(u[..]), uLine)
        && FrameRead(p, Cr, p.height, v[..], old(v[..]), vLine)
    {
      var stride := Stride(p);
      if stride.None? { return None; }
      LinesAreOf(p, Luma);
      LinesAreOf(p, Cb);
      LinesAreOf(p, Cr);
      DecodeLines(p.data, stride.value, p.width, p.height, ValueIn(p, Luma), ValueIn(p, Cb), ValueIn(p, Cr));
      return Some(|p.data|);
    }

    /** The loop over lines; `vy`, `vu` and `vv` are the samples to be found. */
    method DecodeLines(data: seq<Byte>, stride: nat, width: nat, height: nat,
      ghost vy: (nat, nat) -> int, ghost vu: (nat, nat) -> int, ghost vv: (nat, nat) -> int)
      requires stride >= MinStride(width) && Span(height, stride) <= |data| && HasRoom(width, height)
      requires LinesAre(vy, Luma, data, stride, height)
      requires LinesAre(vu, Cb, data, stride, height) && LinesAre(vv, Cr, data, stride, height)
      modifies y, u, v
      ensures RowsRead(vy, Luma, width, height, y[..], old(y[..]), yLine)
      ensures RowsRead(vu, Cb, width, height, u[..], old(u[..]), uLine)
      ensures RowsRead(vv, Cr, width, height, v[..], old(v[..]), vLine)
    {
      var line: nat, src: nat, lineEnd: nat := 0, 0, stride;
      ghost var ys, us, vs := y[..], u[..], v[..];
      var y0: nat, u0: nat, v0: nat := 0, 0, 0;
      while line < height
        invariant line <= height && src == Span(line, stride) && lineEnd == src + stride
        invariant y0 == Span(line, yLine) && u0 == Span(line, uLine) && v0 == Span(line, vLine)
        invariant RowsRead(vy, Luma, width, line, y[..], ys, yLine)
        invariant RowsRead(vu, Cb, width, line, u[..], us, uLine)
        invariant RowsRead(vv, Cr, width, line, v[..], vs, vLine)
      {
        SpanMonotone(line + 1, height, stride);
        SpanMonotone(line, height - 1, yLine);
        SpanMonotone(line, height - 1, uLine);
        SpanMonotone(line, height - 1, vLine);
        var bytes := data[src..lineEnd];
        assert bytes == LineAt(data, stride, line);
        NextLine(bytes, width, line, y0, u0, v0, vy, vu, vv, ys, us, vs);
        line, src, lineEnd := line + 1, src + stride, lineEnd + stride;
        y0, u0, v0 := y0 + yLine, u0 + uLine, v0 + vLine;
      }
    }

    method NextLine(line: seq<Byte>, width: nat, ghost r: nat, y0: nat, u0: nat, v0: nat,
      ghost vy: (nat, nat) -> int, ghost vu: (nat, nat) -> int, ghost vv: (nat, nat) -> int,
      ghost ys: seq<Sample>, ghost us: seq<Sample>, ghost vs: seq<Sample>)
      requires y != u && y != v && u != v && |line| >= MinStride(width)
      requires y0 + width <= y.Length && u0 + Touched(Cb, width) <= u.Length && v0 + Touched(Cr, width) <= v.Length
      requires y0 == Span(r, yLine) && u0 == Span(r, uLine) && v0 == Span(r, vLine)
      requires yLine >= width && uLine >= Samples(Cb, width) && vLine >= Samples(Cr, width)
      modifies y, u, v
      ensures RowIs(vy, Luma, r, line) && RowsRead(vy, Luma, width, r, old(y[..]), ys, yLine) ==>
        RowsRead(vy, Luma, width, r + 1, y[..], ys, yLine)
      ensures RowIs(vu, Cb, r, line) && RowsRead(vu, Cb, width, r, old(u[..]), us, uLine) ==>
        RowsRead(vu, Cb, width, r + 1, u[..], us, uLine)
      ensures RowIs(vv, Cr, r, line) && RowsRead(vv, Cr, width, r, old(v[..]), vs, vLine) ==>
        RowsRead(vv, Cr, width, r + 1, v[..], vs, vLine)
    {
      DecodeLine(line, width, y0, u0, v0);
      OneMoreLine(vy, Luma, width, r, line, y[..], old(y[..]), ys, yLine);
      OneMoreLine(vu, Cb, width, r, line, u[..], old(u[..]), us, uLine);
      OneMoreLine(vv, Cr, width, r, line, v[..], old(v[..]), vs, vLine);
    }

    /** One line, whose planes begin at `y0`, `u0` and `v0`. */
    method DecodeLine(line: seq<Byte>, width: nat, y0: nat, u0: nat, v0: nat)
      requires y != u && y != v && u != v && |line| >= MinStride(width)
      requires y0 + width <= y.Length && u0 + Touched(Cb, width) <= u.Length && v0 + Touched(Cr, width) <= v.Length
      modifies y, u, v
      ensures LineDone(ValueOf(line, Luma), Samples(Luma, width), Spills(Luma, width), y[..], old(y[..]), y0)
      ensures LineDone(ValueOf(line, Cb), Samples(Cb, width), Spills(Cb, width), u[..], old(u[..]), u0)
      ensures LineDone(ValueOf(line, Cr), Samples(Cr, width), Spills(Cr, width), v[..], old(v[..]), v0)
    {
      var yTemp := new Sample[6](_ => MISSING);
      var uTemp := new Sample[3](_ => MISSING);
      var vTemp := new Sample[3](_ => MISSING);
      assert yTemp[..] == Blank(Luma) && uTemp[..] == Blank(Cb) && vTemp[..] == Blank(Cr);
      var g := DecodeGroups(line, width, y0, u0, v0, yTemp, uTemp, vTemp);
      if 6 * g < width {
        FinishLine(line, width, g, y0, u0, v0, yTemp, uTemp, vTemp, old(y[..]), old(u[..]), old(v[..]));
      } else {
        WholeIsDone(line, Luma, width, g, y[..], old(y[..]), y0);
        WholeIsDone(line, Cb, width, g, u[..], old(u[..]), u0);
        WholeIsDone(line, Cr, width, g, v[..], old(v[..]), v0);
      }
    }

    /** The loop over groups; it stops with the last one in the arrays, or at the end of the line. */
    method DecodeGroups(line: seq<Byte>, width: nat, y0: nat, u0: nat, v0: nat,
      yTemp: array<Sample>, uTemp: array<Sample>, vTemp: array<Sample>) returns (g: nat)
      requires y != u && y != v && u != v && yTemp != uTemp && yTemp != vTemp && uTemp != vTemp
      requires y !in {yTemp, uTemp, vTemp} && u !in {yTemp, uTemp, vTemp} && v !in {yTemp, uTemp, vTemp}
      requires |line| >= MinStride(width)
      requires y0 + width <= y.Length && u0 + Touched(Cb, width) <= u.Length && v0 + Touched(Cr, width) <= v.Length
      requires LastRead(line, |line|, yTemp[..], uTemp[..], vTemp[..])
      modifies y, u, v, yTemp, uTemp, vTemp
      ensures 6 * g <= width < 6 * g + 6
      ensures LineRead(line, Luma, 6 * g, y[..], old(y[..]), y0)
      ensures LineRead(line, Cb, 3 * g, u[..], old(u[..]), u0)
      ensures LineRead(line, Cr, 3 * g, v[..], old(v[..]), v0)
      ensures 6 * g < width ==> LastRead(line, 16 * g, yTemp[..], uTemp[..], vTemp[..])
    {
      var x: nat, stop := 0, false;
      g := 0;
      while x < width && !stop
        invariant x == 6 * g <= width && (stop ==> x < width)
        invariant LineRead(line, Luma, 6 * g, y[..], old(y[..]), y0)
        invariant LineRead(line, Cb, 3 * g, u[..], old(u[..]), u0)
        invariant LineRead(line, Cr, 3 * g, v[..], old(v[..]), v0)
        invariant LastRead(line, if stop then 16 * g else |line|, yTemp[..], uTemp[..], vTemp[..])
        invariant stop ==> width - x < 6
        decreases width - x, !stop
      {
        ghost var ys, us, vs := y[..], u[..], v[..];
        stop := NextGroup(line, width, g, y0, u0, v0, yTemp, uTemp, vTemp);
        if !stop {
          OneMoreGroups(line, g, y[..], ys, old(y[..]), y0, u[..], us, old(u[..]), u0, v[..], vs, old(v[..]), v0);
          x, g := x + 6, g + 1;
        }
      }
    }

    /** The columns behind the last whole group. */
    method FinishLine(line: seq<Byte>, width: nat, g: nat, y0: nat, u0: nat, v0: nat,
      yTemp: array<Sample>, uTemp: array<Sample>, vTemp: array<Sample>,
      ghost ys: seq<Sample>, ghost us: seq<Sample>, ghost vs: seq<Sample>)
      requires y != u && y != v && u != v && 6 * g < width < 6 * g + 6
      requires y !in {yTemp, uTemp, vTemp} && u !in {yTemp, uTemp, vTemp} && v !in {yTemp, uTemp, vTemp}
      requires y0 + width <= y.Length && u0 + Touched(Cb, width) <= u.Length && v0 + Touched(Cr, width) <= v.Length
      requires LastRead(line, 16 * g, yTemp[..], uTemp[..], vTemp[..])
      requires LineRead(line, Luma, 6 * g, y[..], ys, y0)
      requires LineRead(line, Cb, 3 * g, u[..], us, u0)
      requires LineRead(line, Cr, 3 * g, v[..], vs, v0)
      modifies y, u, v
      ensures LineDone(ValueOf(line, Luma), Samples(Luma, width), Spills(Luma, width), y[..], ys, y0)
      ensures LineDone(ValueOf(line, Cb), Samples(Cb, width), Spills(Cb, width), u[..], us, u0)
      ensures LineDone(ValueOf(line, Cr), Samples(Cr, width), Spills(Cr, width), v[..], vs, v0)
    {
      assert yTemp.Length == |yTemp[..]| == 6 && uTemp.Length == |uTemp[..]| == 3 && vTemp.Length == |vTemp[..]| == 3;
      LastGroup(line, Luma, g, yTemp[..]);
      LastGroup(line, Cb, g, uTemp[..]);
      LastGroup(line, Cr, g, vTemp[..]);
      CopyLast(ValueOf(line, Luma), Luma, width, g, yTemp, y, y0, ys);
      CopyLast(ValueOf(line, Cb), Cb, width, g, uTemp, u, u0, us);
      CopyLast(ValueOf(line, Cr), Cr, width, g, vTemp, v, v0, vs);
    }

    /** One turn of that loop: into the planes, or into the arrays for the last group. */
    method NextGroup(line: seq<Byte>, width: nat, g: nat, y0: nat, u0: nat, v0: nat,
      yTemp: array<Sample>, uTemp: array<Sample>, vTemp: array<Sample>) returns (stop: bool)
      requires y != u && y != v && u != v && yTemp != uTemp && yTemp != vTemp && uTemp != vTemp
      requires y !in {yTemp, uTemp, vTemp} && u !in {yTemp, uTemp, vTemp} && v !in {yTemp, uTemp, vTemp}
      requires 6 * g < width && |line| >= MinStride(width)
      requires y0 + width <= y.Length && u0 + Touched(Cb, width) <= u.Length && v0 + Touched(Cr, width) <= v.Length
      requires LastRead(line, |line|, yTemp[..], uTemp[..], vTemp[..])
      modifies y, u, v, yTemp, uTemp, vTemp
      ensures stop == (width - 6 * g < 6)
      ensures LastRead(line, if stop then 16 * g else |line|, yTemp[..], uTemp[..], vTemp[..])
      ensures if stop then y[..] == old(y[..]) && u[..] == old(u[..]) && v[..] == old(v[..])
        else
          && GroupRead(line, 16 * g, Luma, y[..], old(y[..]), y0 + 6 * g)
          && GroupRead(line, 16 * g, Cb, u[..], old(u[..]), u0 + 3 * g)
          && GroupRead(line, 16 * g, Cr, v[..], old(v[..]), v0 + 3 * g)
          && 16 * g + 16 <= |line|
    {
      var x, src := 6 * g, 16 * g;
      var yPlane, uPlane, vPlane := y, u, v;
      var yAt, uAt, vAt := y0 + x, u0 + x / 2, v0 + x / 2;
      if width - x >= 6 { FullGroupsAreWhole(width, |line|, g); }
      if width - x < 6 || |line| - src < 16 {
        yPlane, uPlane, vPlane := yTemp, uTemp, vTemp;
        yAt, uAt, vAt := 0, 0, 0;
        BlankIsRead(line, yTemp[..], uTemp[..], vTemp[..]);
      }
      var whole := ReadGroup(line, src, yPlane, yAt, uPlane, uAt, vPlane, vAt);
      return !whole || width - x < 6;
    }
  }

  lemma LineFits(p: Packet, r: nat)
    requires Stride(p).Some? && r < p.height
    ensures Span(r + 1, Stride(p).value) <= |p.data|
  {
    SpanMonotone(r + 1, p.height, Stride(p).value);
  }

  /** The bytes of line `r`. */
  function LineAt(data: seq<Byte>, stride: nat, r: nat): seq<Byte>
  {
    if Span(r + 1, stride) <= |data| then data[Span(r, stride)..Span(r + 1, stride)] else []
  }

  function LineOf(p: Packet, r: nat): (line: seq<Byte>)
    requires Stride(p).Some? && r < p.height
    ensures |line| == Stride(p).value
  {
    LineFits(p, r);
    LineAt(p.data, Stride(p).value, r)
  }

  /** Row `r` of `value` is what is found in the line; all rows are. */
  ghost predicate RowIs(value: (nat, nat) -> int, c: Channel, r: nat, line: seq<Byte>)
  {
    forall j: nat :: value(r, j) == ValueOf(line, c)(j)
  }

  ghost predicate LinesAre(value: (nat, nat) -> int, c: Channel, data: seq<Byte>, stride: nat, height: nat)
  {
    forall r: nat :: r < height ==> RowIs(value, c, r, LineAt(data, stride, r))
  }

  lemma LinesAreOf(p: Packet, c: Channel)
    requires Stride(p).Some?
    ensures LinesAre(ValueIn(p, c), c, p.data, Stride(p).value, p.height)
  {
    forall r: nat | r < p.height ensures RowIs(ValueIn(p, c), c, r, LineAt(p.data, Stride(p).value, r)) {
      assert LineOf(p, r) == LineAt(p.data, Stride(p).value, r);
      forall j: nat ensures ValueIn(p, c)(r, j) == ValueOf(LineOf(p, r), c)(j) {}
    }
  }

  function ValueIn(p: Packet, c: Channel): (nat, nat) -> int
    requires Stride(p).Some?
  {
    (r: nat, j: nat) => if r < p.height then Value(LineOf(p, r), c, j) else MISSING
  }

  /** A plane with the byte behind each of its first `n` lines taken from `value`. */
  function RowsSpilled(value: (nat, nat) -> int, width: nat, n: nat, was: seq<Sample>, lineSize: nat): (now: seq<Sample>)
    ensures |now| == |was|
  {
    if n == 0 then was
    else SpilledInto(RowsSpilled(value, width, n - 1, was, lineSize), Behind(width, n - 1, lineSize), value(n - 1, width))
  }

  /** The index right behind the visible samples of line `r`. */
  function Behind(width: nat, r: nat, lineSize: nat): nat { Span(r, lineSize) + width }

  /** What is in a plane besides the visible samples of its first `n` lines. */
  function Besides(value: (nat, nat) -> int, width: nat, spills: bool, n: nat, was: seq<Sample>, lineSize: nat): seq<Sample>
  {
    if spills then RowsSpilled(value, width, n, was, lineSize) else was
  }

  /** The first `n` lines of a channel stand in a plane. */
  ghost predicate RowsRead(value: (nat, nat) -> int, c: Channel, width: nat, n: nat,
    now: seq<Sample>, was: seq<Sample>, lineSize: nat)
  {
    Shows(value, n, Samples(c, width), now, Besides(value, Samples(c, width), Spills(c, width), n, was, lineSize), lineSize)
  }

  ghost predicate FrameRead(p: Packet, c: Channel, n: nat, now: seq<Sample>, was: seq<Sample>, lineSize: nat)
    requires Stride(p).Some?
  {
    RowsRead(ValueIn(p, c), c, p.width, n, now, was, lineSize)
  }

  lemma OneMoreLine(value: (nat, nat) -> int, c: Channel, width: nat, n: nat, line: seq<Byte>,
    now: seq<Sample>, mid: seq<Sample>, was: seq<Sample>, lineSize: nat)
    requires lineSize >= Samples(c, width)
    ensures
      && RowIs(value, c, n, line) && RowsRead(value, c, width, n, mid, was, lineSize)
      && LineDone(ValueOf(line, c), Samples(c, width), Spills(c, width), now, mid, Span(n, lineSize))
      ==> RowsRead(value, c, width, n + 1, now, was, lineSize)
  {
    RowDone(value, ValueOf(line, c), n, Samples(c, width), Spills(c, width), now, mid, was, lineSize);
  }

  lemma RowDone(value: (nat, nat) -> int, sample: nat -> int, n: nat, width: nat, spills: bool,
    now: seq<Sample>, mid: seq<Sample>, was: seq<Sample>, lineSize: nat)
    requires lineSize >= width
    ensures
      && (forall j: nat :: value(n, j) == sample(j))
      && Shows(value, n, width, mid, Besides(value, width, spills, n, was, lineSize), lineSize)
      && LineDone(sample, width, spills, now, mid, Span(n, lineSize))
      ==> Shows(value, n + 1, width, now, Besides(value, width, spills, n + 1, was, lineSize), lineSize)
  {
    var at, before := Span(n, lineSize), Besides(value, width, spills, n, was, lineSize);
    if (forall j: nat :: value(n, j) == sample(j))
      && Shows(value, n, width, mid, before, lineSize) && LineDone(sample, width, spills, now, mid, at) {
      var spilled := if spills then SpilledInto(mid, at + width, sample(width)) else mid;
      if spills { SpillShows(value, n, width, mid, before, lineSize, sample(width)); }
      LineAsRow(value, sample, n, width, now, spilled, lineSize);
      OneMoreRow(value, n, width, now, spilled, Besides(value, width, spills, n + 1, was, lineSize), lineSize);
    }
  }

  /** The byte behind line `n` is in none of the lines before it. */
  lemma SpillShows(value: (nat, nat) -> int, n: nat, width: nat, mid: seq<Sample>, was: seq<Sample>, lineSize: nat, t: int)
    requires lineSize >= width && Shows(value, n, width, mid, was, lineSize)
    ensures
      var i := Behind(width, n, lineSize);
      Shows(value, n, width, SpilledInto(mid, i, t), SpilledInto(was, i, t), lineSize)
  {
    var i := Behind(width, n, lineSize);
    if i < |was| {
      BehindIsNotVisible(i, n, width, lineSize);
      assert mid[i] == was[i];
      OneMoreSample(value, n, width, mid, was, lineSize, i, WithLowByte(was[i], t));
    }
  }

  lemma LineAsRow(value: (nat, nat) -> int, sample: nat -> int, n: nat, width: nat,
    now: seq<Sample>, mid: seq<Sample>, lineSize: nat)
    requires forall j: nat :: value(n, j) == sample(j)
    requires Holds(sample, width, now, mid, Span(n, lineSize))
    ensures RowShown(value, n, width, now, mid, lineSize)
  {
    var at := Span(n, lineSize);
    forall i | 0 <= i < |now| ensures now[i] == if InLine(i, n, width, lineSize) then value(n, i - at) else mid[i] {
      if InLine(i, n, width, lineSize) {
        assert now[i] == sample(i - at) == value(n, i - at);
      }
    }
  }

  /** The temporary arrays hold the group at `src`, which is no group when it is the end of the line. */
  ghost predicate LastRead(line: seq<Byte>, src: nat, y: seq<Sample>, u: seq<Sample>, v: seq<Sample>)
  {
    && GroupRead(line, src, Luma, y, Blank(Luma), 0)
    && GroupRead(line, src, Cb, u, Blank(Cb), 0)
    && GroupRead(line, src, Cr, v, Blank(Cr), 0)
  }

  lemma BlankIsRead(line: seq<Byte>, y: seq<Sample>, u: seq<Sample>, v: seq<Sample>)
    requires LastRead(line, |line|, y, u, v)
    ensures y == Blank(Luma) && u == Blank(Cb) && v == Blank(Cr)
  {
  }

  // ---------------------------------------------------------------- what a line leaves behind it

  /** The lines leave no other samples behind but the ones behind their visible samples, ... */
  lemma {:induction false} SpillsNowhereElse(value: (nat, nat) -> int, width: nat, n: nat, was: seq<Sample>, lineSize: nat, i: nat)
    requires i < |was| && forall r: nat :: r < n ==> i != Behind(width, r, lineSize)
    ensures RowsSpilled(value, width, n, was, lineSize)[i] == was[i]
    decreases n
  {
    if n > 0 {
      SpillsNowhereElse(value, width, n - 1, was, lineSize, i);
      assert i != Behind(width, n - 1, lineSize);
    }
  }

  lemma BehindGrows(width: nat, r: nat, n: nat, lineSize: nat)
    requires r < n && lineSize > 0
    ensures Behind(width, r, lineSize) < Behind(width, n, lineSize)
  {
    SpanMonotone(r + 1, n, lineSize);
  }

  /** ... and each of these with one byte copied from the line. */
  lemma {:induction false} SpilledAt(value: (nat, nat) -> int, width: nat, n: nat, was: seq<Sample>, lineSize: nat, r: nat)
    requires r < n && lineSize > 0 && Behind(width, r, lineSize) < |was|
    ensures
      var i := Behind(width, r, lineSize);
      RowsSpilled(value, width, n, was, lineSize)[i] == WithLowByte(was[i], value(r, width))
    decreases n
  {
    var i := Behind(width, r, lineSize);
    if r == n - 1 {
      forall k: nat | k < r ensures i != Behind(width, k, lineSize) { BehindGrows(width, k, r, lineSize); }
      SpillsNowhereElse(value, width, r, was, lineSize, i);
    } else {
      SpilledAt(value, width, n - 1, was, lineSize, r);
      BehindGrows(width, r, n - 1, lineSize);
    }
  }

  /** The sample behind line `r` has the low byte that is copied there. */
  predicate ByteStays(value: (nat, nat) -> int, width: nat, r: nat, was: seq<Sample>, lineSize: nat)
  {
    var i := Behind(width, r, lineSize);
    i < |was| ==> was[i] % 256 == value(r, width) % 256
  }

  ghost predicate PaddingKept(height: nat, width: nat, now: seq<Sample>, was: seq<Sample>, lineSize: nat)
    requires |now| == |was|
  {
    forall i :: 0 <= i < |now| && !Visible(i, height, width, lineSize) ==> now[i] == was[i]
  }

  lemma RowsKeepPadding(value: (nat, nat) -> int, n: nat, width: nat, now: seq<Sample>, was: seq<Sample>, lineSize: nat)
    requires lineSize > width && Shows(value, n, width, now, RowsSpilled(value, width, n, was, lineSize), lineSize)
    ensures PaddingKept(n, width, now, was, lineSize) <==>
      forall r: nat :: r < n ==> ByteStays(value, width, r, was, lineSize)
  {
    if PaddingKept(n, width, now, was, lineSize) {
      forall r: nat | r < n ensures ByteStays(value, width, r, was, lineSize) {
        BehindIsPadding(r, n, width, lineSize);
        if Behind(width, r, lineSize) < |was| { SpilledAt(value, width, n, was, lineSize, r); }
      }
    }
    if forall r: nat :: r < n ==> ByteStays(value, width, r, was, lineSize) {
      forall i | 0 <= i < |now| && !Visible(i, n, width, lineSize) ensures now[i] == was[i] {
        if r: nat :| r < n && i == Behind(width, r, lineSize) {
          SpilledAt(value, width, n, was, lineSize, r);
          assert ByteStays(value, width, r, was, lineSize);
        } else {
          SpillsNowhereElse(value, width, n, was, lineSize, i);
        }
      }
    }
  }

  /**
   Decoding keeps all but the visible samples exactly if the width leaves neither two nor four chroma columns
   over, or every byte copied behind a line is the one that was there.
   */
  lemma PaddingKeptExactly(p: Packet, c: Channel, now: seq<Sample>, was: seq<Sample>, lineSize: nat)
    requires Stride(p).Some? && lineSize > Samples(c, p.width) && FrameRead(p, c, p.height, now, was, lineSize)
    ensures PaddingKept(p.height, Samples(c, p.width), now, was, lineSize) <==>
      !Spills(c, p.width) || forall r: nat :: r < p.height ==>
        ByteStays(ValueIn(p, c), Samples(c, p.width), r, was, lineSize)
  {
    if Spills(c, p.width) { RowsKeepPadding(ValueIn(p, c), p.height, Samples(c, p.width), now, was, lineSize); }
  }

  /** Eight columns in the smallest line: the byte behind the four visible Cb samples becomes zero. */
  lemma EightColumns(data: seq<Byte>, now: seq<Sample>)
    requires |data| == 21
    ensures
      var p, was := Packet(data, 8, 1, true), seq(16, _ => 1);
      && Stride(p) == Some(21)
      && (FrameRead(p, Cb, 1, now, was, 16) ==> was[4] == 1 && now[4] == 0 && !Visible(4, 1, 4, 16))
  {
    var p, was := Packet(data, 8, 1, true), seq(16, _ => 1);
    EightIsSmallest(p);
    EightSpills(ValueIn(p, Cb), now, was);
  }

  lemma EightSpills(value: (nat, nat) -> int, now: seq<Sample>, was: seq<Sample>)
    requires |was| == 16 && was[4] == 1 && value(0, 4) == MISSING
    ensures !Visible(4, 1, 4, 16)
    ensures Shows(value, 1, 4, now, RowsSpilled(value, 4, 1, was, 16), 16) ==> now[4] == 0
  {
    BehindIsPadding(0, 1, 4, 16);
    assert Behind(4, 0, 16) == 4;
    SpilledAt(value, 4, 1, was, 16, 0);
  }

  lemma EightIsSmallest(p: Packet)
    requires p.width == 8 && p.height == 1 && |p.data| == 21
    ensures Stride(p) == Some(21) && ValueIn(p, Cb)(0, 4) == MISSING
  {
    assert Span(1, 21) == 21;
    assert Stride(p) == Some(21);
    MissingIsMidRange(LineOf(p, 0), Cb, 4);
    assert Missing(21, Cb, 4);
  }

  // ---------------------------------------------------------------- what a short line leaves out

  predicate Missing(stride: nat, c: Channel, j: nat)
  {
    16 * GroupOf(c, j) + 4 * SpotOf(c, InGroup(c, j)).word + 4 > stride
  }

  /** Missing samples are those the decoder shows as mid-range, whatever is in the line. */
  lemma MissingIsMidRange(line: seq<Byte>, c: Channel, j: nat)
    ensures Missing(|line|, c, j) ==> Value(line, c, j) == MISSING
    ensures !Missing(|line|, c, j) ==> Value(line, c, j) % 64 == 0
  {
  }

  /** The bytes of a line up to the end of the word that holds the last sample of a channel. */
  function BytesUpToLast(c: Channel, width: nat): nat { 16 * (width / 6) + LastWordEnd(c, width % 6) }

  /** The same in a last group of `r` columns. */
  function LastWordEnd(c: Channel, r: nat): nat
  {
    match c
    case Luma => (if r == 0 then 0 else if r == 1 then 4 else if r <= 3 then 8 else if r == 4 then 12 else 16)
    case Cb => (if r == 0 then 0 else if r <= 2 then 4 else if r <= 4 then 8 else 12)
    case Cr => (if r == 0 then 0 else if r <= 2 then 4 else if r <= 4 then 12 else 16)
  }

  /**
   In the lines of any accepted packet, exactly which visible samples are missing: at most the last one
   of each channel, when the line ends before its word does.
   */
  lemma MissingExactly(width: nat, stride: nat, c: Channel, j: nat)
    requires width >= 2 && stride >= MinStride(width) && j < Samples(c, width)
    ensures Missing(stride, c, j) <==> j == Samples(c, width) - 1 && stride < BytesUpToLast(c, width)
  {
    var q, r := width / 6, width % 6;
    assert width == 6 * q + r && MinStride(width) == 16 * q + r * 8 / 3;
    assert j == FirstOf(c, GroupOf(c, j)) + InGroup(c, j);
    MissingInGroup(q, r, stride, c, GroupOf(c, j), InGroup(c, j));
  }

  lemma MissingInGroup(q: nat, r: nat, stride: nat, c: Channel, g: nat, i: nat)
    requires r < 6 && i < PerGroup(c) && FirstOf(c, g) + i < Samples(c, 6 * q + r) && stride >= 16 * q + r * 8 / 3
    ensures 16 * g + 4 * SpotOf(c, i).word + 4 > stride <==>
      FirstOf(c, g) + i == Samples(c, 6 * q + r) - 1 && stride < 16 * q + LastWordEnd(c, r)
  {
    assert !c.Luma? ==> Samples(c, 6 * q + r) == 3 * q + (r + 1) / 2;
    assert g <= q;
    if g == q {
      match r {
        case 0 =>
        case 1 =>
        case 2 =>
        case 3 =>
        case 4 =>
        case 5 =>
      }
    }
  }

  /** In lines of the smallest size that depends on the width alone. */
  lemma MissingSamples(width: nat, c: Channel, j: nat)
    requires width >= 2 && j < Samples(c, width)
    ensures Missing(MinStride(width), c, j) <==>
      j == Samples(c, width) - 1 &&
      match c
      case Luma => width % 6 in {1, 2, 4, 5}
      case Cb => width % 6 == 1
      case Cr => width % 6 in {1, 3, 4, 5}
  {
    MissingExactly(width, MinStride(width), c, j);
  }

  // ---------------------------------------------------------------- packing

  type Ten = x: int | 0 <= x < 1024

  /** Three samples in one word; the two bits above them are free. */
  function Join(low: Ten, mid: Ten, high: Ten): (t: nat)
    ensures t < 0x4000_0000
  {
    low + 1024 * mid + 0x10_0000 * high
  }

  function WordBytes(t: nat): (s: seq<Byte>)
    ensures |s| == 4
  {
    [t % 256, t / 256 % 256, t / 0x1_0000 % 256, t / 0x100_0000 % 256]
  }

  lemma JoinedFields(low: Ten, mid: Ten, high: Ten)
    ensures Take(Join(low, mid, high), Low) == low * 64
    ensures Take(Join(low, mid, high), Mid) == mid * 64
    ensures Take(Join(low, mid, high), High) == high * 64
  {
    var t := Join(low, mid, high);
    assert t / 1024 == mid + 1024 * high;
    assert t / 0x10_0000 == high;
  }

  lemma BytesOf(t: nat)
    requires t < 0x1_0000_0000
    ensures t == t % 256 + 0x100 * (t / 256 % 256) + 0x1_0000 * (t / 0x1_0000 % 256) + 0x100_0000 * (t / 0x100_0000 % 256)
  {
  }

  lemma WordReads(src: seq<Byte>, at: nat, t: nat)
    requires at + 4 <= |src| && src[at..at + 4] == WordBytes(t) && t < 0x1_0000_0000
    ensures Word(src, at) == t
  {
    var b := src[at..at + 4];
    assert src[at] == b[0] && src[at + 1] == b[1] && src[at + 2] == b[2] && src[at + 3] == b[3];
    BytesOf(t);
  }

  /** The samples of a line, in whole groups. */
  datatype Columns = Columns(y: seq<Ten>, u: seq<Ten>, v: seq<Ten>)
  {
    predicate Whole(n: nat) { |y| == 6 * n && |u| == |v| == 3 * n }

    function Of(c: Channel): seq<Ten>
    {
      match c case Luma => y case Cb => u case Cr => v
    }

    function Shown(c: Channel, j: nat): Sample
      requires j < |Of(c)|
    {
      var x: Ten := Of(c)[j];
      x * 64
    }

    function Word(n: nat, g: nat, w: nat): (t: nat)
      requires Whole(n) && g < n && w < 4
      ensures t < 0x4000_0000
    {
      var i, j := 6 * g, 3 * g;
      if w == 0 then Join(u[j], y[i], v[j]) else if w == 1 then Join(y[i + 1], u[j + 1], y[i + 2])
      else if w == 2 then Join(v[j + 1], y[i + 3], u[j + 2]) else Join(y[i + 4], v[j + 2], y[i + 5])
    }

    function Group(n: nat, g: nat): (s: seq<Byte>)
      requires Whole(n) && g < n
      ensures |s| == 16
    {
      WordBytes(Word(n, g, 0)) + WordBytes(Word(n, g, 1)) + WordBytes(Word(n, g, 2)) + WordBytes(Word(n, g, 3))
    }
  }

  function Concat(lines: seq<seq<Byte>>): seq<Byte>
  {
    if |lines| == 0 then [] else Concat(lines[..|lines| - 1]) + lines[|lines| - 1]
  }

  lemma {:induction false} ConcatAt(lines: seq<seq<Byte>>, size: nat, r: nat)
    requires forall i :: 0 <= i < |lines| ==> |lines[i]| == size
    ensures |Concat(lines)| == Span(|lines|, size)
    ensures r < |lines| ==> Span(r, size) + size <= |Concat(lines)| && Concat(lines)[Span(r, size)..Span(r, size) + size] == lines[r]
    decreases |lines|
  {
    if |lines| > 0 {
      var front := lines[..|lines| - 1];
      ConcatAt(front, size, r);
      if r < |lines| - 1 {
        assert Concat(lines)[Span(r, size)..Span(r, size) + size] == Concat(front)[Span(r, size)..Span(r, size) + size];
      }
    }
  }

  function Groups(cols: Columns, n: nat): seq<seq<Byte>>
    requires cols.Whole(n)
  {
    seq(n, g requires 0 <= g < n => cols.Group(n, g))
  }

  function Pack(cols: Columns, n: nat): (line: seq<Byte>)
    requires cols.Whole(n)
    ensures |line| == 16 * n
  {
    ConcatAt(Groups(cols, n), 16, 0);
    SpanIsProduct(n, 16);
    Concat(Groups(cols, n))
  }

  lemma PackAt(cols: Columns, n: nat, g: nat)
    requires cols.Whole(n) && g < n
    ensures Pack(cols, n)[16 * g..16 * g + 16] == cols.Group(n, g)
  {
    ConcatAt(Groups(cols, n), 16, g);
    SpanIsProduct(g, 16);
  }

  lemma WordInGroup(cols: Columns, n: nat, g: nat, w: nat)
    requires cols.Whole(n) && g < n && w < 4
    ensures cols.Group(n, g)[4 * w..4 * w + 4] == WordBytes(cols.Word(n, g, w))
  {
    FourParts(WordBytes(cols.Word(n, g, 0)), WordBytes(cols.Word(n, g, 1)),
      WordBytes(cols.Word(n, g, 2)), WordBytes(cols.Word(n, g, 3)));
  }

  lemma FourParts(a: seq<Byte>, b: seq<Byte>, c: seq<Byte>, d: seq<Byte>)
    requires |a| == |b| == |c| == |d| == 4
    ensures (a + b + c + d)[0..4] == a && (a + b + c + d)[4..8] == b
    ensures (a + b + c + d)[8..12] == c && (a + b + c + d)[12..16] == d
  {
  }

  /** As far as it goes, the line is what packing gives; what is behind that does not matter. */
  ghost predicate Agrees(line: seq<Byte>, cols: Columns, n: nat)
    requires cols.Whole(n)
  {
    var k := Min(|line|, 16 * n);
    line[..k] == Pack(cols, n)[..k]
  }

  /** Unpacking inverts packing, on as much of the line as there is. */
  lemma UnpackInvertsPack(line: seq<Byte>, cols: Columns, n: nat, c: Channel, j: nat)
    requires cols.Whole(n) && Agrees(line, cols, n) && j < |cols.Of(c)|
    ensures Value(line, c, j) == if Missing(|line|, c, j) then MISSING else cols.Shown(c, j)
  {
    var g, i := GroupOf(c, j), InGroup(c, j);
    assert FirstOf(c, g) + i == j;
    if !Missing(|line|, c, j) {
      assert g < n && SpotOf(c, i).word <= 3;
      LineWord(line, cols, n, g, SpotOf(c, i).word);
      FieldOfWord(cols, n, g, c, i);
      TakesField(line, c, j, cols.Word(n, g, SpotOf(c, i).word));
    }
  }

  lemma LineWord(line: seq<Byte>, cols: Columns, n: nat, g: nat, w: nat)
    requires cols.Whole(n) && Agrees(line, cols, n) && w < 4 && g < n && 16 * g + 4 * w + 4 <= |line|
    ensures Word(line, 16 * g + 4 * w) == cols.Word(n, g, w)
  {
    var k, at := Min(|line|, 16 * n), 16 * g + 4 * w;
    PackedBytes(cols, n, k, g, w);
    assert line[at..at + 4] == line[..k][at..at + 4];
    WordReads(line, at, cols.Word(n, g, w));
  }

  lemma TakesField(line: seq<Byte>, c: Channel, j: nat, t: nat)
    requires !Missing(|line|, c, j) && Word(line, 16 * GroupOf(c, j) + 4 * SpotOf(c, InGroup(c, j)).word) == t
    ensures Value(line, c, j) == Take(t, SpotOf(c, InGroup(c, j)).field)
  {
  }

  lemma PackedBytes(cols: Columns, n: nat, stride: nat, g: nat, w: nat)
    requires cols.Whole(n) && w < 4 && 16 * g + 4 * w + 4 <= stride <= 16 * n
    ensures g < n
    ensures Pack(cols, n)[..stride][16 * g + 4 * w..16 * g + 4 * w + 4] == WordBytes(cols.Word(n, g, w))
  {
    PackAt(cols, n, g);
    WordInGroup(cols, n, g, w);
    SliceOfSlice(Pack(cols, n), stride, 16 * g, 4 * w);
  }

  lemma SliceOfSlice(full: seq<Byte>, stride: nat, at: nat, k: nat)
    requires at + k + 4 <= stride <= |full| && at + 16 <= |full| && k + 4 <= 16
    ensures full[..stride][at + k..at + k + 4] == full[at..at + 16][k..k + 4]
  {
    var part := full[at..at + 16];
    var a, b := full[..stride][at + k..at + k + 4], part[k..k + 4];
    forall x | 0 <= x < 4 ensures a[x] == b[x] {
      assert part[k + x] == full[at + (k + x)];
    }
  }

  lemma FieldOfWord(cols: Columns, n: nat, g: nat, c: Channel, i: nat)
    requires cols.Whole(n) && g < n && i < PerGroup(c)
    ensures Take(cols.Word(n, g, SpotOf(c, i).word), SpotOf(c, i).field) == cols.Shown(c, FirstOf(c, g) + i)
  {
    var a, b := 6 * g, 3 * g;
    var w := SpotOf(c, i).word;
    if w == 0 {
      JoinedFields(cols.u[b], cols.y[a], cols.v[b]);
    } else if w == 1 {
      JoinedFields(cols.y[a + 1], cols.u[b + 1], cols.y[a + 2]);
    } else if w == 2 {
      JoinedFields(cols.v[b + 1], cols.y[a + 3], cols.u[b + 2]);
    } else {
      JoinedFields(cols.y[a + 4], cols.v[b + 2], cols.y[a + 5]);
    }
  }

  // ---------------------------------------------------------------- whole pictures

  /**
   The data are equal lines and `rest`: with the 012v tag, no rest and large enough lines, or else lines of
   the smallest size in a packet that could not be divided into larger ones.
   */
  ghost predicate MadeOf(p: Packet, lines: seq<seq<Byte>>, rest: seq<Byte>, size: nat)
  {
    && p.width >= 2 && p.height == |lines| > 0 && p.data == Concat(lines) + rest
    && (forall i :: 0 <= i < |lines| ==> |lines[i]| == size)
    && if p.tag012v && rest == [] then size * 3 >= p.width * 8
       else size == MinStride(p.width) && (!p.tag012v || |p.data| % |lines| != 0 || |rest| < |lines|)
  }

  /** Such a packet is accepted, and divided into these lines. */
  lemma LinesAreFound(p: Packet, lines: seq<seq<Byte>>, rest: seq<Byte>, size: nat, r: nat)
    requires MadeOf(p, lines, rest, size) && r < |lines|
    ensures Stride(p) == Some(size) && LineOf(p, r) == lines[r]
  {
    ConcatAt(lines, size, r);
    SpanIsProduct(p.height, size);
    Quotient(p.height, size, |rest|);
    assert (Concat(lines) + rest)[Span(r, size)..Span(r, size) + size] == Concat(lines)[Span(r, size)..Span(r, size) + size];
  }

  lemma Quotient(n: nat, size: nat, rest: nat)
    requires n > 0
    ensures rest < n ==> (n * size + rest) / n == size
    ensures rest == 0 ==> (n * size + rest) % n == 0
  {
    var q, m := (n * size + rest) / n, (n * size + rest) % n;
    assert n * size + rest == n * q + m && 0 <= m < n;
    assert n * (q - size) == rest - m;
    if rest < n { SmallMultiple(n, q - size); }
  }

  lemma SmallMultiple(n: int, k: int)
    requires -n < n * k < n
    ensures k == 0
  {
  }

  ghost predicate AllWhole(cols: seq<Columns>, n: nat) { forall k :: 0 <= k < |cols| ==> cols[k].Whole(n) }

  /** The lines of an accepted packet hold the samples of a picture, each as far as it goes. */
  ghost predicate Carries(p: Packet, cols: seq<Columns>, n: nat)
  {
    && Stride(p).Some? && AllWhole(cols, n) && p.width <= 6 * n && p.height == |cols|
    && forall r: nat :: r < |cols| ==> Agrees(LineOf(p, r), cols[r], n)
  }

  lemma LinesCarry(p: Packet, lines: seq<seq<Byte>>, rest: seq<Byte>, size: nat, cols: seq<Columns>, n: nat)
    requires MadeOf(p, lines, rest, size) && AllWhole(cols, n) && p.width <= 6 * n && |cols| == |lines|
    requires forall r: nat :: r < |cols| ==> Agrees(lines[r], cols[r], n)
    ensures Carries(p, cols, n)
  {
    forall r: nat | r < |cols| ensures Stride(p).Some? && Agrees(LineOf(p, r), cols[r], n) {
      LinesAreFound(p, lines, rest, size, r);
    }
    LinesAreFound(p, lines, rest, size, 0);
  }

  /** The samples of a picture as the decoder shows them. */
  function ShownIn(cols: seq<Columns>, stride: nat, c: Channel): (nat, nat) -> int
  {
    (r: nat, j: nat) =>
      if r < |cols| && j < |cols[r].Of(c)| && !Missing(stride, c, j) then cols[r].Shown(c, j) else MISSING
  }

  lemma LineRoundTrip(p: Packet, cols: seq<Columns>, n: nat, c: Channel, r: nat, j: nat)
    requires Carries(p, cols, n) && r < |cols| && j < Samples(c, p.width)
    ensures ValueIn(p, c)(r, j) == ShownIn(cols, Stride(p).value, c)(r, j)
  {
    UnpackInvertsPack(LineOf(p, r), cols[r], n, c, j);
  }

  /**
   Decoding any accepted packet that carries a picture gives every visible sample back, six bits up, but for
   the missing ones, which are mid-range; and nothing else changes but the bytes behind the lines.
   */
  lemma PictureRoundTrip(p: Packet, cols: seq<Columns>, n: nat, c: Channel, now: seq<Sample>, was: seq<Sample>, lineSize: nat)
    requires Carries(p, cols, n) && FrameRead(p, c, p.height, now, was, lineSize)
    ensures Shows(ShownIn(cols, Stride(p).value, c), p.height, Samples(c, p.width), now,
      Besides(ValueIn(p, c), Samples(c, p.width), Spills(c, p.width), p.height, was, lineSize), lineSize)
  {
    var value := ShownIn(cols, Stride(p).value, c);
    forall r: nat, j: nat | r < p.height && j < Samples(c, p.width) ensures ValueIn(p, c)(r, j) == value(r, j) {
      LineRoundTrip(p, cols, n, c, r, j);
    }
    ShowsAlike(ValueIn(p, c), value, p.height, Samples(c, p.width), now,
      Besides(ValueIn(p, c), Samples(c, p.width), Spills(c, p.width), p.height, was, lineSize), lineSize);
  }
}
