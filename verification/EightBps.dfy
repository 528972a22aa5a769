/**
 The QuickTime 8BPS decoder of libavcodec/8bps.c: run-length coded planes are spread over the rows of
 one frame buffer, every plane on the bytes that `planemap` gives it.
 */
module EightBps {
  import opened Common
  import opened Strides

  type Byte = x: int | 0 <= x < 256

  const TWO_TO_32: int := 0x1_0000_0000

  // ---------------------------------------------------------------- formats

  /** What decode_init settles: the place of every plane within a pixel, and the size of a pixel. */
  datatype Config = Config(planemap: seq<nat>, pxInc: nat)

  /** `padded` is the choice of the 32-bit format for 24-bit video. */
  function Init(bitsPerSample: int, padded: bool, bigEndian: bool): Option<Config>
  {
    if bitsPerSample == 8 then Some(Config([0], 1))
    else if bitsPerSample == 24 then Some(Config([2, 1, 0], if padded then 4 else 3))
    else if bitsPerSample == 32 then Some(Config(if bigEndian then [1, 2, 3, 0] else [2, 1, 0, 3], 4))
    else None
  }

  ghost predicate ValidConfig(c: Config)
  {
    && 1 <= c.pxInc <= 4 && 1 <= |c.planemap| <= c.pxInc
    && (forall p :: 0 <= p < |c.planemap| ==> c.planemap[p] < c.pxInc)
    && (forall p, q :: 0 <= p < q < |c.planemap| ==> c.planemap[p] != c.planemap[q])
  }

  /** Every accepted format gives each plane a byte of the pixel of its own. */
  lemma PlanesHaveTheirOwnByte(bitsPerSample: int, padded: bool, bigEndian: bool)
    requires Init(bitsPerSample, padded, bigEndian).Some?
    ensures ValidConfig(Init(bitsPerSample, padded, bigEndian).value)
  {
  }

  /** The byte of a 32-bit pixel in which bits `8 * k` and on of its word stand. */
  function WordByte(k: nat, bigEndian: bool): int { if bigEndian then 3 - k else k }

  /**
   The byte of colour `p` (red, green, blue, alpha) in the pixel format: blue, green and red one after the other in
   24 bits, and words with alpha, red, green and blue from the highest byte on in 32.
   */
  function ColourByte(bitsPerSample: int, padded: bool, bigEndian: bool, p: nat): int
  {
    if bitsPerSample == 24 && !padded then 2 - p
    else WordByte(if p < 3 then 2 - p else 3, bigEndian)
  }

  /**
   A grey or palette picture has one plane and one byte. A coloured one has its planes, red first, on the bytes of
   their colours, exactly but for padded 24-bit video on a big-endian machine.
   */
  lemma ColoursAreInPlace(bitsPerSample: int, padded: bool, bigEndian: bool)
    requires Init(bitsPerSample, padded, bigEndian).Some?
    ensures
      var c := Init(bitsPerSample, padded, bigEndian).value;
      if bitsPerSample == 8 then c == Config([0], 1)
      else
        && |c.planemap| == bitsPerSample / 8 && c.pxInc == (if bitsPerSample == 24 && !padded then 3 else 4)
        && ((forall p: nat :: p < |c.planemap| ==> c.planemap[p] == ColourByte(bitsPerSample, padded, bigEndian, p))
            <==> !(bitsPerSample == 24 && padded && bigEndian))
  {
    var c := Init(bitsPerSample, padded, bigEndian).value;
    if bitsPerSample == 24 && padded && bigEndian {
      assert c.planemap[0] != ColourByte(bitsPerSample, padded, bigEndian, 0);
    }
  }

  lemma AcceptedDepths(bitsPerSample: int, padded: bool, bigEndian: bool)
    ensures Init(bitsPerSample, padded, bigEndian).Some? <==> bitsPerSample in {8, 24, 32}
  {
  }

  // ---------------------------------------------------------------- one row

  /** A difference of two unsigned 32-bit numbers, in 32 bits. */
  function Wrap(x: int): nat
    requires x >= -TWO_TO_32
  {
    if x < 0 then x + TWO_TO_32 else x
  }

  function Repeat(b: Byte, n: nat): seq<Byte> { seq(n, _ => b) }

  /** One turn of the row loop: an opcode and its pixels. */
  datatype Turn = Bad | RowFull(dp: nat) | Went(dp: nat, dlen: nat, pixels: seq<Byte>)

  /** `room` is the number of bytes left in the row. */
  function TurnAt(src: seq<Byte>, dp: nat, dlen: nat, room: int, pxInc: nat): (t: Turn)
    ensures t.Went? ==> dp < t.dp <= |src| && |t.pixels| > 0 && Span(|t.pixels|, pxInc) <= room
  {
    if |src| - dp <= 1 then Bad
    else if src[dp] <= 127 then
      var count := src[dp] + 1;
      if room < Span(count, pxInc) then RowFull(dp + 1)
      else if |src| - (dp + 1) < count then Bad
      else Went(dp + 1 + count, Wrap(dlen - (count + 1)), src[dp + 1..dp + 1 + count])
    else
      var count := 257 - src[dp];
      if room < Span(count, pxInc) then RowFull(dp + 1)
      else Went(dp + 2, Wrap(dlen - 2), Repeat(src[dp + 1], count))
  }

  datatype RowOut = RowOut(ok: bool, dp: nat, pixels: seq<Byte>)

  /** The pixels of one row. The loop ends on all data: every turn moves `dp` on, even when `dlen` wraps. */
  function Row(src: seq<Byte>, dp: nat, dlen: nat, room: int, pxInc: nat): (out: RowOut)
    ensures out.dp >= dp
    decreases |src| - dp
  {
    if dlen == 0 then RowOut(true, dp, [])
    else
      match TurnAt(src, dp, dlen, room, pxInc)
      case Bad => RowOut(false, dp, [])
      case RowFull(dp') => RowOut(true, dp', [])
      case Went(dp', dlen', pixels) =>
        var rest := Row(src, dp', dlen', room - Span(|pixels|, pxInc), pxInc);
        RowOut(rest.ok, rest.dp, pixels + rest.pixels)
  }

  /** Whatever the data, the pixels of a row fit into it. */
  lemma {:induction false} RowFits(src: seq<Byte>, dp: nat, dlen: nat, room: int, pxInc: nat)
    requires room >= 0
    ensures Span(|Row(src, dp, dlen, room, pxInc).pixels|, pxInc) <= room
    decreases |src| - dp
  {
    if dlen != 0 {
      var t := TurnAt(src, dp, dlen, room, pxInc);
      if t.Went? {
        var rest := room - Span(|t.pixels|, pxInc);
        RowFits(src, t.dp, t.dlen, rest, pxInc);
        SpanAdd(|t.pixels|, |Row(src, t.dp, t.dlen, rest, pxInc).pixels|, pxInc);
      }
    }
  }

  // ---------------------------------------------------------------- the frame buffer

  /** `pixels` written from `at` on, one every `pxInc` bytes. */
  function Store(fb: seq<Byte>, at: nat, pxInc: nat, pixels: seq<Byte>): (r: seq<Byte>)
    ensures |r| == |fb|
    decreases |pixels|
  {
    if |pixels| == 0 then fb
    else Store(if at < |fb| then fb[at := pixels[0]] else fb, at + pxInc, pxInc, pixels[1..])
  }

  lemma {:induction false} StoreAppend(fb: seq<Byte>, at: nat, pxInc: nat, a: seq<Byte>, b: seq<Byte>)
    ensures Store(fb, at, pxInc, a + b) == Store(Store(fb, at, pxInc, a), at + Span(|a|, pxInc), pxInc, b)
    decreases |a|
  {
    if |a| == 0 {
      assert a + b == b;
    } else {
      assert (a + b)[1..] == a[1..] + b;
      SpanAdd(1, |a| - 1, pxInc);
      assert Span(1, pxInc) == Span(0, pxInc) + pxInc;
      StoreAppend(if at < |fb| then fb[at := a[0]] else fb, at + pxInc, pxInc, a[1..], b);
    }
  }

  /** A literal run: `count` bytes copied to every `pxInc`-th byte from `at` on. */
  method Copy(src: seq<Byte>, from: nat, count: nat, fb: array<Byte>, at: nat, pxInc: nat)
    returns (dp: nat, pixptr: nat)
    requires from + count <= |src| && 0 < pxInc && at + Span(count, pxInc) < fb.Length + pxInc
    modifies fb
    ensures dp == from + count && pixptr == at + Span(count, pxInc)
    ensures fb[..] == Store(old(fb[..]), at, pxInc, src[from..from + count])
  {
    ghost var goal := Store(fb[..], at, pxInc, src[from..from + count]);
    var left: nat := count;
    dp, pixptr := from, at;
    while left > 0
      invariant 0 <= left <= count && dp + left == from + count && pixptr + Span(left, pxInc) == at + Span(count, pxInc)
      invariant goal == Store(fb[..], pixptr, pxInc, src[dp..dp + left])
    {
      assert src[dp..dp + left][1..] == src[dp + 1..dp + left];
      fb[pixptr] := src[dp];
      left, dp, pixptr := left - 1, dp + 1, pixptr + pxInc;
    }
  }

  /** A repeated byte, written in the same way. */
  method Fill(b: Byte, count: nat, fb: array<Byte>, at: nat, pxInc: nat) returns (pixptr: nat)
    requires 0 < pxInc && at + Span(count, pxInc) < fb.Length + pxInc
    modifies fb
    ensures pixptr == at + Span(count, pxInc)
    ensures fb[..] == Store(old(fb[..]), at, pxInc, Repeat(b, count))
  {
    ghost var goal := Store(fb[..], at, pxInc, Repeat(b, count));
    var left: nat := count;
    pixptr := at;
    while left > 0
      invariant 0 <= left <= count && pixptr + Span(left, pxInc) == at + Span(count, pxInc)
      invariant goal == Store(fb[..], pixptr, pxInc, Repeat(b, left))
    {
      assert Repeat(b, left)[1..] == Repeat(b, left - 1);
      fb[pixptr] := b;
      left, pixptr := left - 1, pixptr + pxInc;
    }
  }

  /** What is left of a row: whether it is good, where it ends, and what it leaves in the buffer. */
  datatype RowEnd = RowEnd(ok: bool, dp: nat, fb: seq<Byte>)

  function EndOfRow(src: seq<Byte>, dp: nat, dlen: nat, fb: seq<Byte>, at: nat, room: int, pxInc: nat): RowEnd
  {
    var out := Row(src, dp, dlen, room, pxInc);
    RowEnd(out.ok, out.dp, Store(fb, at, pxInc, out.pixels))
  }

  lemma TurnThenRest(src: seq<Byte>, dp: nat, dlen: nat, fb: seq<Byte>, at: nat, room: int, pxInc: nat)
    requires dlen > 0 && TurnAt(src, dp, dlen, room, pxInc).Went?
    ensures
      var t := TurnAt(src, dp, dlen, room, pxInc);
      var span := Span(|t.pixels|, pxInc);
      EndOfRow(src, dp, dlen, fb, at, room, pxInc)
        == EndOfRow(src, t.dp, t.dlen, Store(fb, at, pxInc, t.pixels), at + span, room - span, pxInc)
  {
    var t := TurnAt(src, dp, dlen, room, pxInc);
    StoreAppend(fb, at, pxInc, t.pixels, Row(src, t.dp, t.dlen, room - Span(|t.pixels|, pxInc), pxInc).pixels);
  }

  /** One row of a plane, at `start`; its end may lie behind the row, by less than a pixel. */
  method DecodeRow(src: seq<Byte>, dp0: nat, dlen0: nat, fb: array<Byte>, start: nat, linesize: nat, pxInc: nat)
    returns (ok: bool, dp: nat)
    requires 0 < pxInc && start + linesize < fb.Length + pxInc
    modifies fb
    ensures RowEnd(ok, dp, fb[..]) == EndOfRow(src, dp0, dlen0, old(fb[..]), start, linesize, pxInc)
  {
    ghost var goal := EndOfRow(src, dp0, dlen0, fb[..], start, linesize, pxInc);
    var pixptr: nat, pixptrEnd: nat, dlen: nat, stop := start, start + linesize, dlen0, false;
    ok, dp := true, dp0;
    while dlen > 0 && !stop
      invariant pixptr <= pixptrEnd && (!stop ==> ok)
      invariant goal == if stop then RowEnd(ok, dp, fb[..])
        else EndOfRow(src, dp, dlen, fb[..], pixptr, pixptrEnd - pixptr, pxInc)
      decreases |src| - dp, !stop
    {
      stop, ok, dp, dlen, pixptr := DecodeTurn(src, dp, dlen, fb, pixptr, pixptrEnd, pxInc);
    }
  }

  /** One turn of that loop. */
  method DecodeTurn(src: seq<Byte>, dp0: nat, dlen0: nat, fb: array<Byte>, at: nat, pixptrEnd: nat, pxInc: nat)
    returns (stop: bool, ok: bool, dp: nat, dlen: nat, pixptr: nat)
    requires 0 < pxInc && at <= pixptrEnd < fb.Length + pxInc && dlen0 > 0
    modifies fb
    ensures at <= pixptr <= pixptrEnd && dp0 <= dp && (!stop ==> ok && dp0 < dp <= |src|)
    ensures EndOfRow(src, dp0, dlen0, old(fb[..]), at, pixptrEnd - at, pxInc)
      == if stop then RowEnd(ok, dp, fb[..]) else EndOfRow(src, dp, dlen, fb[..], pixptr, pixptrEnd - pixptr, pxInc)
  {
    ghost var t := TurnAt(src, dp0, dlen0, pixptrEnd - at, pxInc);
    stop, ok, dp, dlen, pixptr := DecodeOp(src, dp0, dlen0, fb, at, pixptrEnd, pxInc);
    if t.Went? { TurnThenRest(src, dp0, dlen0, old(fb[..]), at, pixptrEnd - at, pxInc); }
  }

  method DecodeOp(src: seq<Byte>, dp0: nat, dlen0: nat, fb: array<Byte>, at: nat, pixptrEnd: nat, pxInc: nat)
    returns (stop: bool, ok: bool, dp: nat, dlen: nat, pixptr: nat)
    requires 0 < pxInc && at <= pixptrEnd < fb.Length + pxInc
    modifies fb
    ensures at <= pixptr <= pixptrEnd
    ensures
      match TurnAt(src, dp0, dlen0, pixptrEnd - at, pxInc)
      case Bad => stop && !ok && dp == dp0 && fb[..] == old(fb[..])
      case RowFull(dp') => stop && ok && dp == dp' && fb[..] == old(fb[..])
      case Went(dp', dlen', pixels) =>
        && !stop && ok && dp == dp' && dlen == dlen' && pixptr == at + Span(|pixels|, pxInc)
        && fb[..] == Store(old(fb[..]), at, pxInc, pixels)
  {
    stop, ok, dp, dlen, pixptr := false, true, dp0, dlen0, at;
    if |src| - dp <= 1 { return true, false, dp, dlen, pixptr; }
    var count: nat := src[dp];
    dp := dp + 1;
    if count <= 127 {
      count := count + 1;
      SpanIsProduct(count, pxInc);
      if pixptrEnd - pixptr < count * pxInc { return true, true, dp, dlen, pixptr; }
      if |src| - dp < count { return true, false, dp0, dlen, pixptr; }
      dlen := Wrap(dlen - (count + 1));
      dp, pixptr := Copy(src, dp, count, fb, pixptr, pxInc);
    } else {
      count := 257 - count;
      SpanIsProduct(count, pxInc);
      if pixptrEnd - pixptr < count * pxInc { return true, true, dp, dlen, pixptr; }
      pixptr := Fill(src[dp], count, fb, pixptr, pxInc);
      dp := dp + 1;
      dlen := Wrap(dlen - 2);
    }
  }

  // ---------------------------------------------------------------- planes and frames

  function LineLength(src: seq<Byte>, at: nat): nat
    requires at + 1 < |src|
  {
    var hi: nat, lo: nat := src[at], src[at + 1];
    hi * 256 + lo
  }

  /** A row decoder: from the place of the row in the packet and its length. */
  type RowReader = (nat, nat) -> RowOut

  function Reader(src: seq<Byte>, linesize: nat, pxInc: nat): RowReader
  {
    (dp: nat, dlen: nat) => Row(src, dp, dlen, linesize, pxInc)
  }

  /** The rows of a plane, down to the one that is bad; `lp` is the place of its line lengths. */
  datatype PlaneOut = PlaneOut(ok: bool, dp: nat, rows: seq<seq<Byte>>)

  function Plane(src: seq<Byte>, lp: nat, row: nat, height: nat, dp: nat, rowAt: RowReader): PlaneOut
    decreases height - row
  {
    if row >= height then PlaneOut(true, dp, [])
    else if |src| - lp < row * 2 + 2 then PlaneOut(false, dp, [])
    else
      var out := rowAt(dp, LineLength(src, lp + row * 2));
      if !out.ok then PlaneOut(false, out.dp, [out.pixels])
      else
        var rest := Plane(src, lp, row + 1, height, out.dp, rowAt);
        PlaneOut(rest.ok, rest.dp, [out.pixels] + rest.rows)
  }

  datatype FrameOut = FrameOut(ok: bool, planes: seq<seq<seq<Byte>>>)

  /** A plane decoder: from the number of the plane and the place of its first row. */
  type PlaneReader = (nat, nat) -> PlaneOut

  function PlaneReaderOf(src: seq<Byte>, height: nat, linesize: nat, pxInc: nat): PlaneReader
  {
    (p: nat, dp: nat) => Plane(src, Span(p, 2 * height), 0, height, dp, Reader(src, linesize, pxInc))
  }

  function Frame(p: nat, c: Config, dp: nat, planeAt: PlaneReader): FrameOut
    decreases |c.planemap| - p
  {
    if p >= |c.planemap| then FrameOut(true, [])
    else
      var out := planeAt(p, dp);
      if !out.ok then FrameOut(false, [out.rows])
      else
        var rest := Frame(p + 1, c, out.dp, planeAt);
        FrameOut(rest.ok, [out.rows] + rest.planes)
  }

  function PaintRows(fb: seq<Byte>, rows: seq<seq<Byte>>, at: nat, linesize: nat, pxInc: nat): (r: seq<Byte>)
    ensures |r| == |fb|
    decreases |rows|
  {
    if |rows| == 0 then fb
    else PaintRows(Store(fb, at, pxInc, rows[0]), rows[1..], at + linesize, linesize, pxInc)
  }

  /** Planes `p` and on, in the buffer. */
  function PaintPlanes(fb: seq<Byte>, planes: seq<seq<seq<Byte>>>, p: nat, c: Config, linesize: nat): (r: seq<Byte>)
    requires p + |planes| <= |c.planemap|
    ensures |r| == |fb|
    decreases |planes|
  {
    if |planes| == 0 then fb
    else PaintPlanes(PaintRows(fb, planes[0], c.planemap[p], linesize, c.pxInc), planes[1..], p + 1, c, linesize)
  }

  lemma LastRow(fb: seq<Byte>, pixels: seq<Byte>, at: nat, linesize: nat, pxInc: nat)
    ensures PaintRows(fb, [pixels], at, linesize, pxInc) == Store(fb, at, pxInc, pixels)
  {
    var rows := [pixels];
    assert |rows[1..]| == 0;
  }

  lemma LastPlane(fb: seq<Byte>, rows: seq<seq<Byte>>, p: nat, c: Config, linesize: nat)
    requires p < |c.planemap|
    ensures PaintPlanes(fb, [rows], p, c, linesize) == PaintRows(fb, rows, c.planemap[p], linesize, c.pxInc)
  {
    var planes := [rows];
    assert |planes[1..]| == 0;
  }

  function EndOfPlane(src: seq<Byte>, lp: nat, row: nat, height: nat, dp: nat, fb: seq<Byte>, at: nat,
    linesize: nat, pxInc: nat): RowEnd
  {
    var out := Plane(src, lp, row, height, dp, Reader(src, linesize, pxInc));
    RowEnd(out.ok, out.dp, PaintRows(fb, out.rows, at, linesize, pxInc))
  }

  lemma RowThenPlane(src: seq<Byte>, lp: nat, row: nat, height: nat, dp: nat, fb: seq<Byte>, at: nat,
    linesize: nat, pxInc: nat)
    requires row < height && |src| - lp >= row * 2 + 2
    ensures
      var end := EndOfRow(src, dp, LineLength(src, lp + row * 2), fb, at, linesize, pxInc);
      EndOfPlane(src, lp, row, height, dp, fb, at, linesize, pxInc)
        == if !end.ok then end else EndOfPlane(src, lp, row + 1, height, end.dp, end.fb, at + linesize, linesize, pxInc)
  {
    LastRow(fb, Row(src, dp, LineLength(src, lp + row * 2), linesize, pxInc).pixels, at, linesize, pxInc);
  }

  lemma RowStart(row: nat, height: nat, linesize: nat)
    requires row < height
    ensures Span(row, linesize) + linesize == Span(row + 1, linesize) <= Span(height, linesize)
  {
    SpanAdd(row + 1, height - (row + 1), linesize);
  }

  method Multiply(n: nat, size: nat) returns (r: nat)
    ensures r == Span(n, size)
  {
    SpanIsProduct(n, size);
    r := n * size;
  }

  /** The rows of one plane, which begins `offset` bytes into each pixel. */
  method DecodePlane(src: seq<Byte>, lp: nat, offset: nat, height: nat, dp0: nat, fb: array<Byte>,
    linesize: nat, pxInc: nat) returns (ok: bool, dp: nat)
    requires offset < pxInc && fb.Length == Span(height, linesize)
    modifies fb
    ensures RowEnd(ok, dp, fb[..]) == EndOfPlane(src, lp, 0, height, dp0, old(fb[..]), offset, linesize, pxInc)
  {
    ghost var goal := EndOfPlane(src, lp, 0, height, dp0, fb[..], offset, linesize, pxInc);
    var row: nat := 0;
    ok, dp := true, dp0;
    while row < height
      invariant row <= height
      invariant goal == EndOfPlane(src, lp, row, height, dp, fb[..], Span(row, linesize) + offset, linesize, pxInc)
    {
      ok, dp := NextRow(src, lp, row, height, dp, fb, offset, linesize, pxInc);
      if !ok { return; }
      row := row + 1;
    }
  }

  method NextRow(src: seq<Byte>, lp: nat, row: nat, height: nat, dp0: nat, fb: array<Byte>, offset: nat,
    linesize: nat, pxInc: nat) returns (ok: bool, dp: nat)
    requires offset < pxInc && fb.Length == Span(height, linesize) && row < height
    modifies fb
    ensures EndOfPlane(src, lp, row, height, dp0, old(fb[..]), Span(row, linesize) + offset, linesize, pxInc)
      == if !ok then RowEnd(false, dp, fb[..])
         else EndOfPlane(src, lp, row + 1, height, dp, fb[..], Span(row + 1, linesize) + offset, linesize, pxInc)
  {
    RowStart(row, height, linesize);
    if |src| - lp < row * 2 + 2 { return false, dp0; }
    var dlen := LineLength(src, lp + row * 2);
    var start := Multiply(row, linesize);
    RowThenPlane(src, lp, row, height, dp0, fb[..], start + offset, linesize, pxInc);
    ok, dp := DecodeRow(src, dp0, dlen, fb, start + offset, linesize, pxInc);
  }

  datatype FrameEnd = FrameEnd(ok: bool, fb: seq<Byte>)

  function EndOfFrame(src: seq<Byte>, p: nat, c: Config, height: nat, dp: nat, fb: seq<Byte>, linesize: nat): FrameEnd
    requires p <= |c.planemap|
  {
    FrameCount(p, c, dp, PlaneReaderOf(src, height, linesize, c.pxInc));
    var out := Frame(p, c, dp, PlaneReaderOf(src, height, linesize, c.pxInc));
    FrameEnd(out.ok, PaintPlanes(fb, out.planes, p, c, linesize))
  }

  lemma {:induction false} FrameCount(p: nat, c: Config, dp: nat, planeAt: PlaneReader)
    requires p <= |c.planemap|
    ensures p + |Frame(p, c, dp, planeAt).planes| <= |c.planemap|
    decreases |c.planemap| - p
  {
    if p < |c.planemap| {
      var out := planeAt(p, dp);
      if out.ok { FrameCount(p + 1, c, out.dp, planeAt); }
    }
  }

  lemma PlaneThenFrame(src: seq<Byte>, p: nat, c: Config, height: nat, dp: nat, fb: seq<Byte>, linesize: nat)
    requires p < |c.planemap|
    ensures
      var end := EndOfPlane(src, Span(p, 2 * height), 0, height, dp, fb, c.planemap[p], linesize, c.pxInc);
      EndOfFrame(src, p, c, height, dp, fb, linesize)
        == if !end.ok then FrameEnd(false, end.fb) else EndOfFrame(src, p + 1, c, height, end.dp, end.fb, linesize)
  {
    LastPlane(fb, PlaneReaderOf(src, height, linesize, c.pxInc)(p, dp).rows, p, c, linesize);
  }

  method DecodeFrame(src: seq<Byte>, c: Config, height: nat, fb: array<Byte>, linesize: nat) returns (ok: bool)
    requires ValidConfig(c) && fb.Length == Span(height, linesize)
    modifies fb
    ensures FrameEnd(ok, fb[..]) ==
      EndOfFrame(src, 0, c, height, Span(|c.planemap|, 2 * height), old(fb[..]), linesize)
  {
    var p: nat := 0;
    var dp := Multiply(|c.planemap|, 2 * height);
    ghost var goal := EndOfFrame(src, 0, c, height, dp, fb[..], linesize);
    while p < |c.planemap|
      invariant p <= |c.planemap|
      invariant goal == EndOfFrame(src, p, c, height, dp, fb[..], linesize)
    {
      PlaneThenFrame(src, p, c, height, dp, fb[..], linesize);
      var lp := Multiply(p, 2 * height);
      ok, dp := DecodePlane(src, lp, c.planemap[p], height, dp, fb, linesize, c.pxInc);
      if !ok { return; }
      p := p + 1;
    }
    ok := true;
  }

  // ---------------------------------------------------------------- nothing is overwritten

  /** The byte of pixel `k` of row `r` of plane `p`. */
  function Place(c: Config, linesize: nat, p: nat, r: nat, k: nat): nat
    requires p < |c.planemap|
  {
    Span(r, linesize) + c.planemap[p] + Span(k, c.pxInc)
  }

  /** A pixel that fits into its row lies inside it, at a distance congruent to the plane's place. */
  lemma PlaceIsInRow(c: Config, linesize: nat, p: nat, r: nat, k: nat, n: nat)
    requires ValidConfig(c) && p < |c.planemap| && k < n && Span(n, c.pxInc) <= linesize
    ensures r * linesize <= Place(c, linesize, p, r, k) < (r + 1) * linesize
    ensures (Place(c, linesize, p, r, k) - r * linesize) % c.pxInc == c.planemap[p]
  {
    SpanIsProduct(r, linesize);
    SpanIsProduct(r + 1, linesize);
    SpanIsProduct(k, c.pxInc);
    SpanMonotone(k + 1, n, c.pxInc);
    Residue(k, c.pxInc, c.planemap[p]);
  }

  lemma Residue(k: nat, size: nat, i: nat)
    requires 1 <= size <= 4 && i < size
    ensures (i + k * size) % size == i
  {
    if size == 1 {
    } else if size == 2 {
    } else if size == 3 {
    }
  }

  /** Two pixels share a byte only when they are the same pixel of the same row and plane. */
  lemma PlaceIsUnique(c: Config, linesize: nat, p: nat, r: nat, k: nat, p': nat, r': nat, k': nat)
    requires ValidConfig(c) && p < |c.planemap| && p' < |c.planemap|
    requires Span(k + 1, c.pxInc) <= linesize && Span(k' + 1, c.pxInc) <= linesize
    requires Place(c, linesize, p, r, k) == Place(c, linesize, p', r', k')
    ensures p == p' && r == r' && k == k'
  {
    SpanUnique(r, c.planemap[p] + Span(k, c.pxInc), r', c.planemap[p'] + Span(k', c.pxInc), linesize);
    SpanUnique(k, c.planemap[p], k', c.planemap[p'], c.pxInc);
  }

  lemma {:induction false} StoreAt(fb: seq<Byte>, at: nat, pxInc: nat, pixels: seq<Byte>, k: nat)
    requires pxInc > 0 && k < |pixels| && at + Span(k, pxInc) < |fb|
    ensures Store(fb, at, pxInc, pixels)[at + Span(k, pxInc)] == pixels[k]
    decreases |pixels|
  {
    var fb1 := if at < |fb| then fb[at := pixels[0]] else fb;
    if k == 0 {
      forall j | 0 <= j < |pixels| - 1 ensures at != at + pxInc + Span(j, pxInc) {}
      StoreElsewhere(fb1, at + pxInc, pxInc, pixels[1..], at);
    } else {
      SpanAdd(1, k - 1, pxInc);
      assert Span(1, pxInc) == Span(0, pxInc) + pxInc;
      StoreAt(fb1, at + pxInc, pxInc, pixels[1..], k - 1);
    }
  }

  lemma {:induction false} StoreElsewhere(fb: seq<Byte>, at: nat, pxInc: nat, pixels: seq<Byte>, o: nat)
    requires o < |fb| && forall k :: 0 <= k < |pixels| ==> o != at + Span(k, pxInc)
    ensures Store(fb, at, pxInc, pixels)[o] == fb[o]
    decreases |pixels|
  {
    if |pixels| > 0 {
      forall k | 0 <= k < |pixels| - 1 ensures o != at + pxInc + Span(k, pxInc) {
        SpanAdd(1, k, pxInc);
        assert Span(1, pxInc) == Span(0, pxInc) + pxInc;
        assert o != at + Span(k + 1, pxInc);
      }
      assert o != at + Span(0, pxInc);
      StoreElsewhere(if at < |fb| then fb[at := pixels[0]] else fb, at + pxInc, pxInc, pixels[1..], o);
    }
  }

  ghost predicate RowsFit(rows: seq<seq<Byte>>, linesize: nat, pxInc: nat)
  {
    forall r :: 0 <= r < |rows| ==> Span(|rows[r]|, pxInc) <= linesize
  }

  lemma {:induction false} PaintRowsElsewhere(fb: seq<Byte>, rows: seq<seq<Byte>>, at: nat, linesize: nat, pxInc: nat, o: nat)
    requires o < |fb|
    requires forall r, k :: 0 <= r < |rows| && 0 <= k < |rows[r]| ==> o != at + Span(r, linesize) + Span(k, pxInc)
    ensures PaintRows(fb, rows, at, linesize, pxInc)[o] == fb[o]
    decreases |rows|
  {
    if |rows| > 0 {
      forall k | 0 <= k < |rows[0]| ensures o != at + Span(k, pxInc) {
        assert o != at + Span(0, linesize) + Span(k, pxInc);
      }
      StoreElsewhere(fb, at, pxInc, rows[0], o);
      forall r, k | 0 <= r < |rows| - 1 && 0 <= k < |rows[1..][r]|
        ensures o != at + linesize + Span(r, linesize) + Span(k, pxInc)
      {
        assert o != at + Span(r + 1, linesize) + Span(k, pxInc);
      }
      PaintRowsElsewhere(Store(fb, at, pxInc, rows[0]), rows[1..], at + linesize, linesize, pxInc, o);
    }
  }

  lemma {:induction false} PaintRowsAt(fb: seq<Byte>, rows: seq<seq<Byte>>, at: nat, linesize: nat, pxInc: nat, r: nat, k: nat)
    requires pxInc > 0 && RowsFit(rows, linesize, pxInc) && r < |rows| && k < |rows[r]|
    requires at + Span(r, linesize) + Span(k, pxInc) < |fb|
    ensures PaintRows(fb, rows, at, linesize, pxInc)[at + Span(r, linesize) + Span(k, pxInc)] == rows[r][k]
    decreases |rows|
  {
    var fb1 := Store(fb, at, pxInc, rows[0]);
    if r == 0 {
      StoreAt(fb, at, pxInc, rows[0], k);
      SpanMonotone(k + 1, |rows[0]|, pxInc);
      PaintRowsElsewhere(fb1, rows[1..], at + linesize, linesize, pxInc, at + Span(k, pxInc));
    } else {
      assert Span(r, linesize) == Span(r - 1, linesize) + linesize;
      assert RowsFit(rows[1..], linesize, pxInc);
      PaintRowsAt(fb1, rows[1..], at + linesize, linesize, pxInc, r - 1, k);
    }
  }

  ghost predicate PlanesFit(planes: seq<seq<seq<Byte>>>, height: nat, linesize: nat, pxInc: nat)
  {
    forall p :: 0 <= p < |planes| ==> |planes[p]| <= height && RowsFit(planes[p], linesize, pxInc)
  }

  ghost predicate ReaderFits(rowAt: RowReader, linesize: nat, pxInc: nat)
  {
    forall dp, dlen :: Span(|rowAt(dp, dlen).pixels|, pxInc) <= linesize
  }

  lemma {:induction false} PlaneFits(src: seq<Byte>, lp: nat, row: nat, height: nat, dp: nat,
    rowAt: RowReader, linesize: nat, pxInc: nat)
    requires row <= height && ReaderFits(rowAt, linesize, pxInc)
    ensures
      var rows := Plane(src, lp, row, height, dp, rowAt).rows;
      |rows| <= height - row && RowsFit(rows, linesize, pxInc)
    decreases height - row
  {
    if row < height && |src| - lp >= row * 2 + 2 {
      var out := rowAt(dp, LineLength(src, lp + row * 2));
      if out.ok { PlaneFits(src, lp, row + 1, height, out.dp, rowAt, linesize, pxInc); }
    }
  }

  lemma {:induction false} FrameFits(p: nat, c: Config, dp: nat, planeAt: PlaneReader, height: nat, linesize: nat)
    requires forall p, dp :: var rows := planeAt(p, dp).rows; |rows| <= height && RowsFit(rows, linesize, c.pxInc)
    ensures PlanesFit(Frame(p, c, dp, planeAt).planes, height, linesize, c.pxInc)
    decreases |c.planemap| - p
  {
    if p < |c.planemap| {
      var out := planeAt(p, dp);
      if out.ok { FrameFits(p + 1, c, out.dp, planeAt, height, linesize); }
    }
  }

  /** Whatever the data, what is decoded fits into the rows of the frame. */
  lemma DecodedFits(src: seq<Byte>, c: Config, height: nat, linesize: nat, p: nat, dp: nat)
    ensures PlanesFit(Frame(p, c, dp, PlaneReaderOf(src, height, linesize, c.pxInc)).planes, height, linesize, c.pxInc)
  {
    var rowAt, planeAt := Reader(src, linesize, c.pxInc), PlaneReaderOf(src, height, linesize, c.pxInc);
    forall dp, dlen ensures Span(|rowAt(dp, dlen).pixels|, c.pxInc) <= linesize {
      RowFits(src, dp, dlen, linesize, c.pxInc);
    }
    forall p, dp
      ensures var rows := planeAt(p, dp).rows; |rows| <= height && RowsFit(rows, linesize, c.pxInc)
    {
      PlaneFits(src, Span(p, 2 * height), 0, height, dp, rowAt, linesize, c.pxInc);
    }
    FrameFits(p, c, dp, planeAt, height, linesize);
  }

  predicate IsPixel(planes: seq<seq<seq<Byte>>>, p: nat, r: nat, k: nat)
  {
    p < |planes| && r < |planes[p]| && k < |planes[p][r]|
  }

  /** Byte `o` belongs to no pixel of planes `p` and on. */
  ghost predicate IsClear(planes: seq<seq<seq<Byte>>>, p: nat, c: Config, linesize: nat, o: nat)
    requires p + |planes| <= |c.planemap|
  {
    forall q: nat, r: nat, k: nat :: IsPixel(planes, q, r, k) ==> o != Place(c, linesize, p + q, r, k)
  }

  lemma {:induction false} PaintPlanesElsewhere(fb: seq<Byte>, planes: seq<seq<seq<Byte>>>, p: nat, c: Config, linesize: nat, o: nat)
    requires p + |planes| <= |c.planemap| && o < |fb|
    requires IsClear(planes, p, c, linesize, o)
    ensures PaintPlanes(fb, planes, p, c, linesize)[o] == fb[o]
    decreases |planes|
  {
    if |planes| > 0 {
      var at, rows := c.planemap[p], planes[0];
      forall r, k | 0 <= r < |rows| && 0 <= k < |rows[r]| ensures o != at + Span(r, linesize) + Span(k, c.pxInc) {
        assert IsPixel(planes, 0, r, k);
      }
      PaintRowsElsewhere(fb, rows, at, linesize, c.pxInc, o);
      forall q: nat, r: nat, k: nat | IsPixel(planes[1..], q, r, k)
        ensures o != Place(c, linesize, p + 1 + q, r, k)
      {
        assert IsPixel(planes, q + 1, r, k) && p + 1 + q == p + (q + 1);
      }
      PaintPlanesElsewhere(PaintRows(fb, rows, at, linesize, c.pxInc), planes[1..], p + 1, c, linesize, o);
    }
  }

  lemma {:induction false} PaintPlanesAt(fb: seq<Byte>, planes: seq<seq<seq<Byte>>>, p: nat, c: Config,
    height: nat, linesize: nat, q: nat, r: nat, k: nat)
    requires ValidConfig(c) && p + |planes| <= |c.planemap| && |fb| == Span(height, linesize)
    requires PlanesFit(planes, height, linesize, c.pxInc)
    requires q < |planes| && r < |planes[q]| && k < |planes[q][r]|
    ensures Place(c, linesize, p + q, r, k) < |fb|
    ensures PaintPlanes(fb, planes, p, c, linesize)[Place(c, linesize, p + q, r, k)] == planes[q][r][k]
    decreases |planes|
  {
    var o := Place(c, linesize, p + q, r, k);
    InFrame(c, linesize, height, p + q, r, k, |planes[q][r]|);
    var fb1 := PaintRows(fb, planes[0], c.planemap[p], linesize, c.pxInc);
    if q == 0 {
      PaintRowsAt(fb, planes[0], c.planemap[p], linesize, c.pxInc, r, k);
      ClearOfOthers(planes, p, c, height, linesize, r, k);
      PaintPlanesElsewhere(fb1, planes[1..], p + 1, c, linesize, o);
    } else {
      assert PlanesFit(planes[1..], height, linesize, c.pxInc);
      PaintPlanesAt(fb1, planes[1..], p + 1, c, height, linesize, q - 1, r, k);
      assert p + 1 + (q - 1) == p + q;
    }
  }

  lemma ClearOfOthers(planes: seq<seq<seq<Byte>>>, p: nat, c: Config, height: nat, linesize: nat, r: nat, k: nat)
    requires ValidConfig(c) && p + |planes| <= |c.planemap| && PlanesFit(planes, height, linesize, c.pxInc)
    requires IsPixel(planes, 0, r, k)
    ensures IsClear(planes[1..], p + 1, c, linesize, Place(c, linesize, p, r, k))
  {
    forall q': nat, r': nat, k': nat | IsPixel(planes[1..], q', r', k')
      ensures Place(c, linesize, p, r, k) != Place(c, linesize, p + 1 + q', r', k')
    {
      ApartFromFirst(planes, p, c, height, linesize, r, k, q', r', k');
    }
  }

  lemma ApartFromFirst(planes: seq<seq<seq<Byte>>>, p: nat, c: Config, height: nat, linesize: nat,
    r: nat, k: nat, q': nat, r': nat, k': nat)
    requires ValidConfig(c) && p + |planes| <= |c.planemap| && PlanesFit(planes, height, linesize, c.pxInc)
    requires IsPixel(planes, 0, r, k) && IsPixel(planes[1..], q', r', k')
    ensures Place(c, linesize, p, r, k) != Place(c, linesize, p + 1 + q', r', k')
  {
    assert planes[1..][q'] == planes[q' + 1];
    Apart(planes, c, height, linesize, p, 0, r, k, q' + 1, r', k');
    assert p + (q' + 1) == p + 1 + q';
  }

  lemma InFrame(c: Config, linesize: nat, height: nat, p: nat, r: nat, k: nat, n: nat)
    requires ValidConfig(c) && p < |c.planemap| && k < n && Span(n, c.pxInc) <= linesize && r < height
    ensures Place(c, linesize, p, r, k) < Span(height, linesize) && Span(k + 1, c.pxInc) <= linesize
  {
    SpanMonotone(k + 1, n, c.pxInc);
    SpanMonotone(r + 1, height, linesize);
  }

  lemma Apart(planes: seq<seq<seq<Byte>>>, c: Config, height: nat, linesize: nat,
    p: nat, q: nat, r: nat, k: nat, q': nat, r': nat, k': nat)
    requires ValidConfig(c) && p + |planes| <= |c.planemap| && PlanesFit(planes, height, linesize, c.pxInc)
    requires q < |planes| && r < |planes[q]| && k < |planes[q][r]|
    requires q' < |planes| && r' < |planes[q']| && k' < |planes[q'][r']| && q != q'
    ensures Place(c, linesize, p + q, r, k) != Place(c, linesize, p + q', r', k')
  {
    InFrame(c, linesize, height, p + q, r, k, |planes[q][r]|);
    InFrame(c, linesize, height, p + q', r', k', |planes[q'][r']|);
    if Place(c, linesize, p + q, r, k) == Place(c, linesize, p + q', r', k') {
      PlaceIsUnique(c, linesize, p + q, r, k, p + q', r', k');
    }
  }

  ghost predicate Painted(fb: seq<Byte>, fb': seq<Byte>, planes: seq<seq<seq<Byte>>>, c: Config, linesize: nat)
    requires |planes| <= |c.planemap|
  {
    && |fb'| == |fb|
    && (forall p: nat, r: nat, k: nat :: IsPixel(planes, p, r, k) ==>
      Place(c, linesize, p, r, k) < |fb| && fb'[Place(c, linesize, p, r, k)] == planes[p][r][k])
    && forall o :: 0 <= o < |fb| && !IsPlace(planes, c, linesize, o) ==> fb'[o] == fb[o]
  }

  ghost predicate IsPlace(planes: seq<seq<seq<Byte>>>, c: Config, linesize: nat, o: nat)
    requires |planes| <= |c.planemap|
  {
    exists p: nat, r: nat, k: nat :: IsPixel(planes, p, r, k) && o == Place(c, linesize, p, r, k)
  }

  /**
   Planes and rows never overwrite each other: whatever the packet, every pixel decoded, of whichever
   plane and row, is still in its own byte when the frame is done, and every other byte is as before.
   */
  lemma NothingIsOverwritten(src: seq<Byte>, c: Config, height: nat, fb: seq<Byte>, linesize: nat)
    requires ValidConfig(c) && |fb| == Span(height, linesize)
    ensures
      var dp := Span(|c.planemap|, 2 * height);
      var out := Frame(0, c, dp, PlaneReaderOf(src, height, linesize, c.pxInc));
      && |out.planes| <= |c.planemap|
      && Painted(fb, EndOfFrame(src, 0, c, height, dp, fb, linesize).fb, out.planes, c, linesize)
  {
    var dp := Span(|c.planemap|, 2 * height);
    var planeAt := PlaneReaderOf(src, height, linesize, c.pxInc);
    var out := Frame(0, c, dp, planeAt);
    FrameCount(0, c, dp, planeAt);
    DecodedFits(src, c, height, linesize, 0, dp);
    forall p: nat, r: nat, k: nat | IsPixel(out.planes, p, r, k)
      ensures Place(c, linesize, p, r, k) < |fb|
      ensures PaintPlanes(fb, out.planes, 0, c, linesize)[Place(c, linesize, p, r, k)] == out.planes[p][r][k]
    {
      PaintPlanesAt(fb, out.planes, 0, c, height, linesize, p, r, k);
    }
    forall o | 0 <= o < |fb| && !IsPlace(out.planes, c, linesize, o)
      ensures PaintPlanes(fb, out.planes, 0, c, linesize)[o] == fb[o]
    {
      PaintPlanesElsewhere(fb, out.planes, 0, c, linesize, o);
    }
  }
}
