/**
 Packets that an 8BPS encoder may write, and the proof that libavcodec/8bps.c gives the image back,
 however its rows are divided into literal runs and repeated bytes.
 */
module EightBpsEncoding {
  import opened EightBps
  import opened Strides

  datatype Segment = Literal(bytes: seq<Byte>) | Run(b: Byte, n: nat)
  {
    predicate Valid() { if Literal? then 1 <= |bytes| <= 128 else 2 <= n <= 129 }

    function Bytes(): (s: seq<Byte>)
      requires Valid()
      ensures |s| >= 2
    {
      if Literal? then [|bytes| - 1] + bytes else [257 - n, b]
    }

    function Pixels(): seq<Byte> { if Literal? then bytes else Repeat(b, n) }
  }

  type Row = seq<Segment>

  predicate ValidRow(row: Row) { |row| == 0 || (row[0].Valid() && ValidRow(row[1..])) }

  function RowBytes(row: Row): seq<Byte>
    requires ValidRow(row)
  {
    if |row| == 0 then [] else row[0].Bytes() + RowBytes(row[1..])
  }

  function RowPixels(row: Row): seq<Byte>
  {
    if |row| == 0 then [] else row[0].Pixels() + RowPixels(row[1..])
  }

  /** `part` stands in `src` from `at` on. */
  ghost predicate At(src: seq<Byte>, at: nat, part: seq<Byte>)
  {
    at + |part| <= |src| && src[at..at + |part|] == part
  }

  lemma Divide(src: seq<Byte>, at: nat, a: seq<Byte>, b: seq<Byte>)
    ensures At(src, at, a + b) ==> At(src, at, a) && At(src, at + |a|, b)
  {
    if At(src, at, a + b) {
      assert src[at..at + |a|] == src[at..at + |a + b|][..|a|];
      assert src[at + |a|..at + |a| + |b|] == src[at..at + |a + b|][|a|..];
    }
  }

  lemma SegmentDecodes(src: seq<Byte>, dp: nat, dlen: nat, s: Segment, room: int, pxInc: nat)
    requires s.Valid() && At(src, dp, s.Bytes()) && Span(|s.Pixels()|, pxInc) <= room
    ensures TurnAt(src, dp, dlen, room, pxInc) == Went(dp + |s.Bytes()|, Wrap(dlen - |s.Bytes()|), s.Pixels())
  {
    assert src[dp] == src[dp..dp + |s.Bytes()|][0] == s.Bytes()[0];
    if s.Literal? {
      assert src[dp + 1..dp + |s.Bytes()|] == src[dp..dp + |s.Bytes()|][1..] == s.bytes;
    } else {
      assert src[dp + 1] == src[dp..dp + 2][1] == s.b;
    }
  }

  lemma SegmentThenRow(src: seq<Byte>, dp: nat, s: Segment, left: nat, room: int, pxInc: nat, pixels: seq<Byte>)
    requires s.Valid() && At(src, dp, s.Bytes()) && Span(|s.Pixels()|, pxInc) <= room
    requires |s.Bytes()| + left < TWO_TO_32
    ensures DecodesTo(src, dp + |s.Bytes()|, left, room - Span(|s.Pixels()|, pxInc), pxInc, pixels)
      ==> DecodesTo(src, dp, |s.Bytes()| + left, room, pxInc, s.Pixels() + pixels)
  {
    SegmentDecodes(src, dp, |s.Bytes()| + left, s, room, pxInc);
    assert Wrap(left) == left;
  }

  /** The `n` bytes at `dp` are decoded to these pixels. */
  ghost predicate DecodesTo(src: seq<Byte>, dp: nat, n: nat, room: int, pxInc: nat, pixels: seq<Byte>)
  {
    EightBps.Row(src, dp, n, room, pxInc) == RowOut(true, dp + n, pixels)
  }

  ghost predicate Decodes(src: seq<Byte>, dp: nat, row: Row, room: int, pxInc: nat)
    requires ValidRow(row)
  {
    DecodesTo(src, dp, |RowBytes(row)|, room, pxInc, RowPixels(row))
  }

  /** The segments stand one behind the other, and their pixels fit into the room. */
  ghost predicate Laid(src: seq<Byte>, dp: nat, row: Row, room: int, pxInc: nat)
    requires ValidRow(row)
    decreases |row|
  {
    |row| == 0 ||
      (var s := row[0];
       && At(src, dp, s.Bytes()) && Span(|s.Pixels()|, pxInc) <= room
       && Laid(src, dp + |s.Bytes()|, row[1..], room - Span(|s.Pixels()|, pxInc), pxInc))
  }

  lemma {:induction false} RowIsLaid(src: seq<Byte>, dp: nat, row: Row, room: int, pxInc: nat)
    requires ValidRow(row) && At(src, dp, RowBytes(row)) && Span(|RowPixels(row)|, pxInc) <= room
    ensures Laid(src, dp, row, room, pxInc)
    decreases |row|
  {
    if |row| > 0 {
      FirstSegment(src, dp, row);
      FirstPixels(row, pxInc);
      RowIsLaid(src, dp + |row[0].Bytes()|, row[1..], room - Span(|row[0].Pixels()|, pxInc), pxInc);
    }
  }

  /** The row decodes to its pixels, and so does the rest of it from any segment on. */
  ghost predicate AllDecode(src: seq<Byte>, dp: nat, row: Row, room: int, pxInc: nat)
    requires ValidRow(row)
    decreases |row|
  {
    && Decodes(src, dp, row, room, pxInc)
    && (|row| > 0 ==>
          AllDecode(src, dp + |row[0].Bytes()|, row[1..], room - Span(|row[0].Pixels()|, pxInc), pxInc))
  }

  lemma {:induction false} SegmentsDecode(src: seq<Byte>, dp: nat, row: Row, room: int, pxInc: nat)
    requires ValidRow(row) && |RowBytes(row)| < TWO_TO_32 && Laid(src, dp, row, room, pxInc)
    ensures AllDecode(src, dp, row, room, pxInc)
    decreases |row|
  {
    if |row| == 0 {
      EmptyRow(src, dp, room, pxInc);
      assert AllDecode(src, dp, [], room, pxInc);
    } else {
      RestIsShorter(row);
      SegmentsDecode(src, dp + |row[0].Bytes()|, row[1..], room - Span(|row[0].Pixels()|, pxInc), pxInc);
      OneMoreSegment(src, dp, row, room, pxInc);
    }
  }

  lemma EmptyRow(src: seq<Byte>, dp: nat, room: int, pxInc: nat)
    ensures DecodesTo(src, dp, 0, room, pxInc, [])
  {
  }

  lemma RestIsShorter(row: Row)
    requires |row| > 0 && ValidRow(row)
    ensures |RowBytes(row[1..])| < |RowBytes(row)|
  {
  }

  /** Any division of a row into segments decodes to its pixels. */
  lemma RowDecodes(src: seq<Byte>, dp: nat, row: Row, room: int, pxInc: nat)
    requires ValidRow(row) && At(src, dp, RowBytes(row)) && |RowBytes(row)| < TWO_TO_32
    requires Span(|RowPixels(row)|, pxInc) <= room
    ensures Decodes(src, dp, row, room, pxInc)
  {
    RowIsLaid(src, dp, row, room, pxInc);
    SegmentsDecode(src, dp, row, room, pxInc);
  }

  lemma OneMoreSegment(src: seq<Byte>, dp: nat, row: Row, room: int, pxInc: nat)
    requires |row| > 0 && ValidRow(row) && |RowBytes(row)| < TWO_TO_32
    requires At(src, dp, row[0].Bytes()) && Span(|row[0].Pixels()|, pxInc) <= room
    ensures AllDecode(src, dp + |row[0].Bytes()|, row[1..], room - Span(|row[0].Pixels()|, pxInc), pxInc)
      ==> AllDecode(src, dp, row, room, pxInc)
  {
    var s, rest := row[0], row[1..];
    var bytes, pixels := s.Bytes(), s.Pixels();
    assert RowBytes(row) == bytes + RowBytes(rest) && RowPixels(row) == pixels + RowPixels(rest);
    SegmentThenRow(src, dp, s, |RowBytes(rest)|, room, pxInc, RowPixels(rest));
  }

  lemma FirstSegment(src: seq<Byte>, dp: nat, row: Row)
    requires |row| > 0 && ValidRow(row) && At(src, dp, RowBytes(row))
    ensures |RowBytes(row)| == |row[0].Bytes()| + |RowBytes(row[1..])|
    ensures At(src, dp, row[0].Bytes()) && At(src, dp + |row[0].Bytes()|, RowBytes(row[1..]))
  {
    var a, b := row[0].Bytes(), RowBytes(row[1..]);
    assert RowBytes(row) == a + b;
    Divide(src, dp, a, b);
  }

  lemma FirstPixels(row: Row, pxInc: nat)
    requires |row| > 0
    ensures Span(|RowPixels(row)|, pxInc) == Span(|row[0].Pixels()|, pxInc) + Span(|RowPixels(row[1..])|, pxInc)
  {
    var a, b := row[0].Pixels(), RowPixels(row[1..]);
    assert RowPixels(row) == a + b;
    SpanAdd(|a|, |b|, pxInc);
  }

  // ---------------------------------------------------------------- planes

  /** A row that can be written into `linesize` bytes, with a length that fits into sixteen bits. */
  ghost predicate GoodRow(row: Row, linesize: nat, pxInc: nat)
  {
    ValidRow(row) && |RowBytes(row)| < 65536 && Span(|RowPixels(row)|, pxInc) <= linesize
  }

  ghost predicate GoodPlane(rows: seq<Row>, linesize: nat, pxInc: nat)
  {
    forall r :: 0 <= r < |rows| ==> GoodRow(rows[r], linesize, pxInc)
  }

  ghost predicate ValidPlane(rows: seq<Row>) { forall r :: 0 <= r < |rows| ==> ValidRow(rows[r]) }

  function PlaneBytes(rows: seq<Row>): seq<Byte>
    requires ValidPlane(rows)
  {
    if |rows| == 0 then [] else RowBytes(rows[0]) + PlaneBytes(rows[1..])
  }

  function PlanePixels(rows: seq<Row>): seq<seq<Byte>>
  {
    if |rows| == 0 then [] else [RowPixels(rows[0])] + PlanePixels(rows[1..])
  }

  function Hi(n: nat): Byte { n / 256 % 256 }

  function Lo(n: nat): Byte { n % 256 }

  function LengthBytes(rows: seq<Row>): (s: seq<Byte>)
    requires ValidPlane(rows)
    ensures |s| == 2 * |rows|
  {
    if |rows| == 0 then [] else [Hi(|RowBytes(rows[0])|), Lo(|RowBytes(rows[0])|)] + LengthBytes(rows[1..])
  }

  lemma TwoBytes(src: seq<Byte>, at: nat, n: nat)
    requires n < 65536 && At(src, at, [Hi(n), Lo(n)])
    ensures LineLength(src, at) == n
  {
    assert src[at] == src[at..at + 2][0] && src[at + 1] == src[at..at + 2][1];
  }

  lemma {:induction false} LengthAt(src: seq<Byte>, lp: nat, rows: seq<Row>, r: nat)
    requires ValidPlane(rows) && r < |rows| && |RowBytes(rows[r])| < 65536 && At(src, lp, LengthBytes(rows))
    ensures lp + 2 * r + 2 <= |src| && LineLength(src, lp + r * 2) == |RowBytes(rows[r])|
    decreases r
  {
    var n, rest := |RowBytes(rows[0])|, rows[1..];
    Divide(src, lp, [Hi(n), Lo(n)], LengthBytes(rest));
    if r == 0 {
      TwoBytes(src, lp, n);
    } else {
      assert rest[r - 1] == rows[r];
      LengthAt(src, lp + 2, rest, r - 1);
    }
  }

  /** A row decoder that gives back every row that was written. */
  ghost predicate ReadsRows(src: seq<Byte>, rowAt: RowReader, linesize: nat, pxInc: nat)
  {
    forall dp: nat, row: Row :: GoodRow(row, linesize, pxInc) && At(src, dp, RowBytes(row)) ==>
      rowAt(dp, |RowBytes(row)|) == RowOut(true, dp + |RowBytes(row)|, RowPixels(row))
  }

  /** The length of row `r` is where it is looked up, and the row is given back from wherever it stands. */
  ghost predicate RowKnown(src: seq<Byte>, lp: nat, r: nat, row: Row, rowAt: RowReader)
    requires ValidRow(row)
  {
    && lp + 2 * r + 2 <= |src| && LineLength(src, lp + r * 2) == |RowBytes(row)|
    && forall dp: nat :: At(src, dp, RowBytes(row)) ==>
      rowAt(dp, |RowBytes(row)|) == RowOut(true, dp + |RowBytes(row)|, RowPixels(row))
  }

  ghost predicate KnownFrom(src: seq<Byte>, lp: nat, row: nat, rows: seq<Row>, rowAt: RowReader)
    requires ValidPlane(rows)
    decreases |rows| - row
  {
    row >= |rows| || (RowKnown(src, lp, row, rows[row], rowAt) && KnownFrom(src, lp, row + 1, rows, rowAt))
  }

  lemma {:induction false} RowsAreKnown(src: seq<Byte>, lp: nat, row: nat, rows: seq<Row>,
    rowAt: RowReader, linesize: nat, pxInc: nat)
    requires GoodPlane(rows, linesize, pxInc) && ReadsRows(src, rowAt, linesize, pxInc)
    requires At(src, lp, LengthBytes(rows))
    ensures KnownFrom(src, lp, row, rows, rowAt)
    decreases |rows| - row
  {
    if row < |rows| {
      LengthAt(src, lp, rows, row);
      RowsAreKnown(src, lp, row + 1, rows, rowAt, linesize, pxInc);
    }
  }

  lemma {:induction false} PlaneDecodes(src: seq<Byte>, lp: nat, row: nat, rows: seq<Row>, dp: nat, rowAt: RowReader)
    requires ValidPlane(rows) && row <= |rows| && KnownFrom(src, lp, row, rows, rowAt)
    requires At(src, dp, PlaneBytes(rows[row..]))
    ensures Plane(src, lp, row, |rows|, dp, rowAt)
      == PlaneOut(true, dp + |PlaneBytes(rows[row..])|, PlanePixels(rows[row..]))
    decreases |rows| - row
  {
    if row < |rows| {
      var first, rest := rows[row], rows[row + 1..];
      assert rows[row..][1..] == rest;
      Divide(src, dp, RowBytes(first), PlaneBytes(rest));
      PlaneDecodes(src, lp, row + 1, rows, dp + |RowBytes(first)|, rowAt);
    }
  }

  // ---------------------------------------------------------------- frames

  type Image = seq<seq<Row>>

  ghost predicate ValidImage(image: Image, height: nat)
  {
    forall p :: 0 <= p < |image| ==> ValidPlane(image[p]) && |image[p]| == height
  }

  ghost predicate GoodImage(image: Image, c: Config, height: nat, linesize: nat)
  {
    |image| == |c.planemap|
    && forall p :: 0 <= p < |image| ==> GoodPlane(image[p], linesize, c.pxInc) && |image[p]| == height
  }

  function ImageBytes(image: Image, height: nat): seq<Byte>
    requires ValidImage(image, height)
  {
    if |image| == 0 then [] else PlaneBytes(image[0]) + ImageBytes(image[1..], height)
  }

  function ImagePixels(image: Image): seq<seq<seq<Byte>>>
  {
    if |image| == 0 then [] else [PlanePixels(image[0])] + ImagePixels(image[1..])
  }

  function Table(image: Image, height: nat): seq<Byte>
    requires ValidImage(image, height)
  {
    if |image| == 0 then [] else LengthBytes(image[0]) + Table(image[1..], height)
  }

  /** The packet of an image: the line lengths of all planes, then all their rows. */
  function Encode(image: Image, height: nat): seq<Byte>
    requires ValidImage(image, height)
  {
    Table(image, height) + ImageBytes(image, height)
  }

  lemma {:induction false} TableLength(image: Image, height: nat)
    requires ValidImage(image, height)
    ensures |Table(image, height)| == Span(|image|, 2 * height)
  {
    if |image| > 0 { TableLength(image[1..], height); }
  }

  lemma {:induction false} TableAt(src: seq<Byte>, at: nat, image: Image, height: nat, p: nat)
    requires ValidImage(image, height) && p < |image| && At(src, at, Table(image, height))
    ensures At(src, at + Span(p, 2 * height), LengthBytes(image[p]))
    decreases p
  {
    Divide(src, at, LengthBytes(image[0]), Table(image[1..], height));
    if p > 0 { TableAt(src, at + 2 * height, image[1..], height, p - 1); }
  }

  ghost predicate ReadsPlanes(src: seq<Byte>, image: Image, height: nat, planeAt: PlaneReader)
    requires ValidImage(image, height)
  {
    forall p: nat, dp: nat :: p < |image| && At(src, dp, PlaneBytes(image[p])) ==>
      planeAt(p, dp) == PlaneOut(true, dp + |PlaneBytes(image[p])|, PlanePixels(image[p]))
  }

  lemma {:induction false} FrameDecodes(src: seq<Byte>, p: nat, c: Config, image: Image, height: nat, dp: nat,
    planeAt: PlaneReader)
    requires ValidImage(image, height) && p <= |image| == |c.planemap| && ReadsPlanes(src, image, height, planeAt)
    requires At(src, dp, ImageBytes(image[p..], height))
    ensures Frame(p, c, dp, planeAt) == FrameOut(true, ImagePixels(image[p..]))
    decreases |image| - p
  {
    if p < |image| {
      assert image[p..][1..] == image[p + 1..];
      Divide(src, dp, PlaneBytes(image[p]), ImageBytes(image[p + 1..], height));
      FrameDecodes(src, p + 1, c, image, height, dp + |PlaneBytes(image[p])|, planeAt);
    }
  }

  lemma WholePlane(src: seq<Byte>, p: nat, c: Config, image: Image, height: nat, dp: nat,
    rowAt: RowReader, linesize: nat)
    requires GoodImage(image, c, height, linesize) && ValidImage(image, height) && p < |image|
    requires ReadsRows(src, rowAt, linesize, c.pxInc)
    requires At(src, 0, Table(image, height)) && At(src, dp, PlaneBytes(image[p]))
    ensures Plane(src, Span(p, 2 * height), 0, height, dp, rowAt)
      == PlaneOut(true, dp + |PlaneBytes(image[p])|, PlanePixels(image[p]))
  {
    TableAt(src, 0, image, height, p);
    assert image[p][0..] == image[p];
    RowsAreKnown(src, Span(p, 2 * height), 0, image[p], rowAt, linesize, c.pxInc);
    PlaneDecodes(src, Span(p, 2 * height), 0, image[p], dp, rowAt);
  }

  /**
   Decoding any division of an image into segments gives the image: each of its pixels on the byte of
   its plane, row and column, and nothing else in the frame changed.
   */
  lemma RoundTrip(image: Image, c: Config, height: nat, fb: seq<Byte>, linesize: nat)
    requires ValidConfig(c) && GoodImage(image, c, height, linesize) && ValidImage(image, height)
    requires |fb| == Span(height, linesize)
    ensures
      var end := EndOfFrame(Encode(image, height), 0, c, height, Span(|c.planemap|, 2 * height), fb, linesize);
      && end.ok && |ImagePixels(image)| <= |c.planemap|
      && Painted(fb, end.fb, ImagePixels(image), c, linesize)
  {
    var src := Encode(image, height);
    var table, bytes := Table(image, height), ImageBytes(image, height);
    assert src[0..|src|] == src;
    assert At(src, 0, table + bytes);
    Divide(src, 0, table, bytes);
    TableLength(image, height);
    assert image[0..] == image;
    var rowAt := Reader(src, linesize, c.pxInc);
    forall dp: nat, row: Row | GoodRow(row, linesize, c.pxInc) && At(src, dp, RowBytes(row))
      ensures rowAt(dp, |RowBytes(row)|) == RowOut(true, dp + |RowBytes(row)|, RowPixels(row))
    {
      RowDecodes(src, dp, row, linesize, c.pxInc);
    }
    var planeAt := PlaneReaderOf(src, height, linesize, c.pxInc);
    forall p: nat, dp: nat | p < |image| && At(src, dp, PlaneBytes(image[p]))
      ensures planeAt(p, dp) == PlaneOut(true, dp + |PlaneBytes(image[p])|, PlanePixels(image[p]))
    {
      WholePlane(src, p, c, image, height, dp, rowAt, linesize);
    }
    FrameDecodes(src, 0, c, image, height, |table|, planeAt);
    NothingIsOverwritten(src, c, height, fb, linesize);
  }
}
