/**
 Raw YUV 4:2:0 pictures written to and read from a file: WriteYUV420ToFile and ReadYUV420FromFile in
 yuv420p_util.cpp. A plane without padding goes in one block, any other row by row.
 */
module Yuv420p {
  import opened Common
  import opened Strides

  type Byte = x: int | 0 <= x < 256

  /** One plane: `h` rows of `w` bytes, and the size of the block that goes at once without padding. */
  datatype Shape = Shape(w: nat, h: nat, block: nat, linesize: nat)

  /** The block is of width*height bytes for Y, and of a quarter of that for U and V. */
  function LumaShape(width: nat, height: nat, linesize: nat): Shape
  {
    Shape(width, height, Span(height, width), linesize)
  }

  function ChromaShape(width: nat, height: nat, linesize: nat): Shape
  {
    Shape(width / 2, height / 2, Span(height, width) / 4, linesize)
  }

  /** A plane of `length` bytes that the functions may be given. */
  ghost predicate Fits(s: Shape, length: nat)
  {
    && s.linesize >= s.w && Span(s.h, s.linesize) <= length
    && (s.linesize == s.w ==> s.block <= length)
  }

  // ---------------------------------------------------------------- writing

  /** The first `n` rows, one after the other. */
  function Rows(plane: seq<Byte>, w: nat, n: nat, linesize: nat): (b: seq<Byte>)
    requires w <= linesize && Span(n, linesize) <= |plane|
    ensures |b| == Span(n, w)
  {
    if n == 0 then []
    else Rows(plane, w, n - 1, linesize) + plane[Span(n - 1, linesize)..Span(n - 1, linesize) + w]
  }

  function Written(plane: seq<Byte>, s: Shape): seq<Byte>
    requires Fits(s, |plane|)
  {
    if s.linesize != s.w then Rows(plane, s.w, s.h, s.linesize) else plane[..s.block]
  }

  lemma Regroup(a: seq<Byte>, b: seq<Byte>, c: seq<Byte>)
    ensures (a + b) + c == a + (b + c)
  {
  }

  class File {
    var data: seq<Byte>
    var pos: nat

    constructor (data: seq<Byte>)
      ensures this.data == data && pos == 0
    {
      this.data, pos := data, 0;
    }

    /** fwrite at the end of the file. */
    method Write(plane: array<Byte>, at: nat, n: nat)
      requires at + n <= plane.Length
      modifies `data
      ensures data == old(data) + plane[at..at + n]
    {
      data := data + plane[at..at + n];
    }

    /** fread: as many bytes as there are. */
    method Read(plane: array<Byte>, at: nat, n: nat)
      requires at + n <= plane.Length && pos <= |data|
      modifies `pos, plane
      ensures Step(plane[..], pos) == Fread(old(plane[..]), at, n, data, old(pos))
    {
      var k := Min(n, |data| - pos);
      for i := 0 to k
        invariant pos == old(pos)
        invariant forall j :: 0 <= j < plane.Length ==>
          plane[j] == if at <= j < at + i then data[pos + (j - at)] else old(plane[j])
      {
        plane[at + i] := data[pos + i];
      }
      pos := pos + k;
    }

    method WritePlane(plane: array<Byte>, s: Shape)
      requires Fits(s, plane.Length)
      modifies `data
      ensures data == old(data) + Written(plane[..], s)
    {
      if s.linesize != s.w {
        var i, from: nat := 0, 0;
        while i < s.h
          invariant i <= s.h && from == Span(i, s.linesize) <= plane.Length
          invariant data == old(data) + Rows(plane[..], s.w, i, s.linesize)
        {
          SpanMonotone(i + 1, s.h, s.linesize);
          ghost var rows, row := Rows(plane[..], s.w, i, s.linesize), plane[from..from + s.w];
          Write(plane, from, s.w);
          Regroup(old(data), rows, row);
          assert Rows(plane[..], s.w, i + 1, s.linesize) == rows + row;
          i, from := i + 1, from + s.linesize;
        }
      } else {
        Write(plane, 0, s.block);
      }
    }

    method ReadPlane(plane: array<Byte>, s: Shape)
      requires Fits(s, plane.Length) && pos <= |data|
      modifies `pos, plane
      ensures Step(plane[..], pos) == PlaneRead(old(plane[..]), s, data, old(pos))
    {
      if s.linesize != s.w {
        var i, to: nat := 0, 0;
        ghost var goal := RowsRead(plane[..], s, 0, data, pos);
        while i < s.h
          invariant i <= s.h && to == Span(i, s.linesize) && pos <= |data|
          invariant goal == RowsRead(plane[..], s, i, data, pos)
        {
          SpanMonotone(i + 1, s.h, s.linesize);
          Read(plane, to, s.w);
          i, to := i + 1, to + s.linesize;
        }
      } else {
        Read(plane, 0, s.block);
      }
    }
  }

  // ---------------------------------------------------------------- reading

  /** A plane, and the place in the file. */
  datatype Step = Step(plane: seq<Byte>, pos: nat)

  function Fread(plane: seq<Byte>, at: nat, n: nat, data: seq<Byte>, pos: nat): (r: Step)
    requires at + n <= |plane| && pos <= |data|
    ensures |r.plane| == |plane| && pos <= r.pos <= |data|
  {
    var k := Min(n, |data| - pos);
    Step(plane[..at] + data[pos..pos + k] + plane[at + k..], pos + k)
  }

  /** Rows `i` and on. */
  function RowsRead(plane: seq<Byte>, s: Shape, i: nat, data: seq<Byte>, pos: nat): (r: Step)
    requires Fits(s, |plane|) && pos <= |data|
    ensures |r.plane| == |plane| && pos <= r.pos <= |data|
    decreases s.h - i
  {
    if i >= s.h then Step(plane, pos)
    else
      SpanMonotone(i + 1, s.h, s.linesize);
      var r := Fread(plane, Span(i, s.linesize), s.w, data, pos);
      RowsRead(r.plane, s, i + 1, data, r.pos)
  }

  function PlaneRead(plane: seq<Byte>, s: Shape, data: seq<Byte>, pos: nat): (r: Step)
    requires Fits(s, |plane|) && pos <= |data|
    ensures |r.plane| == |plane| && pos <= r.pos <= |data|
  {
    if s.linesize != s.w then RowsRead(plane, s, 0, data, pos) else Fread(plane, 0, s.block, data, pos)
  }

  // ---------------------------------------------------------------- pictures

  /**
   The three planes of a picture, Y, U and V, with their line sizes. In memory the chroma planes of an odd
   size are rounded up; the functions here move width/2 columns and height/2 lines of them.
   */
  datatype Picture = Picture(width: nat, height: nat, planes: seq<seq<Byte>>, linesizes: seq<nat>)
  {
    function ShapeOf(k: nat): Shape
      requires k < |linesizes|
    {
      if k == 0 then LumaShape(width, height, linesizes[k]) else ChromaShape(width, height, linesizes[k])
    }

    /** The columns and lines of plane `k`. */
    function Columns(k: nat): nat { if k == 0 then width else (width + 1) / 2 }

    function Lines(k: nat): nat { if k == 0 then height else (height + 1) / 2 }

    /** Each plane has room for its lines. */
    ghost predicate LaidOut()
    {
      && |planes| == |linesizes| == 3
      && forall k :: 0 <= k < 3 ==> linesizes[k] >= Columns(k) && Span(Lines(k), linesizes[k]) <= |planes[k]|
    }

    ghost predicate Valid()
    {
      LaidOut() && forall k :: 0 <= k < 3 ==> Fits(ShapeOf(k), |planes[k]|)
    }

    function PlaneBytes(k: nat): seq<Byte>
      requires Valid() && k < 3
    {
      Written(planes[k], ShapeOf(k))
    }

    /** Plane `k` and the ones after it. */
    function BytesFrom(k: nat): seq<Byte>
      requires Valid() && k <= 3
      decreases 3 - k
    {
      if k == 3 then [] else PlaneBytes(k) + BytesFrom(k + 1)
    }

    function FileBytes(): seq<Byte>
      requires Valid()
    {
      BytesFrom(0)
    }

    /** The part of plane `k` that belongs in a file, row by row. */
    function StoredPart(k: nat): seq<Byte>
      requires Valid() && k < 3
    {
      Rows(planes[k], ShapeOf(k).w, ShapeOf(k).h, linesizes[k])
    }

    /** All that plane `k` shows, row by row. */
    function WholePart(k: nat): seq<Byte>
      requires LaidOut() && k < 3
    {
      Rows(planes[k], Columns(k), Lines(k), linesizes[k])
    }

    function Read(k: nat, data: seq<Byte>, pos: nat): Step
      requires Valid() && k < 3 && pos <= |data|
    {
      PlaneRead(planes[k], ShapeOf(k), data, pos)
    }

    /** Plane `k` and the ones after it, each read from where the one before it ends. */
    function ReadFrom(k: nat, data: seq<Byte>, pos: nat): (r: Reading)
      requires Valid() && k <= 3 && pos <= |data|
      ensures |r.planes| == 3 - k
      decreases 3 - k
    {
      if k == 3 then Reading([], pos)
      else
        var step := Read(k, data, pos);
        var rest := ReadFrom(k + 1, data, step.pos);
        Reading([step.plane] + rest.planes, rest.pos)
    }
  }

  /** The planes after reading, and the place in the file. */
  datatype Reading = Reading(planes: seq<seq<Byte>>, pos: nat)

  class Frame {
    const width: nat
    const height: nat
    const y: array<Byte>
    const u: array<Byte>
    const v: array<Byte>
    const linesizes: seq<nat>

    constructor (width: nat, height: nat, y: array<Byte>, u: array<Byte>, v: array<Byte>, linesizes: seq<nat>)
      ensures View() == Picture(width, height, [y[..], u[..], v[..]], linesizes)
      ensures this.y == y && this.u == u && this.v == v
    {
      this.width, this.height, this.y, this.u, this.v, this.linesizes := width, height, y, u, v, linesizes;
    }

    ghost function View(): Picture
      reads y, u, v
    {
      Picture(width, height, [y[..], u[..], v[..]], linesizes)
    }

    method WriteToFile(f: File)
      requires View().Valid()
      modifies f`data
      ensures f.data == old(f.data) + View().FileBytes()
    {
      PlanesFit();
      f.WritePlane(y, LumaShape(width, height, linesizes[0]));
      f.WritePlane(u, ChromaShape(width, height, linesizes[1]));
      f.WritePlane(v, ChromaShape(width, height, linesizes[2]));
      ThreePlanes(View(), old(f.data));
    }

    method ReadFromFile(f: File)
      requires View().Valid() && f.pos <= |f.data| && y != u && y != v && u != v
      modifies f`pos, y, u, v
      ensures
        var r := old(View()).ReadFrom(0, f.data, old(f.pos));
        View().planes == r.planes && f.pos == r.pos
    {
      PlanesFit();
      f.ReadPlane(y, LumaShape(width, height, linesizes[0]));
      f.ReadPlane(u, ChromaShape(width, height, linesizes[1]));
      f.ReadPlane(v, ChromaShape(width, height, linesizes[2]));
    }

    lemma PlanesFit()
      requires View().Valid()
      ensures |linesizes| == 3
      ensures Fits(LumaShape(width, height, linesizes[0]), y.Length)
      ensures Fits(ChromaShape(width, height, linesizes[1]), u.Length)
      ensures Fits(ChromaShape(width, height, linesizes[2]), v.Length)
    {
      var p := View();
      assert Fits(p.ShapeOf(0), |p.planes[0]|) && Fits(p.ShapeOf(1), |p.planes[1]|) && Fits(p.ShapeOf(2), |p.planes[2]|);
    }
  }

  // ---------------------------------------------------------------- the block and the rows

  /** Every picture laid out as above may be given to the functions: no block is longer than its plane. */
  lemma LaidOutIsValid(p: Picture)
    requires p.LaidOut()
    ensures p.Valid()
  {
    forall k | 0 <= k < 3 ensures Fits(p.ShapeOf(k), |p.planes[k]|) {
      var s, length := p.ShapeOf(k), |p.planes[k]|;
      assert s.linesize >= p.Columns(k) && Span(p.Lines(k), s.linesize) <= length;
      SpanMonotone(s.h, p.Lines(k), s.linesize);
      if k > 0 && s.linesize == s.w { BlockInPlane(p.width, p.height); }
    }
  }

  /** For an even width the chroma block is half a line longer than its rows when the height is odd. */
  lemma BlockSize(width: nat, height: nat)
    requires width % 2 == 0
    ensures Span(height, width) / 4 == Span(height / 2, width / 2) + if height % 2 == 0 then 0 else width / 4
  {
    var a, b := width / 2, height / 2;
    SpanTwice(height, a);
    SpanAdd(b, b, a);
    assert height % 2 == 1 ==> Span(height, a) == Span(b + b, a) + a;
  }

  lemma {:induction false} SpanTwice(n: nat, size: nat)
    ensures Span(n, 2 * size) == 2 * Span(n, size)
  {
    if n > 0 { SpanTwice(n - 1, size); }
  }

  lemma BlockInPlane(width: nat, height: nat)
    requires width % 2 == 0
    ensures Span(height, width) / 4 <= Span((height + 1) / 2, width / 2)
  {
    BlockSize(width, height);
  }

  /** Sizes for which the block, where it is used, is the size of the rows. */
  predicate Regular(width: nat, height: nat) { width % 2 == 1 || height % 2 == 0 || width <= 2 }

  predicate BlockIsRows(s: Shape) { s.block == Span(s.h, s.w) }

  predicate MovesRows(s: Shape) { s.linesize == s.w ==> BlockIsRows(s) }

  /** Where it is used, the block covers the rows. */
  predicate CoversRows(s: Shape) { s.linesize == s.w ==> Span(s.h, s.w) <= s.block }

  lemma BlockCoversRows(p: Picture, k: nat)
    requires p.Valid() && k < 3
    ensures CoversRows(p.ShapeOf(k))
  {
    assert p.linesizes[k] >= p.Columns(k);
    if p.width % 2 == 0 { BlockSize(p.width, p.height); }
  }

  lemma RegularMovesRows(p: Picture, k: nat)
    requires p.Valid() && Regular(p.width, p.height) && k < 3
    ensures MovesRows(p.ShapeOf(k))
  {
    assert p.linesizes[k] >= p.Columns(k);
    if p.width % 2 == 0 { BlockSize(p.width, p.height); }
  }

  lemma {:induction false} RowsWithoutPadding(plane: seq<Byte>, w: nat, n: nat)
    requires Span(n, w) <= |plane|
    ensures Rows(plane, w, n, w) == plane[..Span(n, w)]
  {
    if n > 0 {
      RowsWithoutPadding(plane, w, n - 1);
      assert plane[..Span(n, w)] == plane[..Span(n - 1, w)] + plane[Span(n - 1, w)..Span(n - 1, w) + w];
    }
  }

  /** The fast way writes what the slow way writes, when the block is the size of the rows. */
  lemma BlockEqualsRows(plane: seq<Byte>, s: Shape)
    requires Fits(s, |plane|) && MovesRows(s)
    ensures Written(plane, s) == Rows(plane, s.w, s.h, s.linesize)
  {
    RowsWithoutPadding(plane, s.w, if s.linesize == s.w then s.h else 0);
  }

  lemma FileIsStoredParts(p: Picture)
    requires p.Valid() && Regular(p.width, p.height)
    ensures forall k :: 0 <= k < 3 ==> p.PlaneBytes(k) == p.StoredPart(k)
  {
    forall k | 0 <= k < 3 ensures p.PlaneBytes(k) == p.StoredPart(k) {
      RegularMovesRows(p, k);
      assert Fits(p.ShapeOf(k), |p.planes[k]|);
      BlockEqualsRows(p.planes[k], p.ShapeOf(k));
    }
  }

  /** Two pictures that look the same. */
  ghost predicate SamePicture(p: Picture, q: Picture)
    requires p.Valid() && q.Valid()
  {
    p.width == q.width && p.height == q.height && forall k :: 0 <= k < 3 ==> p.WholePart(k) == q.WholePart(k)
  }

  lemma SplitAlike(a: seq<Byte>, b: seq<Byte>, c: seq<Byte>, d: seq<Byte>)
    requires a + b == c + d && |a| == |c|
    ensures a == c && b == d
  {
    assert a == (a + b)[..|a|] && c == (c + d)[..|a|];
    assert b == (a + b)[|a|..] && d == (c + d)[|a|..];
  }

  /** Row `r` of two planes is the same. */
  ghost predicate SameRow(a: seq<Byte>, la: nat, b: seq<Byte>, lb: nat, w: nat, r: nat)
  {
    && Span(r, la) + w <= |a| && Span(r, lb) + w <= |b|
    && a[Span(r, la)..Span(r, la) + w] == b[Span(r, lb)..Span(r, lb) + w]
  }

  lemma {:induction false} RowsGiveRow(a: seq<Byte>, la: nat, b: seq<Byte>, lb: nat, w: nat, h: nat, r: nat)
    requires w <= la && w <= lb && r < h && Span(h, la) <= |a| && Span(h, lb) <= |b|
    requires Rows(a, w, h, la) == Rows(b, w, h, lb)
    ensures SameRow(a, la, b, lb, w, r)
    decreases h
  {
    var i, j := Span(h - 1, la), Span(h - 1, lb);
    SplitAlike(Rows(a, w, h - 1, la), a[i..i + w], Rows(b, w, h - 1, lb), b[j..j + w]);
    if r < h - 1 { RowsGiveRow(a, la, b, lb, w, h - 1, r); }
  }

  lemma {:induction false} RowsFromRows(a: seq<Byte>, la: nat, b: seq<Byte>, lb: nat, w: nat, h: nat)
    requires w <= la && w <= lb && Span(h, la) <= |a| && Span(h, lb) <= |b|
    requires forall r: nat :: r < h ==> SameRow(a, la, b, lb, w, r)
    ensures Rows(a, w, h, la) == Rows(b, w, h, lb)
    decreases h
  {
    if h > 0 {
      assert SameRow(a, la, b, lb, w, h - 1);
      RowsFromRows(a, la, b, lb, w, h - 1);
    }
  }

  lemma NarrowerRow(a: seq<Byte>, la: nat, b: seq<Byte>, lb: nat, w: nat, w0: nat, r: nat)
    requires SameRow(a, la, b, lb, w, r) && w0 <= w
    ensures SameRow(a, la, b, lb, w0, r)
  {
    var i, j := Span(r, la), Span(r, lb);
    assert a[i..i + w0] == a[i..i + w][..w0] && b[j..j + w0] == b[j..j + w][..w0];
  }

  /** Planes that show the same show the same in fewer columns and lines. */
  lemma FewerRows(a: seq<Byte>, la: nat, b: seq<Byte>, lb: nat, w: nat, h: nat, w0: nat, h0: nat)
    requires w0 <= w <= la && w <= lb && h0 <= h && Span(h, la) <= |a| && Span(h, lb) <= |b|
    ensures Span(h0, la) <= |a| && Span(h0, lb) <= |b|
    ensures Rows(a, w, h, la) == Rows(b, w, h, lb) ==> Rows(a, w0, h0, la) == Rows(b, w0, h0, lb)
  {
    SpanMonotone(h0, h, la);
    SpanMonotone(h0, h, lb);
    if Rows(a, w, h, la) == Rows(b, w, h, lb) {
      forall r: nat | r < h0 ensures SameRow(a, la, b, lb, w0, r) {
        RowsGiveRow(a, la, b, lb, w, h, r);
        NarrowerRow(a, la, b, lb, w, w0, r);
      }
      RowsFromRows(a, la, b, lb, w0, h0);
    }
  }

  /** What is written depends on what the picture shows, whatever the line sizes, ... */
  lemma WritingIgnoresLinesizes(p: Picture, q: Picture)
    requires p.Valid() && q.Valid() && SamePicture(p, q) && Regular(p.width, p.height)
    ensures p.FileBytes() == q.FileBytes()
  {
    FileIsStoredParts(p);
    FileIsStoredParts(q);
    forall k | 0 <= k < 3 ensures p.PlaneBytes(k) == q.PlaneBytes(k) {
      var s := p.ShapeOf(k);
      assert p.linesizes[k] >= p.Columns(k) && q.linesizes[k] >= q.Columns(k);
      assert p.WholePart(k) == q.WholePart(k);
      FewerRows(p.planes[k], p.linesizes[k], q.planes[k], q.linesizes[k], p.Columns(k), p.Lines(k), s.w, s.h);
    }
  }

  ghost predicate Independent(width: nat, height: nat)
  {
    forall p: Picture, q: Picture ::
      p.Valid() && q.Valid() && p.width == width && p.height == height && SamePicture(p, q)
      ==> p.FileBytes() == q.FileBytes()
  }

  function Zeros(n: nat): seq<Byte> { seq(n, _ => 0) }

  /** A picture of zeros whose U plane has `padding` bytes behind each row. */
  function Plain(width: nat, height: nat, padding: nat): Picture
  {
    var w, h := (width + 1) / 2, (height + 1) / 2;
    Picture(width, height, [Zeros(Span(height, width)), Zeros(Span(h, w + padding)), Zeros(Span(h, w))],
      [width, w + padding, w])
  }

  lemma {:induction false} RowsOfZeros(n: nat, w: nat, h: nat, linesize: nat)
    requires w <= linesize && Span(h, linesize) <= n
    ensures Rows(Zeros(n), w, h, linesize) == Zeros(Span(h, w))
    decreases h
  {
    if h > 0 { RowsOfZeros(n, w, h - 1, linesize); }
  }

  lemma PlainIsValid(width: nat, height: nat, padding: nat)
    ensures Plain(width, height, padding).Valid()
  {
    LaidOutIsValid(Plain(width, height, padding));
  }

  function WholeSize(width: nat, height: nat, k: nat): nat
  {
    if k == 0 then Span(height, width) else Span((height + 1) / 2, (width + 1) / 2)
  }

  lemma PlainIsZero(width: nat, height: nat, padding: nat, k: nat)
    requires k < 3
    ensures
      var p := Plain(width, height, padding);
      p.LaidOut() && p.WholePart(k) == Zeros(WholeSize(width, height, k))
  {
    var p := Plain(width, height, padding);
    PlainIsValid(width, height, padding);
    var w, h, linesize := p.Columns(k), p.Lines(k), p.linesizes[k];
    var n := Span(h, linesize);
    assert p.planes[k] == Zeros(n);
    RowsOfZeros(n, w, h, linesize);
  }

  lemma PlainsLookAlike(width: nat, height: nat)
    ensures
      var p, q := Plain(width, height, 0), Plain(width, height, 1);
      p.Valid() && q.Valid() && SamePicture(p, q)
  {
    var p, q := Plain(width, height, 0), Plain(width, height, 1);
    PlainIsValid(width, height, 0);
    PlainIsValid(width, height, 1);
    forall k: nat | k < 3 ensures p.WholePart(k) == q.WholePart(k) {
      PlainIsZero(width, height, 0, k);
      PlainIsZero(width, height, 1, k);
    }
  }

  lemma ThreePlanes(p: Picture, data: seq<Byte>)
    requires p.Valid()
    ensures data + p.PlaneBytes(0) + p.PlaneBytes(1) + p.PlaneBytes(2) == data + p.FileBytes()
  {
    var a, b, c := p.PlaneBytes(0), p.PlaneBytes(1), p.PlaneBytes(2);
    assert p.BytesFrom(2) == c + p.BytesFrom(3) == c;
    assert p.BytesFrom(1) == b + p.BytesFrom(2);
    Regroup(data + a, b, c);
    Regroup(data, a, b + c);
  }

  function WrittenSize(s: Shape): nat { if s.linesize != s.w then Span(s.h, s.w) else s.block }

  lemma FileSize(p: Picture)
    requires p.Valid()
    ensures |p.FileBytes()| == WrittenSize(p.ShapeOf(0)) + WrittenSize(p.ShapeOf(1)) + WrittenSize(p.ShapeOf(2))
  {
    forall k | 0 <= k < 3 ensures |p.PlaneBytes(k)| == WrittenSize(p.ShapeOf(k)) {
      assert Fits(p.ShapeOf(k), |p.planes[k]|);
    }
    ThreePlanes(p, []);
  }

  /** Of an irregular size, a chroma plane without padding is written as a block longer than its rows. */
  lemma IrregularSize(width: nat, height: nat, padding: nat)
    requires !Regular(width, height)
    ensures Plain(width, height, padding).Valid()
    ensures |Plain(width, height, padding).FileBytes()| ==
      Span(height, width) + 2 * Span(height / 2, width / 2) + width / 4 + if padding == 0 then width / 4 else 0
  {
    PlainIsValid(width, height, padding);
    FileSize(Plain(width, height, padding));
    BlockSize(width, height);
  }

  /** ... exactly for the sizes whose chroma block, where it is used, is the size of its rows. */
  lemma IndependentExactly(width: nat, height: nat)
    ensures Independent(width, height) <==> Regular(width, height)
  {
    if Regular(width, height) {
      forall p: Picture, q: Picture | p.Valid() && q.Valid() && p.width == width && p.height == height && SamePicture(p, q)
        ensures p.FileBytes() == q.FileBytes()
      {
        WritingIgnoresLinesizes(p, q);
      }
    } else {
      PlainsLookAlike(width, height);
      IrregularSize(width, height, 0);
      IrregularSize(width, height, 1);
    }
  }

  /** The same black picture of 4x3 samples takes 18 bytes without padding, and 17 with padded U lines. */
  lemma FourByThree()
    ensures
      var p, q := Plain(4, 3, 0), Plain(4, 3, 1);
      && p.Valid() && q.Valid() && SamePicture(p, q)
      && |p.FileBytes()| == 18 && |q.FileBytes()| == 17
  {
    PlainsLookAlike(4, 3);
    IrregularSize(4, 3, 0);
    IrregularSize(4, 3, 1);
    assert Span(1, 2) == 2 && Span(3, 4) == 12;
  }

  // ---------------------------------------------------------------- what the file keeps of a picture

  lemma {:induction false} SamePlanes(p: Picture, q: Picture, k: nat, j: nat)
    requires p.Valid() && q.Valid() && k <= j < 3
    requires forall i :: 0 <= i < 3 ==> |p.PlaneBytes(i)| == |q.PlaneBytes(i)|
    requires p.BytesFrom(k) == q.BytesFrom(k)
    ensures p.PlaneBytes(j) == q.PlaneBytes(j)
    decreases j - k
  {
    SplitAlike(p.PlaneBytes(k), p.BytesFrom(k + 1), q.PlaneBytes(k), q.BytesFrom(k + 1));
    if k < j { SamePlanes(p, q, k + 1, j); }
  }

  lemma EvenIsWhole(p: Picture, k: nat)
    requires p.Valid() && p.width % 2 == 0 && p.height % 2 == 0 && k < 3
    ensures p.PlaneBytes(k) == p.WholePart(k) && |p.PlaneBytes(k)| == WholeSize(p.width, p.height, k)
  {
    FileIsStoredParts(p);
    assert p.PlaneBytes(k) == p.StoredPart(k);
  }

  /** Two pictures of an even size that are written alike look the same. */
  lemma WritingKeepsEvenSizes(p: Picture, q: Picture)
    requires p.Valid() && q.Valid() && p.width == q.width && p.height == q.height
    requires p.width % 2 == 0 && p.height % 2 == 0 && p.FileBytes() == q.FileBytes()
    ensures SamePicture(p, q)
  {
    forall k: nat | k < 3 ensures |p.PlaneBytes(k)| == |q.PlaneBytes(k)| {
      EvenIsWhole(p, k);
      EvenIsWhole(q, k);
    }
    forall k: nat | k < 3 ensures p.WholePart(k) == q.WholePart(k) {
      SamePlanes(p, q, 0, k);
      EvenIsWhole(p, k);
      EvenIsWhole(q, k);
    }
  }

  /** What is written determines what the picture shows. */
  ghost predicate Lossless(width: nat, height: nat)
  {
    forall p: Picture, q: Picture ::
      (p.Valid() && q.Valid() && p.width == q.width == width && p.height == q.height == height
        && p.FileBytes() == q.FileBytes()) ==> SamePicture(p, q)
  }

  lemma {:induction false} EmptyRows(plane: seq<Byte>, w: nat, n: nat, linesize: nat)
    requires w <= linesize && Span(n, linesize) <= |plane| && (w == 0 || n == 0)
    ensures Rows(plane, w, n, linesize) == []
    decreases n
  {
    if n > 0 { EmptyRows(plane, w, n - 1, linesize); }
  }

  lemma EmptySizesMatch(p: Picture, q: Picture)
    requires p.Valid() && q.Valid() && p.width == q.width && p.height == q.height && (p.width == 0 || p.height == 0)
    ensures SamePicture(p, q)
  {
    forall k: nat | k < 3 ensures p.WholePart(k) == q.WholePart(k) {
      EmptyRows(p.planes[k], p.Columns(k), p.Lines(k), p.linesizes[k]);
      EmptyRows(q.planes[k], q.Columns(k), q.Lines(k), q.linesizes[k]);
    }
  }

  lemma {:induction false} RowsIgnore(plane: seq<Byte>, w: nat, n: nat, linesize: nat, i: nat, b: Byte)
    requires w <= linesize && Span(n, linesize) <= |plane| && i < |plane|
    requires forall r: nat :: r < n ==> !InLine(i, r, w, linesize)
    ensures Rows(plane[i := b], w, n, linesize) == Rows(plane, w, n, linesize)
    decreases n
  {
    if n > 0 {
      RowsIgnore(plane, w, n - 1, linesize, i, b);
      var at := Span(n - 1, linesize);
      assert !InLine(i, n - 1, w, linesize);
      assert plane[i := b][at..at + w] == plane[at..at + w];
    }
  }

  /** The last chroma sample of an odd size is not written. */
  lemma LastIsNotStored(plane: seq<Byte>, width: nat, height: nat, b: Byte)
    requires width > 0 && height > 0 && (width % 2 == 1 || height % 2 == 1)
    requires |plane| == Span((height + 1) / 2, (width + 1) / 2)
    ensures
      var s := ChromaShape(width, height, (width + 1) / 2);
      var last := |plane| - 1;
      last >= 0 && Fits(s, |plane|) && Written(plane[last := b], s) == Written(plane, s)
  {
    var s, last := ChromaShape(width, height, (width + 1) / 2), |plane| - 1;
    SpanMonotone(s.h, (height + 1) / 2, s.linesize);
    if s.linesize == s.w {
      BlockSize(width, height);
    } else {
      forall r: nat | r < s.h ensures !InLine(last, r, s.w, s.linesize) {
        SpanMonotone(r + 1, s.h, s.linesize);
      }
      RowsIgnore(plane, s.w, s.h, s.linesize, last, b);
    }
  }

  lemma {:induction false} SameBytes(p: Picture, q: Picture, k: nat)
    requires p.Valid() && q.Valid() && k <= 3
    ensures (forall i :: 0 <= i < 3 ==> p.PlaneBytes(i) == q.PlaneBytes(i)) ==> p.BytesFrom(k) == q.BytesFrom(k)
    decreases 3 - k
  {
    if k < 3 { SameBytes(p, q, k + 1); }
  }

  function WithU(p: Picture, u: seq<Byte>): Picture
    requires |p.planes| == 3
  {
    p.(planes := [p.planes[0], u, p.planes[2]])
  }

  lemma OtherU(p: Picture, u: seq<Byte>)
    requires p.Valid() && |u| == |p.planes[1]|
    requires Fits(p.ShapeOf(1), |u|) && Written(u, p.ShapeOf(1)) == p.PlaneBytes(1)
    ensures WithU(p, u).Valid() && WithU(p, u).FileBytes() == p.FileBytes()
  {
    var q := WithU(p, u);
    LaidOutIsValid(q);
    assert q.PlaneBytes(0) == p.PlaneBytes(0);
    assert q.PlaneBytes(2) == p.PlaneBytes(2);
    SameBytes(p, q, 0);
  }

  lemma WholeU(p: Picture)
    requires p.LaidOut() && p.linesizes[1] == p.Columns(1) && |p.planes[1]| == Span(p.Lines(1), p.Columns(1))
    ensures p.WholePart(1) == p.planes[1]
  {
    RowsWithoutPadding(p.planes[1], p.Columns(1), p.Lines(1));
  }

  lemma LoseSamples(p: Picture, u: seq<Byte>)
    requires p.Valid() && p.linesizes[1] == p.Columns(1) && |p.planes[1]| == Span(p.Lines(1), p.Columns(1)) == |u|
    requires Fits(p.ShapeOf(1), |u|) && Written(u, p.ShapeOf(1)) == p.PlaneBytes(1) && u != p.planes[1]
    ensures !Lossless(p.width, p.height)
  {
    OtherU(p, u);
    WholeU(p);
    WholeU(WithU(p, u));
    assert WithU(p, u).WholePart(1) != p.WholePart(1);
  }

  /** Of an odd size, two pictures that differ in the last U sample alone are written alike. */
  lemma OddSizesLose(width: nat, height: nat)
    requires width > 0 && height > 0 && (width % 2 == 1 || height % 2 == 1)
    ensures !Lossless(width, height)
  {
    var p := Plain(width, height, 0);
    var last := |p.planes[1]| - 1;
    PlainIsValid(width, height, 0);
    LastIsNotStored(p.planes[1], width, height, 1);
    var u := p.planes[1][last := 1];
    assert u[last] != p.planes[1][last];
    LoseSamples(p, u);
  }

  /** Nothing of a picture is lost in the file exactly if both its sides are even, or it is empty. */
  lemma LosslessExactly(width: nat, height: nat)
    ensures Lossless(width, height) <==> (width % 2 == 0 && height % 2 == 0) || width == 0 || height == 0
  {
    if width == 0 || height == 0 {
      forall p: Picture, q: Picture | p.Valid() && q.Valid() && p.width == q.width == width
        && p.height == q.height == height ensures SamePicture(p, q)
      {
        EmptySizesMatch(p, q);
      }
    } else if width % 2 == 0 && height % 2 == 0 {
      forall p: Picture, q: Picture | p.Valid() && q.Valid() && p.width == q.width == width
        && p.height == q.height == height && p.FileBytes() == q.FileBytes() ensures SamePicture(p, q)
      {
        WritingKeepsEvenSizes(p, q);
      }
    } else {
      OddSizesLose(width, height);
    }
  }

  // ---------------------------------------------------------------- reading back

  /** What plane `k` shows when its rows come from place `pos` of the file. */
  function FromFile(data: seq<Byte>, pos: nat, w: nat): (nat, nat) -> int
  {
    (r: nat, j: nat) => if pos + Span(r, w) + j < |data| then data[pos + Span(r, w) + j] else 0
  }

  lemma FreadShows(plane: seq<Byte>, s: Shape, i: nat, data: seq<Byte>, pos: nat, start: nat)
    requires Fits(s, |plane|) && i < s.h && pos == start + Span(i, s.w) && pos + s.w <= |data|
    requires Span(i, s.linesize) + s.w <= |plane|
    ensures
      var r := Fread(plane, Span(i, s.linesize), s.w, data, pos);
      r.pos == pos + s.w && RowShown(FromFile(data, start, s.w), i, s.w, r.plane, plane, s.linesize)
  {
    var at, value := Span(i, s.linesize), FromFile(data, start, s.w);
    var now := Fread(plane, at, s.w, data, pos).plane;
    forall x | 0 <= x < |now| ensures now[x] == if InLine(x, i, s.w, s.linesize) then value(i, x - at) else plane[x] {
      if InLine(x, i, s.w, s.linesize) { assert now[x] == data[pos..pos + s.w][x - at]; }
    }
  }

  lemma {:induction false} RowsReadShow(plane: seq<Byte>, was: seq<Byte>, s: Shape, i: nat, data: seq<Byte>, pos: nat, start: nat)
    requires Fits(s, |plane|) && i <= s.h && pos == start + Span(i, s.w) && start + Span(s.h, s.w) <= |data|
    requires Shows(FromFile(data, start, s.w), i, s.w, plane, was, s.linesize) && pos <= |data|
    ensures
      var r := RowsRead(plane, s, i, data, pos);
      r.pos == start + Span(s.h, s.w) && Shows(FromFile(data, start, s.w), s.h, s.w, r.plane, was, s.linesize)
    decreases s.h - i
  {
    if i < s.h {
      SpanMonotone(i + 1, s.h, s.linesize);
      SpanMonotone(i + 1, s.h, s.w);
      var r := Fread(plane, Span(i, s.linesize), s.w, data, pos);
      FreadShows(plane, s, i, data, pos, start);
      OneMoreRow(FromFile(data, start, s.w), i, s.w, r.plane, plane, was, s.linesize);
      RowsReadShow(r.plane, was, s, i + 1, data, r.pos, start);
    }
  }

  /** Without padding every byte belongs to a row. */
  lemma {:induction false} EveryByteVisible(i: nat, n: nat, w: nat)
    requires i < Span(n, w)
    ensures Visible(i, n, w, w)
    decreases n
  {
    if i < Span(n - 1, w) {
      EveryByteVisible(i, n - 1, w);
      var r: nat :| r < n - 1 && InLine(i, r, w, w);
    } else {
      assert InLine(i, n - 1, w, w);
    }
  }

  /** The bytes of a plane that reading may change. */
  ghost predicate Moved(s: Shape, i: int)
  {
    if s.linesize == s.w then 0 <= i < s.block else Visible(i, s.h, s.w, s.linesize)
  }

  /** They are those of the rows, if the block is the size of the rows. */
  lemma MovedAreRows(s: Shape, i: nat)
    requires MovesRows(s)
    ensures Moved(s, i) <==> Visible(i, s.h, s.w, s.linesize)
  {
    if s.linesize == s.w {
      if i < s.block { EveryByteVisible(i, s.h, s.w); }
      if r: nat :| r < s.h && InLine(i, r, s.w, s.w) { SpanMonotone(r + 1, s.h, s.w); }
    }
  }

  ghost predicate RowsShow(value: (nat, nat) -> int, s: Shape, now: seq<Byte>)
  {
    forall r: nat, i {:trigger InLine(i, r, s.w, s.linesize)} ::
      r < s.h && InLine(i, r, s.w, s.linesize) && i < |now| ==> now[i] == value(r, i - Span(r, s.linesize))
  }

  /** The rows stand in the plane, and nothing else has changed but what reading may change. */
  ghost predicate PlaneShows(value: (nat, nat) -> int, s: Shape, now: seq<Byte>, was: seq<Byte>)
  {
    |now| == |was| && RowsShow(value, s, now) && forall i :: 0 <= i < |now| && !Moved(s, i) ==> now[i] == was[i]
  }

  lemma BlockReadShows(plane: seq<Byte>, s: Shape, data: seq<Byte>, start: nat)
    requires Fits(s, |plane|) && s.linesize == s.w && CoversRows(s) && start + s.block <= |data|
    ensures
      var r := Fread(plane, 0, s.block, data, start);
      r.pos == start + s.block && PlaneShows(FromFile(data, start, s.w), s, r.plane, plane)
  {
    var now, value := Fread(plane, 0, s.block, data, start).plane, FromFile(data, start, s.w);
    forall r: nat, i | r < s.h && InLine(i, r, s.w, s.linesize) && i < |now| ensures now[i] == value(r, i - Span(r, s.linesize)) {
      SpanMonotone(r + 1, s.h, s.w);
      assert now[i] == data[start..start + s.block][i];
    }
  }

  /** Reading a plane shows the bytes at the place in the file, and takes as many as writing it gives. */
  lemma PlaneReadShows(plane: seq<Byte>, s: Shape, data: seq<Byte>, start: nat)
    requires Fits(s, |plane|) && CoversRows(s) && start + WrittenSize(s) <= |data|
    ensures
      var r := PlaneRead(plane, s, data, start);
      r.pos == start + WrittenSize(s) && PlaneShows(FromFile(data, start, s.w), s, r.plane, plane)
  {
    if s.linesize != s.w {
      RowsReadShow(plane, plane, s, 0, data, start, start);
    } else {
      BlockReadShows(plane, s, data, start);
    }
  }

  /** Row `r` of the plane is row `r` of what begins at place `start` of the file. */
  ghost predicate RowMatches(plane: seq<Byte>, w: nat, r: nat, linesize: nat, data: seq<Byte>, start: nat)
  {
    && Span(r, linesize) + w <= |plane| && start + Span(r, w) + w <= |data|
    && plane[Span(r, linesize)..Span(r, linesize) + w] == data[start + Span(r, w)..start + Span(r, w) + w]
  }

  lemma {:induction false} MatchingRows(plane: seq<Byte>, w: nat, n: nat, linesize: nat, data: seq<Byte>, start: nat)
    requires w <= linesize && Span(n, linesize) <= |plane| && start + Span(n, w) <= |data|
    requires forall r: nat :: r < n ==> RowMatches(plane, w, r, linesize, data, start)
    ensures Rows(plane, w, n, linesize) == data[start..start + Span(n, w)]
    decreases n
  {
    if n > 0 {
      assert RowMatches(plane, w, n - 1, linesize, data, start);
      MatchingRows(plane, w, n - 1, linesize, data, start);
      JoinSlices(data, start, start + Span(n - 1, w), start + Span(n, w));
    }
  }

  lemma JoinSlices(data: seq<Byte>, i: nat, j: nat, k: nat)
    requires i <= j <= k <= |data|
    ensures data[i..j] + data[j..k] == data[i..k]
  {
  }

  lemma ShownRow(plane: seq<Byte>, s: Shape, r: nat, data: seq<Byte>, start: nat)
    requires r < s.h && Span(r, s.linesize) + s.w <= |plane| && start + Span(r, s.w) + s.w <= |data|
    ensures RowsShow(FromFile(data, start, s.w), s, plane) ==> RowMatches(plane, s.w, r, s.linesize, data, start)
  {
    var value, at, from := FromFile(data, start, s.w), Span(r, s.linesize), start + Span(r, s.w);
    if RowsShow(value, s, plane) {
      var a, b := plane[at..at + s.w], data[from..from + s.w];
      forall j: nat | j < s.w ensures a[j] == b[j] {
        ShownByte(value, s, plane, r, j);
        assert value(r, j) == data[from + j];
      }
    }
  }

  lemma ShownByte(value: (nat, nat) -> int, s: Shape, plane: seq<Byte>, r: nat, j: nat)
    requires r < s.h && Span(r, s.linesize) + j < |plane| && j < s.w && RowsShow(value, s, plane)
    ensures plane[Span(r, s.linesize) + j] == value(r, j)
  {
    assert InLine(Span(r, s.linesize) + j, r, s.w, s.linesize);
  }

  /** `plane` shows the stored part of plane `k` of `p`; but for bytes that reading may change, it is as in `q`. */
  ghost predicate Restored(p: Picture, q: Picture, k: nat, plane: seq<Byte>)
    requires p.Valid() && q.Valid() && k < 3
  {
    var s := q.ShapeOf(k);
    && |plane| == |q.planes[k]| && Fits(s, |plane|)
    && Rows(plane, s.w, s.h, s.linesize) == p.StoredPart(k)
    && forall i :: 0 <= i < |plane| && !Moved(s, i) ==> plane[i] == q.planes[k][i]
  }

  /** Two pictures of the same size. */
  ghost predicate Alike(p: Picture, q: Picture)
  {
    p.Valid() && q.Valid() && p.width == q.width && p.height == q.height
  }

  /** A plane in the file begins with its stored part. */
  lemma StoredIsPrefix(p: Picture, k: nat)
    requires p.Valid() && k < 3
    ensures |p.PlaneBytes(k)| == WrittenSize(p.ShapeOf(k)) && p.StoredPart(k) <= p.PlaneBytes(k)
  {
    var s := p.ShapeOf(k);
    assert Fits(s, |p.planes[k]|);
    BlockCoversRows(p, k);
    if s.linesize == s.w {
      RowsWithoutPadding(p.planes[k], s.w, s.h);
      assert p.planes[k][..s.block][..Span(s.h, s.w)] == p.planes[k][..Span(s.h, s.w)];
    }
  }

  /** Reading a plane takes as many bytes as writing it gives, and restores the stored part of a plane that stands there. */
  lemma PlaneRoundTrip(p: Picture, q: Picture, k: nat, data: seq<Byte>, pos: nat)
    requires Alike(p, q) && k < 3 && pos + |q.PlaneBytes(k)| <= |data|
    ensures q.Read(k, data, pos).pos == pos + |q.PlaneBytes(k)|
    ensures StandsAt(data, pos, p.PlaneBytes(k)) ==> Restored(p, q, k, q.Read(k, data, pos).plane)
  {
    var s, r := q.ShapeOf(k), q.Read(k, data, pos);
    assert Fits(s, |q.planes[k]|);
    BlockCoversRows(q, k);
    StoredIsPrefix(q, k);
    PlaneReadShows(q.planes[k], s, data, pos);
    if StandsAt(data, pos, p.PlaneBytes(k)) {
      StoredIsPrefix(p, k);
      BeginsWith(data, pos, p.PlaneBytes(k), p.StoredPart(k));
      ShownRows(r.plane, s, data, pos);
    }
  }

  lemma BeginsWith(data: seq<Byte>, pos: nat, part: seq<Byte>, start: seq<Byte>)
    requires StandsAt(data, pos, part) && start <= part
    ensures StandsAt(data, pos, start)
  {
    assert data[pos..pos + |start|] == data[pos..pos + |part|][..|start|];
  }

  lemma ShownRows(plane: seq<Byte>, s: Shape, data: seq<Byte>, start: nat)
    requires Fits(s, |plane|) && start + Span(s.h, s.w) <= |data| && RowsShow(FromFile(data, start, s.w), s, plane)
    ensures Rows(plane, s.w, s.h, s.linesize) == data[start..start + Span(s.h, s.w)]
  {
    forall i: nat | i < s.h ensures RowMatches(plane, s.w, i, s.linesize, data, start) {
      SpanMonotone(i + 1, s.h, s.linesize);
      SpanMonotone(i + 1, s.h, s.w);
      ShownRow(plane, s, i, data, start);
    }
    MatchingRows(plane, s.w, s.h, s.linesize, data, start);
  }

  /** `part` stands in the file at place `pos`. */
  ghost predicate StandsAt(data: seq<Byte>, pos: nat, part: seq<Byte>)
  {
    pos + |part| <= |data| && data[pos..pos + |part|] == part
  }

  lemma Divide(data: seq<Byte>, pos: nat, a: seq<Byte>, b: seq<Byte>)
    ensures StandsAt(data, pos, a + b) ==> StandsAt(data, pos, a) && StandsAt(data, pos + |a|, b)
  {
    if StandsAt(data, pos, a + b) {
      assert data[pos..pos + |a|] == data[pos..pos + |a + b|][..|a|];
      assert data[pos + |a|..pos + |a| + |b|] == data[pos..pos + |a + b|][|a|..];
    }
  }

  /** The planes from the `k`-th on are restored. */
  ghost predicate AllRestored(p: Picture, q: Picture, k: nat, planes: seq<seq<Byte>>)
    requires p.Valid() && q.Valid() && k + |planes| == 3
    decreases |planes|
  {
    planes == [] || (Restored(p, q, k, planes[0]) && AllRestored(p, q, k + 1, planes[1..]))
  }

  lemma OneMorePlane(p: Picture, q: Picture, k: nat, plane: seq<Byte>, planes: seq<seq<Byte>>)
    requires p.Valid() && q.Valid() && k + 1 + |planes| == 3
    ensures Restored(p, q, k, plane) && AllRestored(p, q, k + 1, planes) ==> AllRestored(p, q, k, [plane] + planes)
  {
    assert ([plane] + planes)[1..] == planes;
  }

  /** Each plane of `p` from the `k`-th on takes as many bytes as that of `q`. */
  ghost predicate SameSizes(p: Picture, q: Picture, k: nat)
    requires p.Valid() && q.Valid()
    decreases 3 - k
  {
    k >= 3 || (|p.PlaneBytes(k)| == |q.PlaneBytes(k)| && SameSizes(p, q, k + 1))
  }

  /** That is so for regular sizes, and for others when each chroma plane is padded in both or in none. */
  lemma SameSizesExactly(p: Picture, q: Picture)
    requires Alike(p, q)
    ensures SameSizes(p, q, 0) <==>
      || Regular(p.width, p.height)
      || ((p.linesizes[1] == p.width / 2 <==> q.linesizes[1] == q.width / 2)
          && (p.linesizes[2] == p.width / 2 <==> q.linesizes[2] == q.width / 2))
  {
    SameSize(p, q, 0);
    SameSize(p, q, 1);
    SameSize(p, q, 2);
    assert SameSizes(p, q, 1) <==> |p.PlaneBytes(1)| == |q.PlaneBytes(1)| && SameSizes(p, q, 2);
    assert SameSizes(p, q, 2) <==> |p.PlaneBytes(2)| == |q.PlaneBytes(2)|;
  }

  lemma SameSize(p: Picture, q: Picture, k: nat)
    requires Alike(p, q) && k < 3
    ensures |p.PlaneBytes(k)| == |q.PlaneBytes(k)| <==>
      k == 0 || Regular(p.width, p.height) || (p.linesizes[k] == p.width / 2 <==> q.linesizes[k] == q.width / 2)
  {
    SizeOf(p, k);
    SizeOf(q, k);
  }

  lemma SizeOf(p: Picture, k: nat)
    requires p.Valid() && k < 3
    ensures |p.PlaneBytes(k)| == Span(p.ShapeOf(k).h, p.ShapeOf(k).w)
      + if k == 0 || Regular(p.width, p.height) || p.linesizes[k] != p.width / 2 then 0 else p.width / 4
  {
    StoredIsPrefix(p, k);
    if Regular(p.width, p.height) { RegularMovesRows(p, k); } else { BlockSize(p.width, p.height); }
  }

  lemma NextPlane(p: Picture, q: Picture, k: nat, data: seq<Byte>, pos: nat)
    requires Alike(p, q) && SameSizes(p, q, k) && k < 3 && StandsAt(data, pos, p.BytesFrom(k))
    ensures
      var step := q.Read(k, data, pos);
      && Restored(p, q, k, step.plane) && StandsAt(data, step.pos, p.BytesFrom(k + 1))
      && step.pos + |p.BytesFrom(k + 1)| == pos + |p.BytesFrom(k)|
  {
    Divide(data, pos, p.PlaneBytes(k), p.BytesFrom(k + 1));
    assert p.BytesFrom(k) == p.PlaneBytes(k) + p.BytesFrom(k + 1);
    PlaneRoundTrip(p, q, k, data, pos);
  }

  lemma {:induction false} PlanesRoundTrip(p: Picture, q: Picture, k: nat, data: seq<Byte>, pos: nat)
    requires Alike(p, q) && SameSizes(p, q, k) && k <= 3 && StandsAt(data, pos, p.BytesFrom(k))
    ensures
      var r := q.ReadFrom(k, data, pos);
      r.pos == pos + |p.BytesFrom(k)| && AllRestored(p, q, k, r.planes)
    decreases 3 - k
  {
    if k < 3 {
      NextPlane(p, q, k, data, pos);
      var step := q.Read(k, data, pos);
      PlanesRoundTrip(p, q, k + 1, data, step.pos);
      var rest := q.ReadFrom(k + 1, data, step.pos);
      OneMorePlane(p, q, k, step.plane, rest.planes);
      assert q.ReadFrom(k, data, pos) == Reading([step.plane] + rest.planes, rest.pos);
    }
  }

  /**
   A picture that stands in a file, read into a frame of other line sizes and contents in which each plane
   takes as many bytes: every stored sample is back, what reading may not change is as it was, and the
   place in the file is right behind the picture.
   */
  lemma RoundTrip(p: Picture, q: Picture, data: seq<Byte>, pos: nat)
    requires Alike(p, q) && SameSizes(p, q, 0) && StandsAt(data, pos, p.FileBytes())
    ensures
      var r := q.ReadFrom(0, data, pos);
      r.pos == pos + |p.FileBytes()| && AllRestored(p, q, 0, r.planes)
  {
    PlanesRoundTrip(p, q, 0, data, pos);
  }

  /** Reading into `q` keeps step with the file: each plane from the `k`-th on ends where that of `p` ends. */
  ghost predicate InStep(p: Picture, q: Picture, k: nat, data: seq<Byte>, pos: nat)
    requires p.Valid() && q.Valid()
    decreases 3 - k
  {
    || k >= 3
    || (&& pos <= |data| && q.Read(k, data, pos).pos == pos + |p.PlaneBytes(k)|
        && InStep(p, q, k + 1, data, pos + |p.PlaneBytes(k)|))
  }

  lemma {:induction false} InStepFrom(p: Picture, q: Picture, k: nat, data: seq<Byte>, pos: nat)
    requires Alike(p, q) && k <= 3
    ensures pos + |p.BytesFrom(k)| + |q.BytesFrom(k)| <= |data| ==>
      (InStep(p, q, k, data, pos) <==> SameSizes(p, q, k))
    decreases 3 - k
  {
    if k < 3 && pos + |p.BytesFrom(k)| + |q.BytesFrom(k)| <= |data| {
      assert |p.BytesFrom(k)| == |p.PlaneBytes(k)| + |p.BytesFrom(k + 1)|;
      assert |q.BytesFrom(k)| == |q.PlaneBytes(k)| + |q.BytesFrom(k + 1)|;
      PlaneRoundTrip(p, q, k, data, pos);
      InStepFrom(p, q, k + 1, data, pos + |p.PlaneBytes(k)|);
    }
  }

  /** With enough in the file, whatever the pictures, reading keeps step exactly when the planes take as many bytes. */
  lemma InStepExactly(p: Picture, q: Picture, data: seq<Byte>, pos: nat)
    requires Alike(p, q) && pos + |p.FileBytes()| + |q.FileBytes()| <= |data|
    ensures InStep(p, q, 0, data, pos) <==> SameSizes(p, q, 0)
  {
    InStepFrom(p, q, 0, data, pos);
  }

  /** So the 18 bytes of an unpadded 4x3 picture are not read back into a frame with padded U lines. */
  lemma FourByThreeOutOfStep(data: seq<Byte>)
    requires |data| >= 35
    ensures
      var p, q := Plain(4, 3, 0), Plain(4, 3, 1);
      p.Valid() && q.Valid() && !InStep(p, q, 0, data, 0)
  {
    var p, q := Plain(4, 3, 0), Plain(4, 3, 1);
    FourByThree();
    InStepExactly(p, q, data, 0);
    SameSizesExactly(p, q);
  }
}
