/**
 Frame rate conversion on the way to the video encoder: `do_video_out` in fftools/ffmpeg.c decides
 for every picture how often it, or the picture before it, is encoded, and with which timestamp.
 `double` is modelled by `real`; `lrint` and `lrintf` by any rounding within one half.
 */
module VideoSync {
  import opened Common

  /** The sync method in force for the call, once VSYNC_AUTO has been resolved. */
  datatype Sync = Passthrough | Cfr | Vfr | Vscfr | Drop

  datatype Config = Config(
    sync: Sync,
    lrint: real -> int,
    lrintf: real -> int,
    dropThreshold: real,      // frame_drop_threshold, 0 when unset
    oversize: real,           // dts_error_threshold * 30
    maxFrames: int,
    endTime: Option<real>)    // where check_recording_time stops, in encoder ticks
  {
    ghost predicate Rounds()
    {
      && (forall x :: -0.5 <= lrint(x) as real - x <= 0.5)
      && (forall x :: -0.5 <= lrintf(x) as real - x <= 0.5)
    }

    predicate Paced() { sync.Cfr? || sync.Vscfr? || sync.Vfr? }
  }

  /** Round to nearest, ties to even: the default rounding mode of lrint. */
  function RoundHalfEven(x: real): int
  {
    var f := x.Floor;
    var rest := x - f as real;
    if rest < 0.5 || (rest == 0.5 && f % 2 == 0) then f else f + 1
  }

  lemma DefaultRoundingFits(cfg: Config)
    ensures cfg.(lrint := RoundHalfEven, lrintf := RoundHalfEven).Rounds()
  {
    forall x: real ensures -0.5 <= RoundHalfEven(x) as real - x <= 0.5 {
      assert x.Floor as real <= x < x.Floor as real + 1.0;
    }
  }

  datatype Picture = Picture(id: int)

  datatype Encoded = Encoded(picture: Picture, pts: int)

  /** A call: a picture with its input time and duration in encoder ticks, or the final flush. */
  datatype Call = Show(picture: Picture, ipts: real, duration: real) | FlushEnd

  /** `encoded` is what the encoder has been sent; `lastNb0` remembers three calls. */
  datatype State = State(
    syncOpts: int,
    frameNumber: int,
    lastNb0: (int, int, int),
    lastDropped: bool,
    lastFrame: Option<Picture>,
    dup: int,
    drop: int,
    encoded: seq<Encoded>)

  const INIT: State := State(0, 0, (0, 0, 0), false, None, 0, 0, [])

  /** How a call ends; all but Completed are early returns. */
  datatype Outcome = Completed | TooManyDuplicates | NoPicture | TimeUp

  // ---------------------------------------------------------------- durations

  /** What the duration of a picture is computed from; rates and time bases in hertz and seconds. */
  datatype Rates = Rates(
    filterRate: Option<real>,   // frame rate of the buffer sink
    encoderTb: real,            // encoder time base
    inputKnown: bool,           // the input stream has a start time and a first dts
    outputRate: Option<real>,   // frame rate asked for with -r
    plain: bool,                // unfiltered, from a known input stream
    packetDuration: real)       // pkt_duration in encoder ticks

  function DurationOf(cfg: Config, r: Rates): real
    requires r.encoderTb > 0.0
    requires r.filterRate.Some? ==> r.filterRate.value > 0.0
    requires r.outputRate.Some? ==> r.outputRate.value > 0.0
  {
    var d0 := if r.filterRate.Some? then 1.0 / (r.filterRate.value * r.encoderTb) else 0.0;
    var d1 := if r.inputKnown && r.outputRate.Some? && 1.0 / (r.outputRate.value * r.encoderTb) < d0
              then 1.0 / (r.outputRate.value * r.encoderTb) else d0;
    if r.plain && cfg.lrintf(r.packetDuration) > 0 then cfg.lrintf(r.packetDuration) as real else d1
  }

  lemma DurationNotNegative(cfg: Config, r: Rates)
    requires r.encoderTb > 0.0
    requires r.filterRate.Some? ==> r.filterRate.value > 0.0
    requires r.outputRate.Some? ==> r.outputRate.value > 0.0
    ensures DurationOf(cfg, r) >= 0.0
  {
    if r.filterRate.Some? { QuotientPositive(r.filterRate.value, r.encoderTb); }
    if r.outputRate.Some? { QuotientPositive(r.outputRate.value, r.encoderTb); }
  }

  /**
   The duration is the packet's, rounded, for an unfiltered picture that has one; otherwise it is the shorter of
   the frame intervals that are known, and 0 if that of the filter is not.
   */
  lemma DurationMeans(cfg: Config, r: Rates)
    requires cfg.Rounds() && r.encoderTb > 0.0
    requires r.filterRate.Some? ==> r.filterRate.value > 0.0
    requires r.outputRate.Some? ==> r.outputRate.value > 0.0
    ensures
      var d := DurationOf(cfg, r);
      var asked := r.inputKnown && r.outputRate.Some?;
      if r.plain && cfg.lrintf(r.packetDuration) > 0 then
        -0.5 <= d - r.packetDuration <= 0.5 && d.Floor as real == d
      else if r.filterRate.None? then d == 0.0
      else
        && d * r.encoderTb * r.filterRate.value <= 1.0 && (asked ==> d * r.encoderTb * r.outputRate.value <= 1.0)
        && (d * r.encoderTb * r.filterRate.value == 1.0 || (asked && d * r.encoderTb * r.outputRate.value == 1.0))
  {
    if r.plain && cfg.lrintf(r.packetDuration) > 0 {
      assert cfg.lrintf(r.packetDuration) as real == DurationOf(cfg, r);
    } else if r.filterRate.Some? {
      var f, d := r.filterRate.value, DurationOf(cfg, r);
      Interval(f, r.encoderTb, d);
      if r.outputRate.Some? { Interval(r.outputRate.value, r.encoderTb, d); }
    } else if r.outputRate.Some? {
      Interval(r.outputRate.value, r.encoderTb, 0.0);
    }
  }

  lemma Interval(rate: real, tb: real, d: real)
    requires rate > 0.0 && tb > 0.0
    ensures
      var interval := 1.0 / (rate * tb);
      && interval > 0.0 && (d <= interval <==> d * tb * rate <= 1.0) && (d == interval <==> d * tb * rate == 1.0)
  {
    QuotientPositive(rate, tb);
    var a := rate * tb;
    var interval := 1.0 / a;
    assert interval * a == 1.0 && d * tb * rate == d * a;
    if d <= interval { assert (interval - d) * a >= 0.0; } else { assert (d - interval) * a > 0.0; }
  }

  lemma QuotientPositive(a: real, b: real)
    requires a > 0.0 && b > 0.0
    ensures a * b > 0.0 && 1.0 / (a * b) > 0.0
  {
    assert a * b > 0.0;
    var q := 1.0 / (a * b);
    assert q * (a * b) == 1.0;
  }

  // ---------------------------------------------------------------- the decision

  function MaxReal(a: real, b: real): real { if a < b then b else a }

  /** How many frames to encode, how many of them repeat the previous picture, and the next pts. */
  datatype Decision = Decision(nb: int, nb0: int, syncOpts: int)

  /** mid_pred: the median of three. */
  function MidPred(a: int, b: int, c: int): int
  {
    if a > b then (if c > b then (if c > a then a else c) else b)
    else if b > c then (if c > a then c else a)
    else b
  }

  /** The decision before the frame limit. */
  function Decide(cfg: Config, st: State, call: Call): Decision
  {
    match call
    case FlushEnd =>
      var m := MidPred(st.lastNb0.0, st.lastNb0.1, st.lastNb0.2);
      Decision(m, m, st.syncOpts)
    case Show(_, ipts, duration) =>
      var drift := ipts - st.syncOpts as real;
      var delta := drift + duration;
      var clip := drift < 0.0 && delta > 0.0 && cfg.Paced();
      var ipts1 := if clip then st.syncOpts as real else ipts;
      var duration1 := if clip then duration + drift else duration;
      var delta0 := if clip then 0.0 else drift;
      match cfg.sync
      case Vscfr =>
        if st.frameNumber == 0 && delta0 >= 0.5 then
          var (nb, nb0) := Constant(cfg, st.frameNumber, duration1, 0.0);
          Decision(nb, nb0, cfg.lrint(ipts1))
        else
          var (nb, nb0) := Constant(cfg, st.frameNumber, delta, delta0);
          Decision(nb, nb0, st.syncOpts)
      case Cfr =>
        var (nb, nb0) := Constant(cfg, st.frameNumber, delta, delta0);
        Decision(nb, nb0, st.syncOpts)
      case Vfr =>
        Decision(if delta <= -0.6 then 0 else 1, 0, if delta > 0.6 then cfg.lrint(ipts1) else st.syncOpts)
      case Passthrough => Decision(1, 0, cfg.lrint(ipts1))
      case Drop => Decision(1, 0, cfg.lrint(ipts1))
  }

  /** The constant-rate case of the switch. */
  function Constant(cfg: Config, frameNumber: int, delta: real, delta0: real): (int, int)
  {
    if cfg.dropThreshold != 0.0 && delta < cfg.dropThreshold && frameNumber != 0 then (0, 0)
    else if delta < -1.1 then (0, 0)
    else if delta > 1.1 then (cfg.lrintf(delta), if delta0 > 1.1 then cfg.lrintf(delta0 - 0.6) else 0)
    else (1, 0)
  }

  function Limited(cfg: Config, st: State, d: Decision): Decision
  {
    var nb := Min(d.nb, cfg.maxFrames - st.frameNumber);
    d.(nb := nb, nb0 := Min(d.nb0, nb))
  }

  function Bit(b: bool): int { if b then 1 else 0 }

  /** Frames of this call that are neither duplicates: the late previous picture, and the new one. */
  function Once(st: State, d: Decision): int
  {
    Bit(d.nb0 != 0 && st.lastDropped) + Bit(d.nb > d.nb0)
  }

  // ---------------------------------------------------------------- one call as a step

  predicate PastEnd(cfg: Config, syncOpts: int)
  {
    cfg.endTime.Some? && syncOpts as real >= cfg.endTime.value
  }

  /** The encoding loop from its `i`-th turn. */
  function EncodeFrom(cfg: Config, st: State, nb: int, nb0: int, next: Option<Picture>, i: nat): (State, Outcome)
    decreases nb - i
  {
    if i >= nb then (st, Completed)
    else
      var pic := if i < nb0 && st.lastFrame.Some? then st.lastFrame else next;
      if pic.None? then (st, NoPicture)
      else if PastEnd(cfg, st.syncOpts) then (st, TimeUp)
      else
        EncodeFrom(cfg, st.(encoded := st.encoded + [Encoded(pic.value, st.syncOpts)],
                            syncOpts := st.syncOpts + 1, frameNumber := st.frameNumber + 1), nb, nb0, next, i + 1)
  }

  function NextPicture(call: Call): Option<Picture>
  {
    if call.Show? then Some(call.picture) else None
  }

  /** The bookkeeping between the decision and the encoding loop; false if the duplication is too large. */
  function Account(cfg: Config, st: State, d: Decision, call: Call): (State, bool)
  {
    var st1 := st.(syncOpts := d.syncOpts,
                   lastNb0 := (d.nb0, st.lastNb0.0, st.lastNb0.1),
                   drop := st.drop + Bit(d.nb0 == 0 && st.lastDropped));
    if d.nb > Once(st, d) && d.nb as real > cfg.oversize then (st1.(drop := st1.drop + 1), false)
    else
      (st1.(dup := st.dup + Max(0, d.nb - Once(st, d)), lastDropped := d.nb == d.nb0 && call.Show?), true)
  }

  function Step(cfg: Config, st: State, call: Call): (State, Outcome)
  {
    var d := Limited(cfg, st, Decide(cfg, st, call));
    var (st1, ok) := Account(cfg, st, d, call);
    if !ok then (st1, TooManyDuplicates)
    else
      var (st2, out) := EncodeFrom(cfg, st1, d.nb, d.nb0, NextPicture(call), 0);
      (if out == Completed then st2.(lastFrame := NextPicture(call)) else st2, out)
  }

  // ---------------------------------------------------------------- the object

  class OutputStream {
    const cfg: Config
    var syncOpts: int
    var frameNumber: int
    var lastNb0: (int, int, int)
    var lastDropped: bool
    var lastFrame: Option<Picture>
    var nbFramesDup: int
    var nbFramesDrop: int
    var encoded: seq<Encoded>

    constructor (cfg: Config)
      ensures this.cfg == cfg && View() == INIT
    {
      this.cfg := cfg;
      syncOpts, frameNumber, lastNb0, lastDropped, lastFrame := 0, 0, (0, 0, 0), false, None;
      nbFramesDup, nbFramesDrop, encoded := 0, 0, [];
    }

    function View(): State
      reads this
    {
      State(syncOpts, frameNumber, lastNb0, lastDropped, lastFrame, nbFramesDup, nbFramesDrop, encoded)
    }

    method DoVideoOut(call: Call) returns (out: Outcome)
      modifies this
      ensures (View(), out) == Step(cfg, old(View()), call)
    {
      var d := Choose(call);
      var nb := Min(d.nb, cfg.maxFrames - frameNumber);
      var nb0 := Min(d.nb0, nb);
      ghost var limited := Decision(nb, nb0, syncOpts);
      assert limited == Limited(cfg, old(View()), d);
      var ok := CountDuplicates(nb, nb0, call);
      assert (View(), ok) == Account(cfg, old(View()), limited, call);
      if !ok { return TooManyDuplicates; }
      out := EncodeFrames(nb, nb0, NextPicture(call));
      if out == Completed {
        lastFrame := NextPicture(call);
      }
    }

    /** The dup and drop counters. */
    method CountDuplicates(nb: int, nb0: int, call: Call) returns (ok: bool)
      modifies this`lastNb0, this`nbFramesDrop, this`nbFramesDup, this`lastDropped
      ensures (View(), ok) == Account(cfg, old(View()), Decision(nb, nb0, syncOpts), call)
    {
      lastNb0 := (nb0, lastNb0.0, lastNb0.1);
      if nb0 == 0 && lastDropped {
        nbFramesDrop := nbFramesDrop + 1;
      }
      var once := Bit(nb0 != 0 && lastDropped) + Bit(nb > nb0);
      if nb > once {
        if nb as real > cfg.oversize {
          nbFramesDrop := nbFramesDrop + 1;
          return false;
        }
        nbFramesDup := nbFramesDup + nb - once;
      }
      lastDropped := nb == nb0 && call.Show?;
      return true;
    }

    /** The switch on the sync method: it may move sync_opts to the input time. */
    method Choose(call: Call) returns (d: Decision)
      modifies this`syncOpts
      ensures d == Decide(cfg, old(View()), call) && View() == old(View()).(syncOpts := d.syncOpts)
    {
      if call.FlushEnd? {
        var m := MidPred(lastNb0.0, lastNb0.1, lastNb0.2);
        return Decision(m, m, syncOpts);
      }
      var ipts, duration := call.ipts, call.duration;
      var delta0 := ipts - syncOpts as real;
      var delta := delta0 + duration;
      var nb, nb0 := 1, 0;
      if delta0 < 0.0 && delta > 0.0 && cfg.sync != Passthrough && cfg.sync != Drop {
        ipts := syncOpts as real;
        duration := duration + delta0;
        delta0 := 0.0;
      }
      if cfg.sync == Vscfr && frameNumber == 0 && delta0 >= 0.5 {
        delta, delta0 := duration, 0.0;
        syncOpts := cfg.lrint(ipts);
      }
      match cfg.sync {
        case Vscfr | Cfr =>
          if cfg.dropThreshold != 0.0 && delta < cfg.dropThreshold && frameNumber != 0 {
            nb := 0;
          } else if delta < -1.1 {
            nb := 0;
          } else if delta > 1.1 {
            nb := cfg.lrintf(delta);
            if delta0 > 1.1 { nb0 := cfg.lrintf(delta0 - 0.6); }
          }
        case Vfr =>
          if delta <= -0.6 {
            nb := 0;
          } else if delta > 0.6 {
            syncOpts := cfg.lrint(ipts);
          }
        case Drop | Passthrough =>
          syncOpts := cfg.lrint(ipts);
      }
      d := Decision(nb, nb0, syncOpts);
    }

    /** Duplicates the frame if needed, and encodes. */
    method EncodeFrames(nb: int, nb0: int, next: Option<Picture>) returns (out: Outcome)
      modifies this
      ensures (View(), out) == EncodeFrom(cfg, old(View()), nb, nb0, next, 0)
    {
      ghost var goal := EncodeFrom(cfg, View(), nb, nb0, next, 0);
      var i := 0;
      while i < nb
        invariant 0 <= i
        invariant EncodeFrom(cfg, View(), nb, nb0, next, i) == goal
      {
        var pic := if i < nb0 && lastFrame.Some? then lastFrame else next;
        if pic.None? { return NoPicture; }
        if PastEnd(cfg, syncOpts) { return TimeUp; }
        encoded := encoded + [Encoded(pic.value, syncOpts)];
        syncOpts := syncOpts + 1;
        frameNumber := frameNumber + 1;
        i := i + 1;
      }
      return Completed;
    }
  }

  // ---------------------------------------------------------------- whole runs

  /** A run; `received` counts pictures, `complete` says that no call returned early. */
  datatype Run = Run(st: State, received: nat, complete: bool)

  function ExecStep(cfg: Config, r: Run, call: Call): Run
  {
    var (st, out) := Step(cfg, r.st, call);
    Run(st, r.received + Bit(call.Show?), r.complete && out == Completed)
  }

  ghost predicate Follows(cfg: Config, r: Run, call: Call, r': Run) { r' == ExecStep(cfg, r, call) }

  /** `runs` are the successive states of the stream over `calls`, from the initial one. */
  ghost predicate IsRun(cfg: Config, calls: seq<Call>, runs: seq<Run>)
  {
    && |runs| == |calls| + 1
    && runs[0] == Run(INIT, 0, true)
    && forall i :: 0 <= i < |calls| ==> Follows(cfg, runs[i], calls[i], runs[i + 1])
  }

  /** Every sequence of calls has its run. */
  lemma {:induction false} RunOf(cfg: Config, calls: seq<Call>) returns (runs: seq<Run>)
    ensures IsRun(cfg, calls, runs)
    decreases |calls|
  {
    if |calls| == 0 {
      runs := [Run(INIT, 0, true)];
    } else {
      var n := |calls| - 1;
      var before := RunOf(cfg, calls[..n]);
      runs := before + [ExecStep(cfg, before[n], calls[n])];
      forall i | 0 <= i < |calls| ensures Follows(cfg, runs[i], calls[i], runs[i + 1]) {
        if i < n { assert Follows(cfg, before[i], calls[..n][i], before[i + 1]); }
      }
    }
  }

  /** The encoding loop appends pictures with consecutive timestamps, all of them if it completes. */
  lemma {:induction false} EncodeShape(cfg: Config, st: State, nb: int, nb0: int, next: Option<Picture>, i: nat)
    ensures
      var (st', out) := EncodeFrom(cfg, st, nb, nb0, next, i);
      var k := |st'.encoded| - |st.encoded|;
      && 0 <= k <= Max(0, nb - i) && (out == Completed ==> k == Max(0, nb - i))
      && st' == st.(encoded := st'.encoded, syncOpts := st.syncOpts + k, frameNumber := st.frameNumber + k)
      && (forall j :: 0 <= j < |st.encoded| ==> st'.encoded[j] == st.encoded[j])
      && (forall j :: |st.encoded| <= j < |st'.encoded| ==>
            st'.encoded[j].pts == st.syncOpts + j - |st.encoded|)
    decreases nb - i
  {
    if i < nb {
      var pic := if i < nb0 && st.lastFrame.Some? then st.lastFrame else next;
      if pic.Some? && !PastEnd(cfg, st.syncOpts) {
        var st1 := st.(encoded := st.encoded + [Encoded(pic.value, st.syncOpts)],
                       syncOpts := st.syncOpts + 1, frameNumber := st.frameNumber + 1);
        EncodeShape(cfg, st1, nb, nb0, next, i + 1);
      }
    }
  }

  // ---------------------------------------------------------------- conservation of frames

  /** print_report adds the frame still pending at the end to the drops. */
  function ReportedDrops(st: State): int { st.drop + Bit(st.lastDropped) }

  ghost predicate Counted(cfg: Config, r: Run)
  {
    var st := r.st;
    && st.lastNb0.0 >= 0 && st.lastNb0.1 >= 0 && st.lastNb0.2 >= 0
    && st.frameNumber == |st.encoded| <= cfg.maxFrames
    && |st.encoded| == r.received + st.dup - ReportedDrops(st)
  }

  lemma DecisionNotNegative(cfg: Config, st: State, call: Call)
    requires cfg.Rounds() && st.lastNb0.0 >= 0 && st.lastNb0.1 >= 0 && st.lastNb0.2 >= 0
    ensures Decide(cfg, st, call).nb >= 0 && Decide(cfg, st, call).nb0 >= 0
    ensures call.FlushEnd? ==> Decide(cfg, st, call).nb == Decide(cfg, st, call).nb0
  {
  }

  lemma StepCounts(cfg: Config, r: Run, call: Call, r': Run)
    requires cfg.Rounds() && Counted(cfg, r)
    requires r' == ExecStep(cfg, r, call) && r'.complete
    ensures Counted(cfg, r')
  {
    var st := r.st;
    DecisionNotNegative(cfg, st, call);
    var d := Limited(cfg, st, Decide(cfg, st, call));
    var st1 := Account(cfg, st, d, call).0;
    EncodeShape(cfg, st1, d.nb, d.nb0, NextPicture(call), 0);
  }

  /**
   Over any run without an early return: frames encoded are pictures received, plus duplicates, minus
   drops, with the drop still pending at the end counted as the final report counts it.
   */
  lemma {:induction false} FramesAreConserved(cfg: Config, calls: seq<Call>, runs: seq<Run>, n: nat)
    requires cfg.Rounds() && cfg.maxFrames >= 0 && IsRun(cfg, calls, runs)
    requires n <= |calls| && runs[n].complete
    ensures Counted(cfg, runs[n])
  {
    if n > 0 {
      assert Follows(cfg, runs[n - 1], calls[n - 1], runs[n]);
      FramesAreConserved(cfg, calls, runs, n - 1);
      StepCounts(cfg, runs[n - 1], calls[n - 1], runs[n]);
    }
  }

  // ---------------------------------------------------------------- timestamps to the encoder

  ghost predicate PtsIncrease(es: seq<Encoded>)
  {
    forall i, j :: 0 <= i < j < |es| ==> es[i].pts < es[j].pts
  }

  ghost predicate Behind(st: State)
  {
    PtsIncrease(st.encoded) && forall i :: 0 <= i < |st.encoded| ==> st.encoded[i].pts < st.syncOpts
  }

  /** A paced stream never moves its next timestamp back: a picture that is early is clipped, or not snapped to. */
  lemma SyncNeverStepsBack(cfg: Config, st: State, call: Call)
    requires cfg.Rounds() && cfg.Paced()
    ensures Decide(cfg, st, call).syncOpts >= st.syncOpts
  {
    if call.Show? {
      var x := if call.ipts < st.syncOpts as real then st.syncOpts as real else call.ipts;
      assert cfg.lrint(x) as real >= st.syncOpts as real - 0.5;
    }
  }

  lemma StepKeepsBehind(cfg: Config, st: State, call: Call, st': State)
    requires cfg.Rounds() && cfg.Paced() && Behind(st) && st' == Step(cfg, st, call).0
    ensures Behind(st')
  {
    SyncNeverStepsBack(cfg, st, call);
    var d := Limited(cfg, st, Decide(cfg, st, call));
    var st1 := Account(cfg, st, d, call).0;
    EncodeShape(cfg, st1, d.nb, d.nb0, NextPicture(call), 0);
    var st2 := EncodeFrom(cfg, st1, d.nb, d.nb0, NextPicture(call), 0).0;
    ExtendBehind(st1, st2);
  }

  lemma ExtendBehind(st: State, st': State)
    requires Behind(st)
    requires |st.encoded| <= |st'.encoded|
    requires forall j :: 0 <= j < |st.encoded| ==> st'.encoded[j] == st.encoded[j]
    requires st'.syncOpts == st.syncOpts + |st'.encoded| - |st.encoded|
    requires forall j :: |st.encoded| <= j < |st'.encoded| ==>
      st'.encoded[j].pts == st.syncOpts + j - |st.encoded|
    ensures Behind(st')
  {
    var n := |st.encoded|;
    forall i, j | 0 <= i < j < |st'.encoded| ensures st'.encoded[i].pts < st'.encoded[j].pts {
      if j < n { assert st.encoded[i].pts < st.encoded[j].pts; }
    }
  }

  /**
   Under CFR, VSCFR and VFR the timestamps sent to the encoder strictly increase over any calls
   whatever, early returns and final flushes included.
   */
  lemma {:induction false} EncoderPtsIncrease(cfg: Config, calls: seq<Call>, runs: seq<Run>, n: nat)
    requires cfg.Rounds() && cfg.Paced() && IsRun(cfg, calls, runs) && n <= |calls|
    ensures Behind(runs[n].st) && PtsIncrease(runs[n].st.encoded)
  {
    if n > 0 {
      assert Follows(cfg, runs[n - 1], calls[n - 1], runs[n]);
      EncoderPtsIncrease(cfg, calls, runs, n - 1);
      StepKeepsBehind(cfg, runs[n - 1].st, calls[n - 1], runs[n].st);
    }
  }

  // ---------------------------------------------------------------- input times passed through

  /** Neither the frame limit is reached, `sent` pictures being encoded, nor the end of the recording. */
  predicate Passes(cfg: Config, call: Call, sent: nat)
  {
    call.Show? && sent < cfg.maxFrames && !PastEnd(cfg, cfg.lrint(call.ipts))
  }

  /** Call `i` gets its picture encoded. */
  predicate PassesThrough(cfg: Config, calls: seq<Call>, i: nat)
    requires i < |calls|
  {
    Passes(cfg, calls[i], |PassedThrough(cfg, calls, i)|)
  }

  /** The pictures of the first `n` calls with their input times rounded, as far as the limits allow. */
  function PassedThrough(cfg: Config, calls: seq<Call>, n: nat): seq<Encoded>
    requires n <= |calls|
  {
    if n == 0 then []
    else
      var before := PassedThrough(cfg, calls, n - 1);
      var c := calls[n - 1];
      if Passes(cfg, c, |before|) then before + [Encoded(c.picture, cfg.lrint(c.ipts))] else before
  }

  /** Neither repeats nor a repeat history ever arise. */
  ghost predicate NoRepeats(cfg: Config, st: State)
  {
    && st.lastNb0.0 <= 0 && st.lastNb0.1 <= 0 && st.lastNb0.2 <= 0
    && st.frameNumber == |st.encoded| <= Max(0, cfg.maxFrames)
  }

  lemma StepPassesThrough(cfg: Config, st: State, call: Call)
    requires (cfg.sync.Passthrough? || cfg.sync.Drop?) && NoRepeats(cfg, st)
    ensures
      var st' := Step(cfg, st, call).0;
      && NoRepeats(cfg, st')
      && st'.encoded ==
        if Passes(cfg, call, |st.encoded|) then st.encoded + [Encoded(call.picture, cfg.lrint(call.ipts))]
        else st.encoded
  {
    var d := Limited(cfg, st, Decide(cfg, st, call));
    var st1 := Account(cfg, st, d, call).0;
    assert d.nb0 <= 0 && (d.nb <= 0 || (d.nb == 1 && call.Show?));
    assert Account(cfg, st, d, call).1;
    if d.nb == 1 && !PastEnd(cfg, d.syncOpts) {
      var st2 := st1.(encoded := st1.encoded + [Encoded(call.picture, d.syncOpts)],
                      syncOpts := d.syncOpts + 1, frameNumber := st1.frameNumber + 1);
      assert EncodeFrom(cfg, st1, 1, 0, NextPicture(call), 0).0 == st2;
    }
  }

  /**
   Under passthrough and drop, over any calls, early returns and flushes included, the encoder is sent
   exactly the pictures shown, each once, with its input time rounded; flushes send nothing.
   */
  lemma {:induction false} PassthroughKeepsTimes(cfg: Config, calls: seq<Call>, runs: seq<Run>, n: nat)
    requires cfg.sync.Passthrough? || cfg.sync.Drop?
    requires IsRun(cfg, calls, runs) && n <= |calls|
    ensures runs[n].st.encoded == PassedThrough(cfg, calls, n)
    ensures NoRepeats(cfg, runs[n].st)
  {
    if n > 0 {
      assert Follows(cfg, runs[n - 1], calls[n - 1], runs[n]);
      PassthroughKeepsTimes(cfg, calls, runs, n - 1);
      StepPassesThrough(cfg, runs[n - 1].st, calls[n - 1]);
    }
  }

  /** The rounded input times of the pictures that pass through strictly increase. */
  ghost predicate RoundedTimesIncrease(cfg: Config, calls: seq<Call>, n: nat)
    requires n <= |calls|
  {
    forall i, j :: 0 <= i < j < n && PassesThrough(cfg, calls, i) && PassesThrough(cfg, calls, j) ==>
      cfg.lrint(calls[i].ipts) < cfg.lrint(calls[j].ipts)
  }

  /** Every encoded picture comes from a call, and every call that passes through is encoded. */
  lemma {:induction false} EncodedComesFrom(cfg: Config, calls: seq<Call>, n: nat, k: nat) returns (i: nat)
    requires n <= |calls| && k < |PassedThrough(cfg, calls, n)|
    ensures i < n && PassesThrough(cfg, calls, i) && |PassedThrough(cfg, calls, i)| == k
    ensures PassedThrough(cfg, calls, n)[k].pts == cfg.lrint(calls[i].ipts)
    decreases n
  {
    if k < |PassedThrough(cfg, calls, n - 1)| {
      i := EncodedComesFrom(cfg, calls, n - 1, k);
    } else {
      i := n - 1;
    }
  }

  lemma {:induction false} PassedIsEncoded(cfg: Config, calls: seq<Call>, i: nat, n: nat)
    requires i < n <= |calls| && PassesThrough(cfg, calls, i)
    ensures |PassedThrough(cfg, calls, i)| < |PassedThrough(cfg, calls, n)|
    ensures PassedThrough(cfg, calls, n)[|PassedThrough(cfg, calls, i)|].pts == cfg.lrint(calls[i].ipts)
    decreases n
  {
    if i < n - 1 { PassedIsEncoded(cfg, calls, i, n - 1); }
  }

  lemma {:induction false} PassedGrows(cfg: Config, calls: seq<Call>, i: nat, n: nat)
    requires i <= n <= |calls|
    ensures |PassedThrough(cfg, calls, i)| <= |PassedThrough(cfg, calls, n)|
    decreases n
  {
    if i < n { PassedGrows(cfg, calls, i, n - 1); }
  }

  lemma InCallOrder(cfg: Config, calls: seq<Call>, n: nat, a: nat, b: nat) returns (i: nat, j: nat)
    requires n <= |calls| && a < b < |PassedThrough(cfg, calls, n)|
    ensures i < j < n && PassesThrough(cfg, calls, i) && PassesThrough(cfg, calls, j)
    ensures PassedThrough(cfg, calls, n)[a].pts == cfg.lrint(calls[i].ipts)
    ensures PassedThrough(cfg, calls, n)[b].pts == cfg.lrint(calls[j].ipts)
  {
    i := EncodedComesFrom(cfg, calls, n, a);
    j := EncodedComesFrom(cfg, calls, n, b);
    if j < i { PassedGrows(cfg, calls, j, i); }
  }

  lemma PassedInOrder(cfg: Config, calls: seq<Call>, n: nat)
    requires n <= |calls| && PtsIncrease(PassedThrough(cfg, calls, n))
    ensures RoundedTimesIncrease(cfg, calls, n)
  {
    forall i, j | 0 <= i < j < n && PassesThrough(cfg, calls, i) && PassesThrough(cfg, calls, j)
      ensures cfg.lrint(calls[i].ipts) < cfg.lrint(calls[j].ipts)
    {
      PassedIsEncoded(cfg, calls, i, n);
      PassedIsEncoded(cfg, calls, j, n);
      PassedIsEncoded(cfg, calls, i, j);
    }
  }

  /** So the pts increase over a run exactly when the rounded times of its pictures strictly increase. */
  lemma PassthroughOrderExactly(cfg: Config, calls: seq<Call>, runs: seq<Run>, n: nat)
    requires cfg.sync.Passthrough? || cfg.sync.Drop?
    requires IsRun(cfg, calls, runs) && n <= |calls|
    ensures PtsIncrease(runs[n].st.encoded) <==> RoundedTimesIncrease(cfg, calls, n)
  {
    PassthroughKeepsTimes(cfg, calls, runs, n);
    var es := PassedThrough(cfg, calls, n);
    if RoundedTimesIncrease(cfg, calls, n) {
      forall a, b | 0 <= a < b < |es| ensures es[a].pts < es[b].pts {
        var i, j := InCallOrder(cfg, calls, n, a, b);
      }
    }
    if PtsIncrease(es) { PassedInOrder(cfg, calls, n); }
  }

  /** Increasing input times are not enough: two pictures a fraction of a tick apart get the same pts. */
  lemma CloseTimesCollide() returns (cfg: Config, calls: seq<Call>, runs: seq<Run>)
    ensures cfg.sync.Passthrough? && cfg.Rounds() && IsRun(cfg, calls, runs) && runs[|calls|].complete
    ensures |calls| == 2 && calls[0].Show? && calls[1].Show? && calls[0].ipts < calls[1].ipts
    ensures !PtsIncrease(runs[|calls|].st.encoded)
  {
    cfg := Config(Passthrough, RoundHalfEven, RoundHalfEven, 0.0, 300.0, 10, None);
    var a, b := Show(Picture(1), 0.25, 1.0), Show(Picture(2), 0.4, 1.0);
    calls := [a, b];
    DefaultRoundingFits(cfg);
    runs := RunOf(cfg, calls);
    assert RoundHalfEven(0.25) == 0 && RoundHalfEven(0.4) == 0;
    assert Follows(cfg, runs[0], a, runs[1]) && Follows(cfg, runs[1], b, runs[2]);
    PassthroughKeepsTimes(cfg, calls, runs, 2);
    assert PassedThrough(cfg, calls, 1) == [Encoded(Picture(1), 0)];
    assert PassedThrough(cfg, calls, 2) == [Encoded(Picture(1), 0), Encoded(Picture(2), 0)];
    assert runs[2].st.encoded[0].pts == runs[2].st.encoded[1].pts;
  }

  // ---------------------------------------------------------------- order of pictures

  ghost predicate OldestFirst(es: seq<Encoded>)
  {
    forall i, j :: 0 <= i < j < |es| ==> es[i].picture.id <= es[j].picture.id
  }

  /** No picture encoded or remembered is newer than `newest`. */
  ghost predicate UpTo(st: State, newest: int)
  {
    && OldestFirst(st.encoded)
    && (forall i :: 0 <= i < |st.encoded| ==> st.encoded[i].picture.id <= newest)
    && (st.lastFrame.Some? ==> st.lastFrame.value.id <= newest)
  }

  /** Repeating the remembered picture keeps the order, or the recording is over. */
  ghost predicate MayRepeat(cfg: Config, st: State)
  {
    || PastEnd(cfg, st.syncOpts)
    || (st.lastFrame.Some? ==>
          forall i :: 0 <= i < |st.encoded| ==> st.encoded[i].picture.id <= st.lastFrame.value.id)
  }

  /** The newest picture among the first `n` calls. */
  function Newest(calls: seq<Call>, n: nat): int
    requires n <= |calls|
  {
    if n == 0 then 0
    else if calls[n - 1].Show? then calls[n - 1].picture.id
    else Newest(calls, n - 1)
  }

  ghost predicate Numbered(calls: seq<Call>)
  {
    forall i :: 0 <= i < |calls| && calls[i].Show? ==> Newest(calls, i) < calls[i].picture.id
  }

  lemma PacedKeepsOrder(cfg: Config, st: State, call: Call, newest: int)
    requires cfg.Rounds() && cfg.Paced() && UpTo(st, newest) && MayRepeat(cfg, st)
    requires call.Show? ==> newest < call.picture.id
    ensures
      var st' := Step(cfg, st, call).0;
      UpTo(st', if call.Show? then call.picture.id else newest) && MayRepeat(cfg, st')
  {
    SyncNeverStepsBack(cfg, st, call);
    var d := Limited(cfg, st, Decide(cfg, st, call));
    var (st1, ok) := Account(cfg, st, d, call);
    assert st1.encoded == st.encoded && st1.lastFrame == st.lastFrame && st1.syncOpts >= st.syncOpts;
    assert MayRepeat(cfg, st1);
    if ok {
      BurstKeepsOrder(cfg, st1, d.nb, d.nb0, NextPicture(call), newest);
    }
  }

  /** What the encoding loop and the end of the call do to the order. */
  lemma BurstKeepsOrder(cfg: Config, st: State, nb: int, nb0: int, next: Option<Picture>, newest: int)
    requires UpTo(st, newest) && MayRepeat(cfg, st)
    requires if next.Some? then newest < next.value.id else nb <= nb0
    ensures
      var (st1, out) := EncodeFrom(cfg, st, nb, nb0, next, 0);
      var st' := if out == Completed then st1.(lastFrame := next) else st1;
      UpTo(st', if next.Some? then next.value.id else newest) && MayRepeat(cfg, st')
  {
    var (st1, out) := EncodeFrom(cfg, st, nb, nb0, next, 0);
    EncodeShape(cfg, st, nb, nb0, next, 0);
    BurstEnds(cfg, st, nb, nb0, next, 0);
    if !PastEnd(cfg, st.syncOpts) {
      BurstInOrder(cfg, st, nb, nb0, next, 0, newest);
      assert st1.lastFrame == st.lastFrame;
      assert out == NoPicture ==> st1 == st;
    }
  }

  /** A call that ends early encodes nothing, or ends behind the end of the recording. */
  lemma {:induction false} BurstEnds(cfg: Config, st: State, nb: int, nb0: int, next: Option<Picture>, i: nat)
    ensures
      var (st', out) := EncodeFrom(cfg, st, nb, nb0, next, i);
      && (PastEnd(cfg, st.syncOpts) ==> st' == st)
      && out != TooManyDuplicates && (out == TimeUp ==> PastEnd(cfg, st'.syncOpts))
      && (out == NoPicture ==> next.None? && (nb <= nb0 ==> st' == st && st.lastFrame.None?))
    decreases nb - i
  {
    if i < nb {
      var pic := if i < nb0 && st.lastFrame.Some? then st.lastFrame else next;
      if pic.Some? && !PastEnd(cfg, st.syncOpts) {
        var st1 := st.(encoded := st.encoded + [Encoded(pic.value, st.syncOpts)],
                       syncOpts := st.syncOpts + 1, frameNumber := st.frameNumber + 1);
        BurstEnds(cfg, st1, nb, nb0, next, i + 1);
      }
    }
  }

  /** The repeats of the previous picture come before the new one. */
  lemma {:induction false} BurstInOrder(cfg: Config, st: State, nb: int, nb0: int, next: Option<Picture>, i: nat, newest: int)
    requires OldestFirst(st.encoded)
    requires next.Some? ==> newest < next.value.id
    requires st.lastFrame.Some? ==> st.lastFrame.value.id <= newest
    requires forall j :: 0 <= j < |st.encoded| ==>
      st.encoded[j].picture.id <=
        if i < nb0 && st.lastFrame.Some? then st.lastFrame.value.id
        else if next.Some? then next.value.id
        else if st.lastFrame.Some? then st.lastFrame.value.id else newest
    ensures
      var st' := EncodeFrom(cfg, st, nb, nb0, next, i).0;
      && OldestFirst(st'.encoded)
      && forall j :: 0 <= j < |st'.encoded| ==>
           st'.encoded[j].picture.id <= if next.Some? then next.value.id else newest
    decreases nb - i
  {
    if i < nb {
      var pic := if i < nb0 && st.lastFrame.Some? then st.lastFrame else next;
      if pic.Some? && !PastEnd(cfg, st.syncOpts) {
        var st1 := st.(encoded := st.encoded + [Encoded(pic.value, st.syncOpts)],
                       syncOpts := st.syncOpts + 1, frameNumber := st.frameNumber + 1);
        BurstInOrder(cfg, st1, nb, nb0, next, i + 1, newest);
      }
    }
  }

  lemma PassedKeepsOrder(cfg: Config, st: State, call: Call, newest: int)
    requires (cfg.sync.Passthrough? || cfg.sync.Drop?) && NoRepeats(cfg, st) && UpTo(st, newest)
    requires call.Show? ==> newest < call.picture.id
    ensures UpTo(Step(cfg, st, call).0, if call.Show? then call.picture.id else newest)
  {
    StepPassesThrough(cfg, st, call);
    var d := Limited(cfg, st, Decide(cfg, st, call));
    EncodeShape(cfg, Account(cfg, st, d, call).0, d.nb, d.nb0, NextPicture(call), 0);
  }

  lemma {:induction false} PacedInOrder(cfg: Config, calls: seq<Call>, runs: seq<Run>, n: nat)
    requires cfg.Rounds() && cfg.Paced() && Numbered(calls) && IsRun(cfg, calls, runs) && n <= |calls|
    ensures UpTo(runs[n].st, Newest(calls, n)) && MayRepeat(cfg, runs[n].st)
  {
    if n > 0 {
      assert Follows(cfg, runs[n - 1], calls[n - 1], runs[n]);
      PacedInOrder(cfg, calls, runs, n - 1);
      PacedKeepsOrder(cfg, runs[n - 1].st, calls[n - 1], Newest(calls, n - 1));
    }
  }

  lemma {:induction false} PassedInTurn(cfg: Config, calls: seq<Call>, runs: seq<Run>, n: nat)
    requires (cfg.sync.Passthrough? || cfg.sync.Drop?) && Numbered(calls) && IsRun(cfg, calls, runs) && n <= |calls|
    ensures UpTo(runs[n].st, Newest(calls, n))
  {
    if n > 0 {
      assert Follows(cfg, runs[n - 1], calls[n - 1], runs[n]);
      PassedInTurn(cfg, calls, runs, n - 1);
      PassthroughKeepsTimes(cfg, calls, runs, n - 1);
      PassedKeepsOrder(cfg, runs[n - 1].st, calls[n - 1], Newest(calls, n - 1));
    }
  }

  /**
   Pictures numbered as they arrive are encoded in that order, however often each is repeated, over any
   run and any sync method, early returns and flushes included.
   */
  lemma PicturesInOrder(cfg: Config, calls: seq<Call>, runs: seq<Run>, n: nat)
    requires cfg.Rounds() && Numbered(calls) && IsRun(cfg, calls, runs) && n <= |calls|
    ensures OldestFirst(runs[n].st.encoded) && UpTo(runs[n].st, Newest(calls, n))
  {
    if cfg.Paced() { PacedInOrder(cfg, calls, runs, n); } else { PassedInTurn(cfg, calls, runs, n); }
  }

  // ---------------------------------------------------------------- which picture is shown when

  /** The encoding loop shows the remembered picture in the first `nb0` places, and the next one in the others. */
  lemma {:induction false} BurstShows(cfg: Config, st: State, nb: int, nb0: int, next: Option<Picture>, i: nat, j: nat)
    requires |st.encoded| <= j < |EncodeFrom(cfg, st, nb, nb0, next, i).0.encoded|
    ensures
      var e := EncodeFrom(cfg, st, nb, nb0, next, i).0.encoded[j];
      var place := i + j - |st.encoded|;
      && e.pts == st.syncOpts + j - |st.encoded|
      && Some(e.picture) == if place < nb0 && st.lastFrame.Some? then st.lastFrame else next
    decreases nb - i
  {
    var pic := if i < nb0 && st.lastFrame.Some? then st.lastFrame else next;
    var st1 := st.(encoded := st.encoded + [Encoded(pic.value, st.syncOpts)],
                   syncOpts := st.syncOpts + 1, frameNumber := st.frameNumber + 1);
    if j > |st.encoded| {
      BurstShows(cfg, st1, nb, nb0, next, i + 1, j);
    } else {
      EncodeShape(cfg, st1, nb, nb0, next, i + 1);
    }
  }

  /** A call leaves what is encoded as it is, and adds frames. */
  lemma StepAdds(cfg: Config, st: State, call: Call)
    ensures
      var st' := Step(cfg, st, call).0;
      |st.encoded| <= |st'.encoded| && st'.encoded[..|st.encoded|] == st.encoded
  {
    var d := Limited(cfg, st, Decide(cfg, st, call));
    var st1 := Account(cfg, st, d, call).0;
    EncodeShape(cfg, st1, d.nb, d.nb0, NextPicture(call), 0);
  }

  /** The frames a call adds, one by one: `nb0` of its decision show the remembered picture. */
  lemma StepShows(cfg: Config, st: State, call: Call, j: nat)
    requires |st.encoded| <= j < |Step(cfg, st, call).0.encoded|
    ensures
      var e, d := Step(cfg, st, call).0.encoded[j], Limited(cfg, st, Decide(cfg, st, call));
      && e.pts == d.syncOpts + j - |st.encoded| && j - |st.encoded| < d.nb
      && Some(e.picture) == if j - |st.encoded| < d.nb0 && st.lastFrame.Some? then st.lastFrame else NextPicture(call)
  {
    var d := Limited(cfg, st, Decide(cfg, st, call));
    var st1 := Account(cfg, st, d, call).0;
    EncodeShape(cfg, st1, d.nb, d.nb0, NextPicture(call), 0);
    BurstShows(cfg, st1, d.nb, d.nb0, NextPicture(call), 0, j);
  }

  /**
   The picture just shown takes over from the one before it 1.1 ticks before its time: a frame behind that
   moment shows it, and one in front of it still shows the picture before. Paced streams at a constant rate
   repeat; the others show nothing but the new picture.
   */
  predicate OnTime(e: Encoded, before: Picture, picture: Picture, ipts: real)
  {
    || (e.picture == picture && e.pts as real >= ipts - 1.1)
    || (e.picture == before && e.pts as real <= ipts - 1.1)
  }

  lemma ShownOnTime(cfg: Config, st: State, call: Call, j: nat)
    requires cfg.Rounds() && call.Show? && call.duration >= 0.0
    requires |st.encoded| <= j < |Step(cfg, st, call).0.encoded|
    ensures
      var e := Step(cfg, st, call).0.encoded[j];
      if st.lastFrame.Some? then OnTime(e, st.lastFrame.value, call.picture, call.ipts) else e.picture == call.picture
    ensures cfg.sync.Vfr? || cfg.sync.Passthrough? || cfg.sync.Drop? ==>
      Step(cfg, st, call).0.encoded[j].picture == call.picture
  {
    StepShows(cfg, st, call, j);
  }

  /** Over any run, every frame added by a call is on time. */
  lemma RunIsOnTime(cfg: Config, calls: seq<Call>, runs: seq<Run>, i: nat, j: nat)
    requires cfg.Rounds() && IsRun(cfg, calls, runs) && i < |calls| && calls[i].Show? && calls[i].duration >= 0.0
    requires |runs[i].st.encoded| <= j < |runs[i + 1].st.encoded|
    ensures
      var e, last := runs[i + 1].st.encoded[j], runs[i].st.lastFrame;
      if last.Some? then OnTime(e, last.value, calls[i].picture, calls[i].ipts) else e.picture == calls[i].picture
  {
    assert Follows(cfg, runs[i], calls[i], runs[i + 1]);
    ShownOnTime(cfg, runs[i].st, calls[i], j);
  }

  /** As long as no call returns early, the remembered picture is the one of the call before. */
  lemma LastFrameIsPrevious(cfg: Config, calls: seq<Call>, runs: seq<Run>, i: nat)
    requires IsRun(cfg, calls, runs) && 0 < i <= |calls| && runs[i].complete
    ensures runs[i].st.lastFrame == NextPicture(calls[i - 1])
  {
    assert Follows(cfg, runs[i - 1], calls[i - 1], runs[i]);
  }

  /**
   So over any run of pictures without early return the encoder is sent, in every call but the first, the
   picture before up to 1.1 ticks before the time of the new one, and the new one from there on.
   */
  lemma PicturesSwitchOnTime(cfg: Config, calls: seq<Call>, runs: seq<Run>, i: nat)
    requires cfg.Rounds() && IsRun(cfg, calls, runs) && 0 < i < |calls| && runs[i].complete
    requires calls[i - 1].Show? && calls[i].Show? && calls[i].duration >= 0.0
    ensures
      var es, was := runs[i + 1].st.encoded, |runs[i].st.encoded|;
      was <= |es| && forall j :: was <= j < |es| ==>
        OnTime(es[j], calls[i - 1].picture, calls[i].picture, calls[i].ipts)
  {
    assert Follows(cfg, runs[i], calls[i], runs[i + 1]);
    StepAdds(cfg, runs[i].st, calls[i]);
    LastFrameIsPrevious(cfg, calls, runs, i);
    var es, was := runs[i + 1].st.encoded, |runs[i].st.encoded|;
    forall j | was <= j < |es| ensures OnTime(es[j], calls[i - 1].picture, calls[i].picture, calls[i].ipts) {
      RunIsOnTime(cfg, calls, runs, i, j);
    }
  }

  // ---------------------------------------------------------------- how many frames

  function EndTime(call: Call): real
    requires call.Show?
  {
    call.ipts + call.duration
  }

  /** How far the output clock stands past the end of the picture just shown. */
  function Ahead(st: State, call: Call): real
    requires call.Show?
  {
    st.syncOpts as real - EndTime(call)
  }

  /** Neither the frame limit, nor the recording time, nor oversize duplication cut the call short. */
  predicate Free(cfg: Config, st: State, call: Call)
  {
    Step(cfg, st, call).1 == Completed && Decide(cfg, st, call).nb <= cfg.maxFrames - st.frameNumber
  }

  /** A picture that comes so early, measured at its end, that a constant rate has no frame for it. */
  predicate TooEarly(cfg: Config, st: State, call: Call)
    requires call.Show?
  {
    var delta := EndTime(call) - st.syncOpts as real;
    delta < -1.1 || (cfg.dropThreshold != 0.0 && delta < cfg.dropThreshold && st.frameNumber != 0)
  }

  /**
   At a constant rate a picture adds no frame exactly if it comes too early, one if it ends within 1.1 ticks
   of the next timestamp, and otherwise as many as bring the next timestamp within half a tick of its end.
   */
  lemma ConstantExactly(cfg: Config, st: State, call: Call)
    requires cfg.Rounds() && cfg.sync.Cfr? && call.Show? && Free(cfg, st, call)
    ensures
      var st' := Step(cfg, st, call).0;
      var delta := EndTime(call) - st.syncOpts as real;
      && |st'.encoded| - |st.encoded| == st'.syncOpts - st.syncOpts
      && (st'.syncOpts == st.syncOpts <==> TooEarly(cfg, st, call))
      && (!TooEarly(cfg, st, call) && delta <= 1.1 ==> st'.syncOpts == st.syncOpts + 1)
      && (!TooEarly(cfg, st, call) && delta > 1.1 ==> -0.5 <= Ahead(st', call) <= 0.5)
  {
    var d := Limited(cfg, st, Decide(cfg, st, call));
    var st1 := Account(cfg, st, d, call).0;
    EncodeShape(cfg, st1, d.nb, d.nb0, NextPicture(call), 0);
  }

  /**
   With a variable start the first picture, if it is half a tick late or more, is not preceded by any frame:
   the output begins at its rounded time. From then on the rate is constant.
   */
  lemma VariableStart(cfg: Config, st: State, call: Call)
    requires cfg.Rounds() && cfg.sync.Vscfr? && call.Show? && call.duration >= 0.0
    ensures st.frameNumber == 0 && call.ipts - st.syncOpts as real >= 0.5 ==>
      var d := Decide(cfg, st, call);
      && -0.5 <= d.syncOpts as real - call.ipts <= 0.5 && d.nb0 == 0 && d.nb >= 1
      && (if call.duration <= 1.1 then d.nb == 1 else -0.5 <= d.nb as real - call.duration <= 0.5)
    ensures st.frameNumber != 0 ==> Step(cfg, st, call) == Step(cfg.(sync := Cfr), st, call)
  {
    if st.frameNumber != 0 {
      var cfr := cfg.(sync := Cfr);
      var d := Limited(cfg, st, Decide(cfg, st, call));
      assert d == Limited(cfr, st, Decide(cfr, st, call));
      var (st1, ok) := Account(cfg, st, d, call);
      assert (st1, ok) == Account(cfr, st, d, call);
      SameLoop(cfg, cfr, st1, d.nb, d.nb0, NextPicture(call), 0);
    }
  }

  lemma {:induction false} SameLoop(cfg: Config, other: Config, st: State, nb: int, nb0: int, next: Option<Picture>, i: nat)
    requires cfg.endTime == other.endTime
    ensures EncodeFrom(cfg, st, nb, nb0, next, i) == EncodeFrom(other, st, nb, nb0, next, i)
    decreases nb - i
  {
    if i < nb {
      var pic := if i < nb0 && st.lastFrame.Some? then st.lastFrame else next;
      if pic.Some? && !PastEnd(cfg, st.syncOpts) {
        SameLoop(cfg, other, st.(encoded := st.encoded + [Encoded(pic.value, st.syncOpts)],
          syncOpts := st.syncOpts + 1, frameNumber := st.frameNumber + 1), nb, nb0, next, i + 1);
      }
    }
  }

  /**
   No frame is encoded at or behind the end of the recording, and a call that stops there has reached it. A
   burst longer than the threshold is skipped as a whole, and counted as one drop.
   */
  lemma LimitsHold(cfg: Config, st: State, call: Call)
    ensures
      var (st', out) := Step(cfg, st, call);
      var n := |st.encoded|;
      && n <= |st'.encoded|
      && (forall j :: n <= j < |st'.encoded| && cfg.endTime.Some? ==> st'.encoded[j].pts as real < cfg.endTime.value)
      && (out == TimeUp ==> cfg.endTime.Some? && st'.syncOpts as real >= cfg.endTime.value)
      && (out == TooManyDuplicates ==> st'.encoded == st.encoded && st'.dup == st.dup && st'.lastFrame == st.lastFrame)
      && (out != TooManyDuplicates ==> (|st'.encoded| - n) as real <= MaxReal(cfg.oversize, 2.0))
  {
    var d := Limited(cfg, st, Decide(cfg, st, call));
    var st1 := Account(cfg, st, d, call).0;
    EncodeShape(cfg, st1, d.nb, d.nb0, NextPicture(call), 0);
    BurstEnds(cfg, st1, d.nb, d.nb0, NextPicture(call), 0);
    BurstInTime(cfg, st1, d.nb, d.nb0, NextPicture(call), 0);
  }

  lemma {:induction false} BurstInTime(cfg: Config, st: State, nb: int, nb0: int, next: Option<Picture>, i: nat)
    ensures
      var (st', out) := EncodeFrom(cfg, st, nb, nb0, next, i);
      && |st.encoded| <= |st'.encoded| && out != TooManyDuplicates
      && forall j :: |st.encoded| <= j < |st'.encoded| && cfg.endTime.Some? ==>
           st'.encoded[j].pts as real < cfg.endTime.value
    decreases nb - i
  {
    EncodeShape(cfg, st, nb, nb0, next, i);
    if i < nb {
      var pic := if i < nb0 && st.lastFrame.Some? then st.lastFrame else next;
      if pic.Some? && !PastEnd(cfg, st.syncOpts) {
        var st1 := st.(encoded := st.encoded + [Encoded(pic.value, st.syncOpts)],
                       syncOpts := st.syncOpts + 1, frameNumber := st.frameNumber + 1);
        BurstInTime(cfg, st1, nb, nb0, next, i + 1);
        EncodeShape(cfg, st1, nb, nb0, next, i + 1);
      }
    }
  }

  /** `m` stands between the other two. */
  predicate IsMedian(m: int, a: int, b: int, c: int)
  {
    || (m == a && (b <= a <= c || c <= a <= b))
    || (m == b && (a <= b <= c || c <= b <= a))
    || (m == c && (a <= c <= b || b <= c <= a))
  }

  /** A call remembers how many places it gave to the picture before, and the numbers of two calls before it. */
  lemma RepeatsAreRemembered(cfg: Config, st: State, call: Call)
    ensures
      var st' := Step(cfg, st, call).0;
      && st'.lastNb0.1 == st.lastNb0.0 && st'.lastNb0.2 == st.lastNb0.1
      && (forall j :: |st.encoded| <= j < |st'.encoded| && st.lastFrame.Some? && NextPicture(call) != st.lastFrame ==>
            (Some(st'.encoded[j].picture) == st.lastFrame <==> j - |st.encoded| < st'.lastNb0.0))
      && (Step(cfg, st, call).1 == Completed && call.Show? && st'.lastNb0.0 >= 0 ==>
            st'.lastNb0.0 <= |st'.encoded| - |st.encoded|)
  {
    var d := Limited(cfg, st, Decide(cfg, st, call));
    var st1 := Account(cfg, st, d, call).0;
    EncodeShape(cfg, st1, d.nb, d.nb0, NextPicture(call), 0);
    forall j | |st.encoded| <= j < |Step(cfg, st, call).0.encoded|
      ensures Some(Step(cfg, st, call).0.encoded[j].picture) ==
        if j - |st.encoded| < d.nb0 && st.lastFrame.Some? then st.lastFrame else NextPicture(call)
    {
      StepShows(cfg, st, call, j);
    }
  }

  /** The final flush repeats the last picture as often as the median of these three numbers. */
  lemma FlushRepeatsMedian(cfg: Config, st: State)
    requires st.lastFrame.Some? && Free(cfg, st, FlushEnd)
    ensures
      var st' := Step(cfg, st, FlushEnd).0;
      && (exists m :: IsMedian(m, st.lastNb0.0, st.lastNb0.1, st.lastNb0.2)
            && |st'.encoded| == |st.encoded| + Max(0, m))
      && (forall j :: |st.encoded| <= j < |st'.encoded| ==>
            st'.encoded[j] == Encoded(st.lastFrame.value, st.syncOpts + j - |st.encoded|))
  {
    var m := MidPred(st.lastNb0.0, st.lastNb0.1, st.lastNb0.2);
    assert IsMedian(m, st.lastNb0.0, st.lastNb0.1, st.lastNb0.2);
    var d := Limited(cfg, st, Decide(cfg, st, FlushEnd));
    var st1 := Account(cfg, st, d, FlushEnd).0;
    EncodeShape(cfg, st1, d.nb, d.nb0, None, 0);
    forall j | |st.encoded| <= j < |Step(cfg, st, FlushEnd).0.encoded|
      ensures Step(cfg, st, FlushEnd).0.encoded[j] == Encoded(st.lastFrame.value, st.syncOpts + j - |st.encoded|)
    {
      StepShows(cfg, st, FlushEnd, j);
    }
  }

  // ---------------------------------------------------------------- what is counted as dropped

  ghost predicate IsShown(es: seq<Encoded>, picture: Picture) { exists j :: 0 <= j < |es| && es[j].picture == picture }

  /** How many pictures of the calls are nowhere among the encoded ones. */
  ghost function NeverShown(calls: seq<Call>, es: seq<Encoded>): nat
  {
    if |calls| == 0 then 0
    else
      var call := calls[|calls| - 1];
      NeverShown(calls[..|calls| - 1], es) + if call.Show? && !IsShown(es, call.picture) then 1 else 0
  }

  lemma {:induction false} NeverShownAlike(calls: seq<Call>, es: seq<Encoded>, es': seq<Encoded>)
    requires forall c :: c in calls && c.Show? ==> (IsShown(es, c.picture) <==> IsShown(es', c.picture))
    ensures NeverShown(calls, es) == NeverShown(calls, es')
    decreases |calls|
  {
    if |calls| > 0 { NeverShownAlike(calls[..|calls| - 1], es, es'); }
  }

  /** Pending as a drop although it has been shown: as the first picture, in the places of one before it. */
  ghost predicate Mislaid(st: State)
  {
    st.lastDropped && st.lastFrame.Some? && IsShown(st.encoded, st.lastFrame.value)
  }

  /** Pictures that were mislaid and not repeated by the call after theirs. */
  ghost function Mislaids(runs: seq<Run>): nat
  {
    if |runs| <= 1 then 0
    else
      var n := |runs| - 1;
      Mislaids(runs[..n]) + if Mislaid(runs[n - 1].st) && runs[n].st.lastNb0.0 <= 0 then 1 else 0
  }

  ghost function Pending(st: State): nat { if Mislaid(st) then 1 else 0 }

  ghost predicate Tallied(calls: seq<Call>, runs: seq<Run>, n: nat)
    requires n <= |calls| && n < |runs|
  {
    var st := runs[n].st;
    && ReportedDrops(st) == NeverShown(calls[..n], st.encoded) + Mislaids(runs[..n + 1]) + Pending(st)
    && (n == 0 ==> st.lastFrame.None?) && (n > 0 ==> st.lastFrame == NextPicture(calls[n - 1]))
    && (st.lastDropped ==> st.lastFrame.Some?)
    && (st.lastFrame.Some? && !st.lastDropped ==> IsShown(st.encoded, st.lastFrame.value))
  }

  lemma {:induction false} NewestIsNewest(calls: seq<Call>, i: nat, n: nat)
    requires Numbered(calls) && i < n <= |calls| && calls[i].Show?
    ensures calls[i].picture.id <= Newest(calls, n)
    decreases n
  {
    if i < n - 1 { NewestIsNewest(calls, i, n - 1); }
  }

  /** A completed call shows the pictures of its decision, and no others anew. */
  lemma WhatIsShown(cfg: Config, st: State, call: Call, picture: Picture)
    requires Step(cfg, st, call).1 == Completed
    ensures
      var st', d := Step(cfg, st, call).0, Limited(cfg, st, Decide(cfg, st, call));
      var repeated := d.nb > 0 && d.nb0 > 0 && st.lastFrame == Some(picture);
      var anew := NextPicture(call) == Some(picture) && d.nb > 0 && (d.nb > d.nb0 || st.lastFrame.None?);
      IsShown(st'.encoded, picture) <==> IsShown(st.encoded, picture) || repeated || anew
  {
    var st', d := Step(cfg, st, call).0, Limited(cfg, st, Decide(cfg, st, call));
    var n := |st.encoded|;
    StepAdds(cfg, st, call);
    AllPlaces(cfg, st, call);
    if j :| 0 <= j < n && st.encoded[j].picture == picture {
      assert st'.encoded[j] == st'.encoded[..n][j];
    }
    if d.nb > 0 {
      StepShows(cfg, st, call, n);
      assert st'.encoded[n].picture == st'.encoded[n].picture;
      if d.nb > d.nb0 && d.nb0 > 0 { StepShows(cfg, st, call, n + d.nb0); }
    }
    if j :| 0 <= j < |st'.encoded| && st'.encoded[j].picture == picture {
      if j < n { assert st'.encoded[..n][j] == st.encoded[j]; } else { StepShows(cfg, st, call, j); }
    }
  }

  lemma AllPlaces(cfg: Config, st: State, call: Call)
    requires Step(cfg, st, call).1 == Completed
    ensures
      var d := Limited(cfg, st, Decide(cfg, st, call));
      |Step(cfg, st, call).0.encoded| == |st.encoded| + Max(0, d.nb)
  {
    var d := Limited(cfg, st, Decide(cfg, st, call));
    var st1 := Account(cfg, st, d, call).0;
    EncodeShape(cfg, st1, d.nb, d.nb0, NextPicture(call), 0);
  }

  /** What a call counts. */
  lemma WhatIsCounted(cfg: Config, st: State, call: Call)
    requires Step(cfg, st, call).1 == Completed
    ensures
      var st', d := Step(cfg, st, call).0, Limited(cfg, st, Decide(cfg, st, call));
      && st'.drop == st.drop + Bit(d.nb0 == 0 && st.lastDropped) && st'.lastNb0.0 == d.nb0
      && st'.lastDropped == (d.nb == d.nb0 && call.Show?) && st'.lastFrame == NextPicture(call)
  {
    var d := Limited(cfg, st, Decide(cfg, st, call));
    var st1 := Account(cfg, st, d, call).0;
    EncodeShape(cfg, st1, d.nb, d.nb0, NextPicture(call), 0);
  }

  /**
   Over any run without early return, the drops as finally reported are the pictures that were never encoded,
   and those mislaid.
   */
  lemma {:induction false} DropsAreNeverShown(cfg: Config, calls: seq<Call>, runs: seq<Run>, n: nat)
    requires cfg.Rounds() && cfg.maxFrames >= 0 && Numbered(calls) && IsRun(cfg, calls, runs)
    requires n <= |calls| && runs[n].complete
    ensures Tallied(calls, runs, n)
  {
    if n == 0 {
      NothingTallied(calls, runs, n);
    } else {
      StaysTallied(cfg, calls, runs, n - 1);
      DropsAreNeverShown(cfg, calls, runs, n - 1);
    }
  }

  lemma StaysTallied(cfg: Config, calls: seq<Call>, runs: seq<Run>, n: nat)
    requires cfg.Rounds() && cfg.maxFrames >= 0 && Numbered(calls) && IsRun(cfg, calls, runs)
    requires n < |calls| && runs[n + 1].complete
    ensures runs[n].complete && (Tallied(calls, runs, n) ==> Tallied(calls, runs, n + 1))
  {
    assert Follows(cfg, runs[n], calls[n], runs[n + 1]);
    FramesAreConserved(cfg, calls, runs, n);
    PicturesInOrder(cfg, calls, runs, n);
    OneMoreTallied(cfg, calls, runs, n);
  }

  lemma NothingTallied(calls: seq<Call>, runs: seq<Run>, n: nat)
    requires n == 0 && |runs| > 0 && NothingYet(runs[n].st)
    ensures Tallied(calls, runs, n)
  {
  }

  predicate NothingYet(st: State) { st.drop == 0 && !st.lastDropped && st.lastFrame.None? && st.encoded == [] }

  lemma OneMoreTallied(cfg: Config, calls: seq<Call>, runs: seq<Run>, n: nat)
    requires cfg.Rounds() && cfg.maxFrames >= 0 && Numbered(calls) && n < |calls| && n + 1 < |runs|
    requires Follows(cfg, runs[n], calls[n], runs[n + 1]) && runs[n + 1].complete
    ensures Tallied(calls, runs, n) && Counted(cfg, runs[n]) && UpTo(runs[n].st, Newest(calls, n)) ==>
      Tallied(calls, runs, n + 1)
  {
    if !(Tallied(calls, runs, n) && Counted(cfg, runs[n]) && UpTo(runs[n].st, Newest(calls, n))) { return; }
    var st, st', call := runs[n].st, runs[n + 1].st, calls[n];
    var d := Limited(cfg, st, Decide(cfg, st, call));
    DecisionNotNegative(cfg, st, call);
    WhatIsCounted(cfg, st, call);
    if call.Show? {
      WhatIsShown(cfg, st, call, call.picture);
      assert !IsShown(st.encoded, call.picture);
    }
    assert calls[..n + 1][..n] == calls[..n] && runs[..n + 2][..n + 1] == runs[..n + 1];
    if n > 0 {
      assert calls[..n][..n - 1] == calls[..n - 1];
      EarlierPictures(cfg, calls, runs, n);
      if st.lastFrame.Some? {
        WhatIsShown(cfg, st, call, st.lastFrame.value);
        NewestIsNewest(calls, n - 1, n);
      }
    }
  }

  /** Whether a picture is shown changes for none but the last two. */
  lemma EarlierPictures(cfg: Config, calls: seq<Call>, runs: seq<Run>, n: nat)
    requires Numbered(calls) && 0 < n < |calls| && n + 1 < |runs|
    requires Follows(cfg, runs[n], calls[n], runs[n + 1]) && runs[n + 1].complete
    requires runs[n].st.lastFrame == NextPicture(calls[n - 1])
    ensures NeverShown(calls[..n - 1], runs[n].st.encoded) == NeverShown(calls[..n - 1], runs[n + 1].st.encoded)
  {
    var es, es' := runs[n].st.encoded, runs[n + 1].st.encoded;
    forall c | c in calls[..n - 1] && c.Show? ensures IsShown(es, c.picture) <==> IsShown(es', c.picture) {
      var i :| 0 <= i < n - 1 && calls[i] == c;
      WhatIsShown(cfg, runs[n].st, calls[n], calls[i].picture);
      NewestIsNewest(calls, i, n - 1);
      NewestIsNewest(calls, i, n);
    }
    NeverShownAlike(calls[..n - 1], es, es');
  }

  /** A picture is mislaid only if it is more than 1.1 ticks late and there is none before it. */
  lemma MislaidIsLate(cfg: Config, st: State, call: Call)
    requires cfg.Rounds() && call.Show? && Step(cfg, st, call).1 == Completed
    requires !IsShown(st.encoded, call.picture) && st.lastFrame != Some(call.picture)
    requires Mislaid(Step(cfg, st, call).0)
    ensures st.lastFrame.None? && call.ipts - st.syncOpts as real > 1.1 && (cfg.sync.Cfr? || cfg.sync.Vscfr?)
  {
    WhatIsCounted(cfg, st, call);
    WhatIsShown(cfg, st, call, call.picture);
  }

  /** With none before it, exactly if all the frames of its call are meant for that one. */
  lemma MislaidExactly(cfg: Config, st: State, call: Call)
    requires call.Show? && st.lastFrame.None? && Step(cfg, st, call).1 == Completed && !IsShown(st.encoded, call.picture)
    ensures
      var d := Limited(cfg, st, Decide(cfg, st, call));
      Mislaid(Step(cfg, st, call).0) <==> 0 < d.nb == d.nb0
  {
    WhatIsCounted(cfg, st, call);
    WhatIsShown(cfg, st, call, call.picture);
  }

  /** Pictures with none before them come at most 1.1 ticks late. */
  ghost predicate Prompt(calls: seq<Call>, runs: seq<Run>)
    requires |runs| == |calls| + 1
  {
    forall i :: 0 <= i < |calls| && calls[i].Show? && runs[i].st.lastFrame.None? ==>
      calls[i].ipts - runs[i].st.syncOpts as real <= 1.1
  }

  lemma PromptIsNotMislaid(cfg: Config, calls: seq<Call>, runs: seq<Run>, i: nat)
    requires cfg.Rounds() && Numbered(calls) && IsRun(cfg, calls, runs) && Prompt(calls, runs)
    requires i < |calls| && runs[i + 1].complete
    ensures !Mislaid(runs[i + 1].st)
  {
    assert Follows(cfg, runs[i], calls[i], runs[i + 1]);
    PicturesInOrder(cfg, calls, runs, i);
    WhatIsCounted(cfg, runs[i].st, calls[i]);
    if Mislaid(runs[i + 1].st) {
      MislaidIsLate(cfg, runs[i].st, calls[i]);
      assert false;
    }
  }

  lemma {:induction false} NoneMislaid(runs: seq<Run>)
    requires forall m :: 0 <= m < |runs| ==> !Mislaid(runs[m].st)
    ensures Mislaids(runs) == 0
    decreases |runs|
  {
    if |runs| > 1 { NoneMislaid(runs[..|runs| - 1]); }
  }

  lemma {:induction false} CompleteBefore(cfg: Config, calls: seq<Call>, runs: seq<Run>, m: nat, n: nat)
    requires IsRun(cfg, calls, runs) && m <= n <= |calls| && runs[n].complete
    ensures runs[m].complete
    decreases n
  {
    if m < n {
      assert Follows(cfg, runs[n - 1], calls[n - 1], runs[n]);
      CompleteBefore(cfg, calls, runs, m, n - 1);
    }
  }

  /** So over such a run the reported drops are exactly the pictures that were never encoded. */
  lemma DropsExactly(cfg: Config, calls: seq<Call>, runs: seq<Run>, n: nat)
    requires cfg.Rounds() && cfg.maxFrames >= 0 && Numbered(calls) && IsRun(cfg, calls, runs) && Prompt(calls, runs)
    requires n <= |calls| && runs[n].complete
    ensures ReportedDrops(runs[n].st) == NeverShown(calls[..n], runs[n].st.encoded)
  {
    DropsAreNeverShown(cfg, calls, runs, n);
    forall m: nat | m <= n ensures !Mislaid(runs[m].st) {
      CompleteBefore(cfg, calls, runs, m, n);
      if m > 0 { PromptIsNotMislaid(cfg, calls, runs, m - 1); }
    }
    var first := runs[..n + 1];
    forall m | 0 <= m < |first| ensures !Mislaid(first[m].st) { assert first[m] == runs[m]; }
    NoneMislaid(first);
  }

  /** It happens: a first picture without duration, at 2.4 ticks, is encoded twice and reported as a drop. */
  lemma FirstPictureMislaid() returns (cfg: Config, calls: seq<Call>, runs: seq<Run>)
    ensures cfg.sync.Cfr? && cfg.Rounds() && IsRun(cfg, calls, runs) && |calls| == 1 && runs[1].complete
    ensures runs[1].st.encoded == [Encoded(Picture(1), 0), Encoded(Picture(1), 1)] && ReportedDrops(runs[1].st) == 1
  {
    cfg := Config(Cfr, RoundHalfEven, RoundHalfEven, 0.0, 300.0, 10, None);
    var call := Show(Picture(1), 2.4, 0.0);
    calls := [call];
    DefaultRoundingFits(cfg);
    runs := RunOf(cfg, calls);
    assert Follows(cfg, runs[0], calls[0], runs[1]);
    assert RoundHalfEven(2.4) == 2 && RoundHalfEven(1.8) == 2;
    var d := Limited(cfg, INIT, Decide(cfg, INIT, call));
    assert d == Decision(2, 2, 0);
    TwoPlaces(cfg, call);
  }

  lemma TwoPlaces(cfg: Config, call: Call)
    requires Limited(cfg, INIT, Decide(cfg, INIT, call)) == Decision(2, 2, 0)
    requires call.Show? && cfg.oversize > 2.0 && cfg.endTime.None?
    ensures
      var (st, out) := Step(cfg, INIT, call);
      && out == Completed && ReportedDrops(st) == 1
      && st.encoded == [Encoded(call.picture, 0), Encoded(call.picture, 1)]
  {
    var st1 := Account(cfg, INIT, Decision(2, 2, 0), call).0;
    var e0, e1 := Encoded(call.picture, 0), Encoded(call.picture, 1);
    assert [] + [e0] == [e0] && [e0] + [e1] == [e0, e1];
    var st2 := st1.(encoded := [e0], syncOpts := 1, frameNumber := 1);
    var st3 := st2.(encoded := [e0, e1], syncOpts := 2, frameNumber := 2);
    assert EncodeFrom(cfg, st3, 2, 2, Some(call.picture), 2) == (st3, Completed);
    assert EncodeFrom(cfg, st2, 2, 2, Some(call.picture), 1) == (st3, Completed);
    assert EncodeFrom(cfg, st1, 2, 2, Some(call.picture), 0) == (st3, Completed);
  }

  // ---------------------------------------------------------------- the drift bound

  lemma DriftStep(cfg: Config, st: State, call: Call, st': State)
    requires cfg.Rounds() && cfg.sync.Cfr? && cfg.dropThreshold == 0.0
    requires call.Show? && Free(cfg, st, call) && st' == Step(cfg, st, call).0
    ensures -0.5 <= Ahead(st', call)
    ensures Ahead(st', call) <= 2.1 || Ahead(st', call) == Ahead(st, call)
  {
    var d := Limited(cfg, st, Decide(cfg, st, call));
    var st1 := Account(cfg, st, d, call).0;
    EncodeShape(cfg, st1, d.nb, d.nb0, NextPicture(call), 0);
  }

  /** Pictures whose end times do not decrease, none of which is cut short. */
  ghost predicate SteadyInput(cfg: Config, calls: seq<Call>, runs: seq<Run>)
    requires |runs| == |calls| + 1
  {
    && (forall i :: 0 <= i < |calls| ==> calls[i].Show? && Free(cfg, runs[i].st, calls[i]))
    && (forall i, j :: 0 <= i < j < |calls| ==> EndTime(calls[i]) <= EndTime(calls[j]))
  }

  /**
   At a constant rate the output never lags the input by more than half a frame, nor runs ahead by
   more than 2.1 frames beyond where it started, after every picture of any run.
   */
  lemma {:induction false} DriftIsBounded(cfg: Config, calls: seq<Call>, runs: seq<Run>, n: nat)
    requires cfg.Rounds() && cfg.sync.Cfr? && cfg.dropThreshold == 0.0
    requires IsRun(cfg, calls, runs) && SteadyInput(cfg, calls, runs) && n < |calls|
    ensures -0.5 <= Ahead(runs[n + 1].st, calls[n]) <= MaxReal(2.1, Ahead(INIT, calls[0]))
  {
    assert Follows(cfg, runs[n], calls[n], runs[n + 1]);
    assert Free(cfg, runs[n].st, calls[n]);
    DriftStep(cfg, runs[n].st, calls[n], runs[n + 1].st);
    if n > 0 {
      DriftIsBounded(cfg, calls, runs, n - 1);
      assert EndTime(calls[n - 1]) <= EndTime(calls[n]);
    }
  }

  /**
   Under VFR a picture is dropped exactly when it ends at least 0.6 ticks before the next timestamp;
   otherwise it is encoded once, within 0.6 ticks of its end, or of its time or the next timestamp,
   whichever is later.
   */
  lemma VfrFollowsInput(cfg: Config, st: State, picture: Picture, ipts: real, duration: real)
    requires cfg.Rounds() && cfg.sync.Vfr? && Free(cfg, st, Show(picture, ipts, duration))
    ensures
      var st' := Step(cfg, st, Show(picture, ipts, duration)).0;
      var end, next := ipts + duration, st.syncOpts as real;
      if end <= next - 0.6 then st'.encoded == st.encoded && st'.syncOpts == st.syncOpts
      else
        && |st'.encoded| == |st.encoded| + 1
        && var e := st'.encoded[|st.encoded|];
        && e.picture == picture && st'.syncOpts == e.pts + 1
        && (if end <= next + 0.6 then e.pts == st.syncOpts && -0.6 <= e.pts as real - end < 0.6
            else -0.5 <= e.pts as real - MaxReal(ipts, next) <= 0.5)
  {
    var call := Show(picture, ipts, duration);
    var d := Limited(cfg, st, Decide(cfg, st, call));
    var st1 := Account(cfg, st, d, call).0;
    assert d.nb0 == 0 && d.nb == if ipts + duration <= st.syncOpts as real - 0.6 then 0 else 1;
    var st2 := EncodeFrom(cfg, st1, d.nb, 0, Some(picture), 0).0;
    if d.nb == 1 {
      assert st2.encoded == st.encoded + [Encoded(picture, d.syncOpts)];
    }
  }

  lemma VfrDriftStep(cfg: Config, st: State, call: Call, st': State)
    requires cfg.Rounds() && cfg.sync.Vfr? && call.Show? && call.duration >= 0.0
    requires Free(cfg, st, call) && st' == Step(cfg, st, call).0
    ensures st'.syncOpts as real >= call.ipts + 0.4
    ensures Ahead(st', call) <= 1.6 || Ahead(st', call) == Ahead(st, call)
  {
    VfrFollowsInput(cfg, st, call.picture, call.ipts, call.duration);
  }

  /**
   At a variable rate the output clock stands, after every picture of any run, at least 0.4 ticks past the
   picture's time, and runs ahead of its end by no more than 1.6 ticks beyond where it started.
   */
  lemma {:induction false} VfrDriftIsBounded(cfg: Config, calls: seq<Call>, runs: seq<Run>, n: nat)
    requires cfg.Rounds() && cfg.sync.Vfr?
    requires IsRun(cfg, calls, runs) && SteadyInput(cfg, calls, runs) && n < |calls|
    requires forall i :: 0 <= i < |calls| ==> calls[i].duration >= 0.0
    ensures runs[n + 1].st.syncOpts as real >= calls[n].ipts + 0.4
    ensures Ahead(runs[n + 1].st, calls[n]) <= MaxReal(1.6, Ahead(INIT, calls[0]))
  {
    assert Follows(cfg, runs[n], calls[n], runs[n + 1]);
    assert Free(cfg, runs[n].st, calls[n]);
    VfrDriftStep(cfg, runs[n].st, calls[n], runs[n + 1].st);
    if n > 0 {
      VfrDriftIsBounded(cfg, calls, runs, n - 1);
      assert EndTime(calls[n - 1]) <= EndTime(calls[n]);
    }
  }
}
