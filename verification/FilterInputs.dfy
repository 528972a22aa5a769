/**
 Frames on their way into a filter graph: `ifilter_send_frame` and `ifilter_send_eof` in
 fftools/ffmpeg.c, and the part of `configure_filtergraph` in fftools/ffmpeg_filter.c that drains the
 waiting frames. As long as the format of an input is missing there is no graph, and frames wait in a
 queue of their input. A change of parameters rebuilds the graph. Calls into libavfilter are taken to
 succeed.
 */
module FilterInputs {
  import opened Common

  datatype Media = Audio | Video | Subtitle

  /** Stream parameters; a negative format is not known yet. `hw` identifies a hardware frame pool. */
  datatype Params = Params(
    format: int, width: int, height: int, sampleRate: int, channels: int, layout: int, hw: Option<int>)

  datatype Frame = Frame(id: int, params: Params)

  /** What a buffer source of the graph gets to see; it is opened for the parameters its input has then. */
  datatype Event = Opened(params: Params) | Pushed(frame: Frame) | Closed

  /** One InputFilter; `log` is the history of its buffer sources, a new one being opened per graph. */
  datatype Input = Input(
    media: Media,
    codecParams: Params,
    params: Params,
    queue: seq<Frame>,
    eof: bool,
    configured: bool,
    log: seq<Event>)

  datatype State = State(graph: bool, inputs: seq<Input>)

  datatype Status = Ok | InvalidData

  predicate FormatKnown(inp: Input) { inp.params.format >= 0 || inp.media.Subtitle? }

  predicate AllFormatsKnown(inputs: seq<Input>)
  {
    forall i :: 0 <= i < |inputs| ==> FormatKnown(inputs[i])
  }

  /** A frame of other parameters than the input's calls for a new graph. */
  predicate NeedReinit(inp: Input, f: Frame)
  {
    || inp.params.format != f.params.format
    || inp.params.hw != f.params.hw
    || (inp.media.Audio? &&
        (inp.params.sampleRate != f.params.sampleRate || inp.params.channels != f.params.channels
         || inp.params.layout != f.params.layout))
    || (inp.media.Video? && (inp.params.width != f.params.width || inp.params.height != f.params.height))
  }

  // ---------------------------------------------------------------- steps

  function Pushes(fs: seq<Frame>): seq<Event>
  {
    seq(|fs|, i requires 0 <= i < |fs| => Pushed(fs[i]))
  }

  /** One input after the graph has been built anew: waiting frames first, then a recorded end of file. */
  function Reopened(inp: Input): Input
  {
    inp.(configured := true, queue := [],
         log := inp.log + [Opened(inp.params)] + Pushes(inp.queue) + if inp.eof then [Closed] else [])
  }

  function Configured(inputs: seq<Input>): (r: seq<Input>)
    ensures |r| == |inputs|
  {
    seq(|inputs|, i requires 0 <= i < |inputs| => Reopened(inputs[i]))
  }

  function SendFrameStep(st: State, i: nat, f: Frame): State
    requires i < |st.inputs|
  {
    var reinit := NeedReinit(st.inputs[i], f);
    var inputs := if reinit then st.inputs[i := st.inputs[i].(params := f.params)] else st.inputs;
    var rebuild := reinit || !st.graph;
    if rebuild && !AllFormatsKnown(inputs) then
      st.(inputs := inputs[i := inputs[i].(queue := inputs[i].queue + [f])])
    else
      var ready := if rebuild then Configured(inputs) else inputs;
      State(st.graph || rebuild, ready[i := ready[i].(log := ready[i].log + [Pushed(f)])])
  }

  /** ifilter_parameters_from_codecpar, where the format is unknown; the hardware pool stays. */
  function FromCodec(inp: Input): Input
  {
    if inp.params.format < 0 then inp.(params := inp.codecParams.(hw := inp.params.hw)) else inp
  }

  function SendEofStep(st: State, i: nat): (State, Status)
    requires i < |st.inputs|
  {
    var inp := st.inputs[i].(eof := true);
    if inp.configured then (st.(inputs := st.inputs[i := inp.(log := inp.log + [Closed])]), Ok)
    else
      var inp1 := FromCodec(inp);
      (st.(inputs := st.inputs[i := inp1]), if FormatKnown(inp1) then Ok else InvalidData)
  }

  /** The attempt to configure at the start of every transcoding step. */
  function PollStep(st: State): State
  {
    if !st.graph && AllFormatsKnown(st.inputs) then State(true, Configured(st.inputs)) else st
  }

  function AllFromCodec(inputs: seq<Input>): (r: seq<Input>)
    ensures |r| == |inputs|
  {
    seq(|inputs|, i requires 0 <= i < |inputs| => FromCodec(inputs[i]))
  }

  /** The last attempt before the encoders are flushed: unknown formats are taken from the codecs. */
  function FinishStep(st: State): State
  {
    if st.graph then st
    else PollStep(st.(inputs := AllFromCodec(st.inputs)))
  }

  // ---------------------------------------------------------------- the object

  class FilterGraph {
    var graph: bool
    var inputs: seq<Input>

    constructor (kinds: seq<(Media, Params)>)
      ensures !graph && |inputs| == |kinds|
      ensures forall i :: 0 <= i < |inputs| ==> Pristine(inputs[i])
    {
      graph := false;
      inputs := seq(|kinds|, i requires 0 <= i < |kinds| =>
        Input(kinds[i].0, kinds[i].1, Params(-1, 0, 0, 0, 0, 0, None), [], false, false, []));
    }

    function View(): State
      reads this
    {
      State(graph, inputs)
    }

    method HasAllInputFormats() returns (all: bool)
      ensures all == AllFormatsKnown(inputs)
    {
      for i := 0 to |inputs|
        invariant forall k :: 0 <= k < i ==> FormatKnown(inputs[k])
      {
        if inputs[i].params.format < 0 && (inputs[i].media.Audio? || inputs[i].media.Video?) { return false; }
      }
      return true;
    }

    method SendFrame(i: nat, f: Frame)
      requires i < |inputs|
      modifies this
      ensures View() == SendFrameStep(old(View()), i, f)
    {
      var needReinit := NeedReinit(inputs[i], f);
      if needReinit {
        inputs := inputs[i := inputs[i].(params := f.params)];
      }
      // with a format still missing, the frame has to wait
      if needReinit || !graph {
        var all := HasAllInputFormats();
        if !all {
          inputs := inputs[i := inputs[i].(queue := inputs[i].queue + [f])];
          return;
        }
        Configure();
      }
      inputs := inputs[i := inputs[i].(log := inputs[i].log + [Pushed(f)])];
    }

    method SendEof(i: nat) returns (ret: Status)
      requires i < |inputs|
      modifies this
      ensures (View(), ret) == SendEofStep(old(View()), i)
    {
      inputs := inputs[i := inputs[i].(eof := true)];
      if inputs[i].configured {
        inputs := inputs[i := inputs[i].(log := inputs[i].log + [Closed])];
        assert inputs == old(inputs)[i := inputs[i]];
      } else {
        if inputs[i].params.format < 0 {
          inputs := inputs[i := inputs[i].(params := inputs[i].codecParams.(hw := inputs[i].params.hw))];
        }
        assert inputs == old(inputs)[i := inputs[i]];
        if inputs[i].params.format < 0 && (inputs[i].media.Audio? || inputs[i].media.Video?) {
          return InvalidData;
        }
      }
      return Ok;
    }

    /** Builds the graph anew, and fills it with what has been waiting. */
    method Configure()
      modifies this
      ensures graph && inputs == Configured(old(inputs))
    {
      var was := inputs;
      graph := true;
      inputs := seq(|was|, i requires 0 <= i < |was| => 
        was[i].(configured := true, log := was[i].log + [Opened(was[i].params)]));
      for i := 0 to |inputs|
        invariant graph && |inputs| == |was|
        invariant forall k :: 0 <= k < i ==> inputs[k] == Drained(was[k])
        invariant forall k :: i <= k < |was| ==>
          inputs[k] == was[k].(configured := true, log := was[k].log + [Opened(was[k].params)])
      {
        DrainQueue(i);
      }
      // inputs that have ended end again in the new graph
      for i := 0 to |inputs|
        invariant graph && |inputs| == |was|
        invariant forall k :: 0 <= k < i ==> inputs[k] == Reopened(was[k])
        invariant forall k :: i <= k < |was| ==> inputs[k] == Drained(was[k])
      {
        var inp := inputs[i];
        if inp.eof {
          inputs := inputs[i := inp.(log := inp.log + [Closed])];
        }
        assert inputs[i].log ==
          was[i].log + [Opened(was[i].params)] + Pushes(was[i].queue) + if was[i].eof then [Closed] else [];
      }
    }

    method DrainQueue(i: nat)
      requires i < |inputs|
      modifies this`inputs
      ensures
        var inp := old(inputs[i]);
        inputs == old(inputs)[i := inp.(queue := [], log := inp.log + Pushes(inp.queue))]
    {
      ghost var was := inputs;
      while |inputs[i].queue| > 0
        invariant |inputs| == |was|
        invariant inputs == was[i := was[i].(queue := inputs[i].queue, log := inputs[i].log)]
        invariant inputs[i].log + Pushes(inputs[i].queue) == was[i].log + Pushes(was[i].queue)
        decreases |inputs[i].queue|
      {
        var inp := inputs[i];
        assert Pushes(inp.queue) == [Pushed(inp.queue[0])] + Pushes(inp.queue[1..]);
        inputs := inputs[i := inp.(queue := inp.queue[1..], log := inp.log + [Pushed(inp.queue[0])])];
      }
      assert inputs[i].log == inputs[i].log + Pushes(inputs[i].queue);
    }

    method Poll()
      modifies this
      ensures View() == PollStep(old(View()))
    {
      if !graph {
        var all := HasAllInputFormats();
        if all { Configure(); }
      }
    }

    method Finish()
      modifies this
      ensures View() == FinishStep(old(View()))
    {
      if !graph {
        ghost var was := inputs;
        for x := 0 to |inputs|
          invariant !graph && |inputs| == |was|
          invariant forall k :: 0 <= k < x ==> inputs[k] == FromCodec(was[k])
          invariant forall k :: x <= k < |was| ==> inputs[k] == was[k]
        {
          if inputs[x].params.format < 0 {
            inputs := inputs[x := inputs[x].(params := inputs[x].codecParams.(hw := inputs[x].params.hw))];
          }
        }
        assert inputs == AllFromCodec(was);
        Poll();
      }
    }
  }

  /** One input between the draining of its queue and the resending of its end of file. */
  ghost function Drained(inp: Input): Input
  {
    inp.(configured := true, queue := [], log := inp.log + [Opened(inp.params)] + Pushes(inp.queue))
  }

  // ---------------------------------------------------------------- whole runs

  datatype Call = SendFrame(i: nat, frame: Frame) | SendEof(i: nat) | Poll | Finish

  /** Calls come for existing inputs, with known frame formats, and nothing follows an end of file. */
  predicate Legal(st: State, c: Call)
  {
    match c
    case SendFrame(i, f) => i < |st.inputs| && !st.inputs[i].eof && f.params.format >= 0
    case SendEof(i) => i < |st.inputs| && !st.inputs[i].eof
    case _ => true
  }

  function StepOf(st: State, c: Call): (State, Status)
    requires Legal(st, c)
  {
    match c
    case SendFrame(i, f) => (SendFrameStep(st, i, f), Ok)
    case SendEof(i) => SendEofStep(st, i)
    case Poll => (PollStep(st), Ok)
    case Finish => (FinishStep(st), Ok)
  }

  ghost predicate Follows(st: State, c: Call, st': State)
  {
    Legal(st, c) && StepOf(st, c) == (st', Ok)
  }

  ghost predicate Pristine(inp: Input)
  {
    inp.params.format < 0 && inp.queue == [] && !inp.eof && !inp.configured && inp.log == []
  }

  /** An error-free run: the states of the graph before and after each call. */
  ghost predicate IsRun(calls: seq<Call>, states: seq<State>)
  {
    && |states| == |calls| + 1
    && !states[0].graph && (forall i :: 0 <= i < |states[0].inputs| ==> Pristine(states[0].inputs[i]))
    && forall n :: 0 <= n < |calls| ==> Follows(states[n], calls[n], states[n + 1])
  }

  /** The frames decoded for input `i` during the first `n` calls. */
  function SentTo(calls: seq<Call>, i: nat, n: nat): seq<Frame>
    requires n <= |calls|
  {
    if n == 0 then []
    else if calls[n - 1].SendFrame? && calls[n - 1].i == i then SentTo(calls, i, n - 1) + [calls[n - 1].frame]
    else SentTo(calls, i, n - 1)
  }

  /** The frames a log has let into the graph. */
  function FramesIn(log: seq<Event>): seq<Frame>
  {
    if |log| == 0 then []
    else
      var e := log[|log| - 1];
      FramesIn(log[..|log| - 1]) + if e.Pushed? then [e.frame] else []
  }

  /** After an end of file no frame follows, and only a new source comes between two of them. */
  ghost predicate ClosesLast(log: seq<Event>)
  {
    && (forall a, b :: 0 <= a < b < |log| && log[a].Closed? ==> !log[b].Pushed?)
    && (forall a, b :: 0 <= a < b < |log| && log[a].Closed? && log[b].Closed? ==>
          exists m :: a < m < b && log[m].Opened?)
  }

  ghost predicate InputOk(graph: bool, inp: Input, sent: seq<Frame>)
  {
    && inp.configured == graph
    && (graph ==> FormatKnown(inp) && inp.queue == [])
    && (!graph ==> inp.log == [])
    && FramesIn(inp.log) + inp.queue == sent
    && ClosesLast(inp.log)
    && (!inp.eof ==> NeverCloses(inp.log))
    && (inp.eof && graph ==> |inp.log| > 0 && inp.log[|inp.log| - 1].Closed?)
  }

  lemma {:induction false} FramesInAppend(log: seq<Event>, fs: seq<Frame>)
    ensures FramesIn(log + Pushes(fs)) == FramesIn(log) + fs
    decreases |fs|
  {
    if |fs| == 0 {
      assert log + Pushes(fs) == log;
    } else {
      var n := |fs| - 1;
      FramesInAppend(log, fs[..n]);
      var all := log + Pushes(fs);
      assert all[..|all| - 1] == log + Pushes(fs[..n]);
    }
  }

  lemma FramesInOther(log: seq<Event>, e: Event)
    requires !e.Pushed?
    ensures FramesIn(log + [e]) == FramesIn(log)
  {
    assert (log + [e])[..|log|] == log;
  }

  /** A new source, the frames that waited for it, and a repeated end of file keep the log right. */
  lemma ReopenedLog(log: seq<Event>, params: Params, waiting: seq<Frame>, eof: bool)
    requires ClosesLast(log) && (|log| > 0 ==> |waiting| == 0)
    ensures ClosesLast(log + [Opened(params)] + Pushes(waiting) + if eof then [Closed] else [])
  {
    var l2 := log + [Opened(params)] + Pushes(waiting);
    var l3 := l2 + if eof then [Closed] else [];
    forall a, b | 0 <= a < b < |l3| && l3[a].Closed?
      ensures !l3[b].Pushed? && (l3[b].Closed? ==> exists m :: a < m < b && l3[m].Opened?)
    {
      assert a < |log| && l3[a] == log[a];
      if b < |log| {
        assert l3[b] == log[b];
        if log[b].Closed? {
          var m :| a < m < b && log[m].Opened?;
          assert l3[m] == log[m];
        }
      } else {
        assert l3[|log|].Opened?;
      }
    }
  }

  /** Rebuilding the graph keeps an input's history right, including after an end of file. */
  lemma ReopenedOk(graph: bool, inp: Input, sent: seq<Frame>)
    requires InputOk(graph, inp, sent) && FormatKnown(inp)
    ensures InputOk(true, Reopened(inp), sent)
  {
    var l1 := inp.log + [Opened(inp.params)];
    var l2 := l1 + Pushes(inp.queue);
    FramesInOther(inp.log, Opened(inp.params));
    FramesInAppend(l1, inp.queue);
    FramesInOther(l2, Closed);
    ReopenedLog(inp.log, inp.params, inp.queue, inp.eof);
    assert Reopened(inp).log == if inp.eof then l2 + [Closed] else l2;
    assert sent + [] == sent;
  }

  ghost predicate NeverCloses(log: seq<Event>) { forall a :: 0 <= a < |log| ==> !log[a].Closed? }

  lemma StillOpen(log: seq<Event>, e: Event)
    requires NeverCloses(log) && !e.Closed?
    ensures NeverCloses(log + [e]) && ClosesLast(log + [e])
  {
  }

  /** A new frame goes behind everything already there. */
  lemma PushedOk(inp: Input, sent: seq<Frame>, f: Frame)
    requires InputOk(true, inp, sent) && !inp.eof
    ensures InputOk(true, inp.(log := inp.log + [Pushed(f)]), sent + [f])
  {
    assert Pushes([f]) == [Pushed(f)];
    FramesInAppend(inp.log, [f]);
    StillOpen(inp.log, Pushed(f));
    assert FramesIn(inp.log) + [] == sent && sent + [f] + [] == sent + [f];
  }

  lemma ClosedOk(inp: Input, sent: seq<Frame>)
    requires InputOk(true, inp, sent) && !inp.eof
    ensures InputOk(true, inp.(eof := true, log := inp.log + [Closed]), sent)
  {
    FramesInOther(inp.log, Closed);
  }

  ghost predicate StateOk(st: State, calls: seq<Call>, n: nat)
    requires n <= |calls|
  {
    forall i :: 0 <= i < |st.inputs| ==> InputOk(st.graph, st.inputs[i], SentTo(calls, i, n))
  }

  lemma SendFrameOk(st: State, i: nat, f: Frame, st': State, k: nat, sent: seq<Frame>)
    requires Legal(st, SendFrame(i, f)) && st' == SendFrameStep(st, i, f)
    requires k < |st.inputs| && InputOk(st.graph, st.inputs[k], sent)
    requires st.graph ==> AllFormatsKnown(st.inputs)
    ensures |st'.inputs| == |st.inputs|
    ensures InputOk(st'.graph, st'.inputs[k], if k == i then sent + [f] else sent)
  {
    var reinit := NeedReinit(st.inputs[i], f);
    var inputs := if reinit then st.inputs[i := st.inputs[i].(params := f.params)] else st.inputs;
    assert InputOk(st.graph, inputs[k], sent);
    if reinit || !st.graph {
      if AllFormatsKnown(inputs) {
        ReopenedOk(st.graph, inputs[k], sent);
        if k == i { PushedOk(Reopened(inputs[k]), sent, f); }
      } else {
        assert !st.graph;
        assert FramesIn([]) + (inputs[k].queue + [f]) == (FramesIn([]) + inputs[k].queue) + [f];
      }
    } else if k == i {
      PushedOk(inputs[k], sent, f);
    }
  }

  lemma OtherStepOk(st: State, c: Call, st': State, k: nat, sent: seq<Frame>)
    requires Follows(st, c, st') && !c.SendFrame?
    requires k < |st.inputs| && InputOk(st.graph, st.inputs[k], sent)
    ensures |st'.inputs| == |st.inputs|
    ensures InputOk(st'.graph, st'.inputs[k], sent)
  {
    match c
    case SendEof(i) =>
      if k == i && st.inputs[i].configured { ClosedOk(st.inputs[i], sent); }
    case Poll =>
      if !st.graph && AllFormatsKnown(st.inputs) { ReopenedOk(false, st.inputs[k], sent); }
    case Finish =>
      if !st.graph {
        var inputs := AllFromCodec(st.inputs);
        assert InputOk(false, inputs[k], sent);
        if AllFormatsKnown(inputs) { ReopenedOk(false, inputs[k], sent); }
      }
  }

  /**
   On every error-free run, after every call: a configured graph knows all its formats and has no
   frame waiting; every input's decoded frames have entered the graph, or wait, exactly once and in
   decode order; and a recorded end of file follows all of that input's frames, in the current graph too.
   */
  lemma {:induction false} FramesEnterInOrder(calls: seq<Call>, states: seq<State>, n: nat)
    requires IsRun(calls, states) && n <= |calls|
    ensures |states[n].inputs| == |states[0].inputs| && StateOk(states[n], calls, n)
  {
    if n > 0 {
      FramesEnterInOrder(calls, states, n - 1);
      var st, c, st' := states[n - 1], calls[n - 1], states[n];
      assert Follows(st, c, st');
      forall k | 0 <= k < |st.inputs|
        ensures |st'.inputs| == |st.inputs| && InputOk(st'.graph, st'.inputs[k], SentTo(calls, k, n))
      {
        assert InputOk(st.graph, st.inputs[k], SentTo(calls, k, n - 1));
        if c.SendFrame? {
          SendFrameOk(st, c.i, c.frame, st', k, SentTo(calls, k, n - 1));
        } else {
          OtherStepOk(st, c, st', k, SentTo(calls, k, n - 1));
        }
      }
      StepKeepsCount(st, c, st');
    } else {
      assert forall k :: 0 <= k < |states[0].inputs| ==> Pristine(states[0].inputs[k]);
    }
  }

  lemma StepKeepsCount(st: State, c: Call, st': State)
    requires Follows(st, c, st')
    ensures |st'.inputs| == |st.inputs|
  {
  }

  /** In particular, once a graph is configured everything decoded so far is in it. */
  lemma ConfiguredGraphHoldsAll(calls: seq<Call>, states: seq<State>, n: nat)
    requires IsRun(calls, states) && n <= |calls| && states[n].graph
    ensures AllFormatsKnown(states[n].inputs)
    ensures forall i :: 0 <= i < |states[n].inputs| ==>
      states[n].inputs[i].queue == [] && FramesIn(states[n].inputs[i].log) == SentTo(calls, i, n)
  {
    FramesEnterInOrder(calls, states, n);
    var st := states[n];
    forall i | 0 <= i < |st.inputs|
      ensures FormatKnown(st.inputs[i]) && st.inputs[i].queue == []
      ensures FramesIn(st.inputs[i].log) == SentTo(calls, i, n)
    {
      assert InputOk(st.graph, st.inputs[i], SentTo(calls, i, n));
      assert FramesIn(st.inputs[i].log) + [] == FramesIn(st.inputs[i].log);
    }
  }

  // ---------------------------------------------------------------- frames meet sources opened for them

  /** The parameters that matter to an input agree. */
  predicate Agree(media: Media, p: Params, q: Params)
  {
    && p.format == q.format && p.hw == q.hw
    && (media.Video? ==> p.width == q.width && p.height == q.height)
    && (media.Audio? ==> p.sampleRate == q.sampleRate && p.channels == q.channels && p.layout == q.layout)
  }

  /** What the current source of an input was opened for. */
  function LastOpened(log: seq<Event>): Option<Params>
  {
    if |log| == 0 then None
    else if log[|log| - 1].Opened? then Some(log[|log| - 1].params)
    else LastOpened(log[..|log| - 1])
  }

  lemma LastOpenedStays(log: seq<Event>, e: Event)
    requires !e.Opened?
    ensures LastOpened(log + [e]) == LastOpened(log)
  {
    assert (log + [e])[..|log|] == log;
  }

  lemma {:induction false} LastOpenedOfReopened(inp: Input)
    ensures LastOpened(Reopened(inp).log) == Some(inp.params)
  {
    var l1 := inp.log + [Opened(inp.params)];
    assert l1[|inp.log|] == Opened(inp.params);
    PushesKeepOpened(l1, inp.queue);
    if inp.eof { LastOpenedStays(l1 + Pushes(inp.queue), Closed); }
    assert Reopened(inp).log == if inp.eof then l1 + Pushes(inp.queue) + [Closed] else l1 + Pushes(inp.queue);
  }

  lemma {:induction false} PushesKeepOpened(log: seq<Event>, fs: seq<Frame>)
    ensures LastOpened(log + Pushes(fs)) == LastOpened(log)
    decreases |fs|
  {
    if |fs| == 0 {
      assert log + Pushes(fs) == log;
    } else {
      var n := |fs| - 1;
      PushesKeepOpened(log, fs[..n]);
      LastOpenedStays(log + Pushes(fs[..n]), Pushed(fs[n]));
      assert log + Pushes(fs) == log + Pushes(fs[..n]) + [Pushed(fs[n])];
    }
  }

  /** The last frame decoded for an input has its parameters, and its current source was opened for them. */
  ghost predicate MeetsSource(graph: bool, inp: Input, sent: seq<Frame>)
  {
    && (graph ==> LastOpened(inp.log) == Some(inp.params))
    && (|sent| > 0 ==> Agree(inp.media, inp.params, sent[|sent| - 1].params) && inp.params.format >= 0)
  }

  /** One input after a frame: its own takes over the frame's parameters, the others stay; a new graph reopens it. */
  lemma SendFrameAt(st: State, i: nat, f: Frame, k: nat)
    requires i < |st.inputs| && k < |st.inputs| && f.params.format >= 0
    requires st.graph ==> AllFormatsKnown(st.inputs)
    ensures
      var st' := SendFrameStep(st, i, f);
      var reinit := NeedReinit(st.inputs[i], f);
      var inp := if k == i && reinit then st.inputs[k].(params := f.params) else st.inputs[k];
      var ready := if st.graph && !reinit then inp else Reopened(inp);
      && |st'.inputs| == |st.inputs| && (st.graph ==> st'.graph)
      && st'.inputs[k] ==
           if st'.graph then (if k == i then ready.(log := ready.log + [Pushed(f)]) else ready)
           else if k == i then inp.(queue := inp.queue + [f]) else inp
  {
  }

  /** After a frame its input has its parameters; every other input keeps its own. */
  lemma SendFrameMeets(st: State, i: nat, f: Frame, k: nat, sent: seq<Frame>)
    requires i < |st.inputs| && k < |st.inputs| && f.params.format >= 0
    requires st.graph ==> AllFormatsKnown(st.inputs)
    requires MeetsSource(st.graph, st.inputs[k], sent)
    ensures
      var st' := SendFrameStep(st, i, f);
      |st'.inputs| == |st.inputs| && MeetsSource(st'.graph, st'.inputs[k], if k == i then sent + [f] else sent)
  {
    var inp := if k == i && NeedReinit(st.inputs[i], f) then st.inputs[k].(params := f.params) else st.inputs[k];
    SendFrameAt(st, i, f, k);
    LastOpenedOfReopened(inp);
    LastOpenedStays(inp.log, Pushed(f));
    LastOpenedStays(Reopened(inp).log, Pushed(f));
  }

  lemma OtherStepMeets(st: State, c: Call, st': State, k: nat, sent: seq<Frame>)
    requires Follows(st, c, st') && !c.SendFrame? && k < |st.inputs|
    requires st.graph ==> forall i :: 0 <= i < |st.inputs| ==> st.inputs[i].configured
    requires MeetsSource(st.graph, st.inputs[k], sent)
    ensures |st'.inputs| == |st.inputs| && MeetsSource(st'.graph, st'.inputs[k], sent)
  {
    match c
    case SendEof(i) => LastOpenedStays(st.inputs[k].log, Closed);
    case Poll => LastOpenedOfReopened(st.inputs[k]);
    case Finish => if !st.graph { LastOpenedOfReopened(AllFromCodec(st.inputs)[k]); }
  }

  lemma {:induction false} SourcesAreMet(calls: seq<Call>, states: seq<State>, n: nat, k: nat)
    requires IsRun(calls, states) && n <= |calls| && k < |states[0].inputs|
    ensures |states[n].inputs| == |states[0].inputs| && MeetsSource(states[n].graph, states[n].inputs[k], SentTo(calls, k, n))
  {
    if n > 0 {
      SourcesAreMet(calls, states, n - 1, k);
      var st, c, st' := states[n - 1], calls[n - 1], states[n];
      assert Follows(st, c, st');
      KnowsFormats(calls, states, n - 1);
      if c.SendFrame? {
        SendFrameMeets(st, c.i, c.frame, k, SentTo(calls, k, n - 1));
      } else {
        OtherStepMeets(st, c, st', k, SentTo(calls, k, n - 1));
      }
    } else {
      assert Pristine(states[0].inputs[k]);
    }
  }

  lemma KnowsFormats(calls: seq<Call>, states: seq<State>, n: nat)
    requires IsRun(calls, states) && n <= |calls|
    ensures states[n].graph ==> AllFormatsKnown(states[n].inputs)
    ensures forall i :: 0 <= i < |states[n].inputs| ==> states[n].inputs[i].configured == states[n].graph
    ensures states[n].graph ==> forall i :: 0 <= i < |states[n].inputs| ==> states[n].inputs[i].queue == []
  {
    FramesEnterInOrder(calls, states, n);
    var st := states[n];
    forall i | 0 <= i < |st.inputs|
      ensures st.inputs[i].configured == st.graph && (st.graph ==> FormatKnown(st.inputs[i]) && st.inputs[i].queue == [])
    {
      assert InputOk(st.graph, st.inputs[i], SentTo(calls, i, n));
    }
  }

  /**
   On every error-free run, for every frame sent: its input takes over its parameters. It waits while a format
   is unknown; otherwise it is pushed last, to a source opened for its parameters.
   */
  lemma FramesMeetTheirSource(calls: seq<Call>, states: seq<State>, n: nat)
    requires IsRun(calls, states) && n < |calls| && calls[n].SendFrame?
    ensures calls[n].i < |states[n].inputs| == |states[n + 1].inputs|
    ensures
      var i, f := calls[n].i, calls[n].frame;
      var inp, inp' := states[n].inputs[i], states[n + 1].inputs[i];
      && Agree(inp.media, inp'.params, f.params)
      && if states[n + 1].graph then
           |inp'.log| > 0 && inp'.log[|inp'.log| - 1] == Pushed(f)
           && LastOpened(inp'.log).Some? && Agree(inp.media, LastOpened(inp'.log).value, f.params)
         else inp'.queue == inp.queue + [f] && inp'.log == inp.log
  {
    var i, f := calls[n].i, calls[n].frame;
    assert Follows(states[n], calls[n], states[n + 1]);
    FramesEnterInOrder(calls, states, n);
    SourcesAreMet(calls, states, n, i);
    KnowsFormats(calls, states, n);
    SendFrameMeets(states[n], i, f, i, SentTo(calls, i, n));
    assert (SentTo(calls, i, n) + [f])[|SentTo(calls, i, n)|] == f;
  }

  /** What one frame after another of an input does to a configured graph. */
  ghost predicate EntersGraph(st: State, i: nat, f: Frame, same: bool, st': State)
    requires i < |st.inputs| == |st'.inputs|
  {
    st'.graph && forall k :: 0 <= k < |st.inputs| ==>
      st'.inputs[k].log == st.inputs[k].log
        + (if same then [] else [Opened(st'.inputs[k].params)])
        + (if k == i then [Pushed(f)] else if st.inputs[k].eof && !same then [Closed] else [])
  }

  /**
   And in a configured graph exactly a frame that differs from the one sent to its input before it, in what
   matters to the input, has all sources opened anew, and is pushed behind that.
   */
  lemma ChangedFramesReopen(calls: seq<Call>, states: seq<State>, n: nat)
    requires IsRun(calls, states) && n < |calls| && calls[n].SendFrame? && states[n].graph
    requires |SentTo(calls, calls[n].i, n)| > 0
    ensures calls[n].i < |states[n].inputs| == |states[n + 1].inputs|
    ensures
      var i, f, sent := calls[n].i, calls[n].frame, SentTo(calls, calls[n].i, n);
      var before := sent[|sent| - 1];
      EntersGraph(states[n], i, f, Agree(states[n].inputs[i].media, before.params, f.params), states[n + 1])
  {
    var i, f := calls[n].i, calls[n].frame;
    assert Follows(states[n], calls[n], states[n + 1]);
    FramesEnterInOrder(calls, states, n);
    SourcesAreMet(calls, states, n, i);
    KnowsFormats(calls, states, n);
    ConfiguredStep(states[n], i, f);
  }

  lemma ConfiguredStep(st: State, i: nat, f: Frame)
    requires i < |st.inputs| && st.graph && AllFormatsKnown(st.inputs) && f.params.format >= 0 && !st.inputs[i].eof
    requires forall k :: 0 <= k < |st.inputs| ==> st.inputs[k].queue == []
    ensures |SendFrameStep(st, i, f).inputs| == |st.inputs|
    ensures EntersGraph(st, i, f, Agree(st.inputs[i].media, st.inputs[i].params, f.params), SendFrameStep(st, i, f))
  {
    var same := Agree(st.inputs[i].media, st.inputs[i].params, f.params);
    assert same <==> !NeedReinit(st.inputs[i], f);
    var st' := SendFrameStep(st, i, f);
    var inputs := if same then st.inputs else st.inputs[i := st.inputs[i].(params := f.params)];
    assert AllFormatsKnown(inputs);
    forall k | 0 <= k < |st.inputs|
      ensures st'.inputs[k].log == st.inputs[k].log
        + (if same then [] else [Opened(st'.inputs[k].params)])
        + (if k == i then [Pushed(f)] else if st.inputs[k].eof && !same then [Closed] else [])
    {
      assert Pushes(st.inputs[k].queue) == [];
    }
  }

  // ---------------------------------------------------------------- when the graph is configured

  /** An input whose format is, or could be taken to be, known. */
  predicate Known(media: Media, format: int) { media.Subtitle? || format >= 0 }

  /** Parameters missing at the end of the input come from the codec, but for the hardware pool. */
  lemma CodecFillsIn(inp: Input)
    ensures FromCodec(inp) == inp.(params := FromCodec(inp).params)
    ensures inp.params.format >= 0 ==> FromCodec(inp).params == inp.params
    ensures inp.params.format < 0 ==>
      var p, q := FromCodec(inp).params, inp.codecParams;
      && p.format == q.format && p.width == q.width && p.height == q.height && p.sampleRate == q.sampleRate
      && p.channels == q.channels && p.layout == q.layout && p.hw == inp.params.hw
  {
  }

  /** A graph comes into being exactly when no format is missing: known by then, or from the codec at the end. */
  lemma ConfiguredExactly(st: State, c: Call)
    requires Legal(st, c) && !st.graph
    ensures |StepOf(st, c).0.inputs| == |st.inputs|
    ensures StepOf(st, c).0.graph <==>
      && !c.SendEof?
      && forall k :: 0 <= k < |st.inputs| ==>
           || Known(st.inputs[k].media, st.inputs[k].params.format)
           || (c.SendFrame? && k == c.i)
           || (c.Finish? && st.inputs[k].codecParams.format >= 0)
  {
    match c
    case SendFrame(i, f) =>
      var inputs := if NeedReinit(st.inputs[i], f) then st.inputs[i := st.inputs[i].(params := f.params)] else st.inputs;
      assert forall k :: 0 <= k < |st.inputs| && k != i ==> inputs[k] == st.inputs[k];
    case SendEof(i) =>
    case Poll =>
    case Finish =>
      var inputs := AllFromCodec(st.inputs);
      assert forall k :: 0 <= k < |st.inputs| ==> inputs[k] == FromCodec(st.inputs[k]);
  }

  /** An end of file closes the source, or fails exactly if there is none and no format even in the codec. */
  lemma EofAnswers(st: State, i: nat)
    requires i < |st.inputs|
    ensures
      var st', ret, inp := SendEofStep(st, i).0, SendEofStep(st, i).1, st.inputs[i];
      && |st'.inputs| == |st.inputs| && st'.inputs[i].eof
      && (inp.configured ==> ret == Ok && st'.inputs[i].log == inp.log + [Closed])
      && (!inp.configured ==> st'.inputs[i].log == inp.log && st'.inputs[i].params == FromCodec(inp).params)
      && (ret == InvalidData <==>
            !inp.configured && !inp.media.Subtitle? && inp.params.format < 0 && inp.codecParams.format < 0)
      && (forall k :: 0 <= k < |st.inputs| && k != i ==> st'.inputs[k] == st.inputs[k])
  {
  }
}
