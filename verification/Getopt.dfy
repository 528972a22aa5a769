/**
 The getopt of compat/getopt.c, whose position inside a bundle of options lives in a static variable
 between calls. The characters of a word exclude its terminating zero.
 */
module Getopt {
  import opened Common

  /** The static state: position in the word, index of the word, argument of the last option. */
  datatype State = State(sp: nat, optind: nat, optarg: Option<string>)

  /** What a caller sees after a call that did not return EOF. */
  datatype Seen = Seen(ret: char, optopt: char, optarg: Option<string>)

  datatype Outcome = Eof(state: State) | Yield(seen: Seen, state: State)

  const START: State := State(1, 1, None)

  predicate Valid(argv: seq<string>, st: State)
  {
    st.sp >= 1 && (st.sp > 1 ==> st.optind < |argv| && st.sp < |argv[st.optind]|)
  }

  /** strchr: the first place of `c` in `s`, or the length of `s`. */
  function Find(s: string, c: char): (i: nat)
    ensures i <= |s|
  {
    if |s| == 0 || s[0] == c then 0 else 1 + Find(s[1..], c)
  }

  predicate Legal(opts: string, c: char) { c != ':' && Find(opts, c) < |opts| }

  predicate TakesArg(opts: string, c: char)
  {
    Legal(opts, c) && Find(opts, c) + 1 < |opts| && opts[Find(opts, c) + 1] == ':'
  }

  predicate IsOptionWord(w: string) { |w| >= 2 && w[0] == '-' }

  function Step(argv: seq<string>, opts: string, st: State): (out: Outcome)
    requires Valid(argv, st)
    ensures Valid(argv, out.state)
  {
    if st.sp == 1 && (st.optind >= |argv| || !IsOptionWord(argv[st.optind])) then Eof(st)
    else if st.sp == 1 && argv[st.optind] == "--" then Eof(st.(optind := st.optind + 1))
    else
      var w := argv[st.optind];
      var c := w[st.sp];
      var onward := if st.sp + 1 == |w| then st.(sp := 1, optind := st.optind + 1) else st.(sp := st.sp + 1);
      if !Legal(opts, c) then Yield(Seen('?', c, st.optarg), onward)
      else if !TakesArg(opts, c) then Yield(Seen(c, c, None), onward.(optarg := None))
      else if st.sp + 1 < |w| then
        Yield(Seen(c, c, Some(w[st.sp + 1..])), State(1, st.optind + 1, Some(w[st.sp + 1..])))
      else if st.optind + 1 >= |argv| then Yield(Seen('?', c, st.optarg), st.(sp := 1, optind := st.optind + 1))
      else Yield(Seen(c, c, Some(argv[st.optind + 1])), State(1, st.optind + 2, Some(argv[st.optind + 1])))
  }

  /** Everything seen when calling until EOF, and where that leaves `optind`. */
  datatype Run = Run(seen: seq<Seen>, optind: nat)

  function Prepend(seen: seq<Seen>, run: Run): Run { Run(seen + run.seen, run.optind) }

  lemma PrependTwice(a: seq<Seen>, b: seq<Seen>, run: Run)
    ensures Prepend(a, Prepend(b, run)) == Prepend(a + b, run)
  {
    assert a + (b + run.seen) == (a + b) + run.seen;
  }

  function LeftInWord(argv: seq<string>, st: State): int
  {
    if st.optind < |argv| then |argv[st.optind]| - st.sp else 0
  }

  function RunFrom(argv: seq<string>, opts: string, st: State): Run
    requires Valid(argv, st)
    decreases |argv| - st.optind, LeftInWord(argv, st)
  {
    match Step(argv, opts, st)
    case Eof(end) => Run([], end.optind)
    case Yield(seen, next) => Prepend([seen], RunFrom(argv, opts, next))
  }

  class Scanner {
    var sp: nat
    var optind: nat
    var optopt: char
    var optarg: Option<string>

    function View(): State
      reads this
    {
      State(sp, optind, optarg)
    }

    constructor ()
      ensures View() == START
    {
      sp, optind, optopt, optarg := 1, 1, '?', None;
    }

    method Next(argv: seq<string>, opts: string) returns (ret: Option<char>)
      requires Valid(argv, View())
      modifies this
      ensures
        match Step(argv, opts, old(View()))
        case Eof(state) => ret == None && View() == state && optopt == old(optopt)
        case Yield(seen, state) => ret == Some(seen.ret) && View() == state && Seen(seen.ret, optopt, optarg) == seen
    {
      if sp == 1 {
        if optind >= |argv| || |argv[optind]| == 0 || argv[optind][0] != '-' || |argv[optind]| == 1 {
          return None;
        } else if argv[optind] == "--" {
          optind := optind + 1;
          return None;
        }
      }
      var word := argv[optind];
      var c := word[sp];
      optopt := c;
      var cp := Find(opts, c);
      if c == ':' || cp == |opts| {
        sp := sp + 1;
        if sp == |word| {
          optind := optind + 1;
          sp := 1;
        }
        return Some('?');
      }
      cp := cp + 1;
      if cp < |opts| && opts[cp] == ':' {
        if sp + 1 < |word| {
          optarg := Some(word[sp + 1..]);
          optind := optind + 1;
        } else {
          optind := optind + 1;
          if optind >= |argv| {
            sp := 1;
            return Some('?');
          }
          optarg := Some(argv[optind]);
          optind := optind + 1;
        }
        sp := 1;
      } else {
        sp := sp + 1;
        if sp == |word| {
          sp := 1;
          optind := optind + 1;
        }
        optarg := None;
      }
      return Some(c);
    }

    /** Calling until EOF always ends, having seen what one pass over the words finds. */
    method CallUntilEof(argv: seq<string>, opts: string) returns (seen: seq<Seen>)
      requires sp == 1
      modifies this
      ensures sp == 1
      ensures
        var pass := OnePass(argv, opts, old(optind));
        seen == Observe(pass.items, old(optarg)) && optind == pass.next
    {
      RunIsOnePass(argv, opts, View());
      ghost var goal := RunFrom(argv, opts, View());
      var more := true;
      seen := [];
      while more
        invariant Valid(argv, View())
        invariant if more then goal == Prepend(seen, RunFrom(argv, opts, View())) else goal == Run(seen, optind) && sp == 1
        decreases more, |argv| - optind, LeftInWord(argv, View())
      {
        more, seen := Another(argv, opts, seen);
      }
    }

    /** One call of that loop. */
    method Another(argv: seq<string>, opts: string, before: seq<Seen>) returns (more: bool, seen: seq<Seen>)
      requires Valid(argv, View())
      modifies this
      ensures Valid(argv, View())
      ensures Prepend(before, RunFrom(argv, opts, old(View())))
        == if more then Prepend(seen, RunFrom(argv, opts, View())) else Run(seen, optind)
      ensures if more then
          && old(optind) < |argv| && old(optind) <= optind
          && (optind == old(optind) ==> 0 <= LeftInWord(argv, View()) < LeftInWord(argv, old(View())))
        else sp == 1
    {
      var ret := Next(argv, opts);
      if ret.None? { return false, before; }
      PrependTwice(before, [Seen(ret.value, optopt, optarg)], RunFrom(argv, opts, View()));
      return true, before + [Seen(ret.value, optopt, optarg)];
    }
  }

  // ---------------------------------------------------------------- one pass over the words

  datatype Item = Flag(c: char) | WithArg(c: char, arg: string) | Illegal(c: char) | Missing(c: char)

  function Single(opts: string, c: char): Item { if Legal(opts, c) then Flag(c) else Illegal(c) }

  function Singles(opts: string, s: string): seq<Item> { seq(|s|, k requires 0 <= k < |s| => Single(opts, s[k])) }

  /** The first letter that takes an argument: what follows it is not options any more. */
  function ArgPlace(opts: string, letters: string): (p: nat)
    ensures p <= |letters| && (p < |letters| ==> TakesArg(opts, letters[p]))
    ensures forall k :: 0 <= k < p ==> !TakesArg(opts, letters[k])
  {
    if |letters| == 0 || TakesArg(opts, letters[0]) then 0 else 1 + ArgPlace(opts, letters[1..])
  }

  /** What a bundle of letters means, given the word behind it. */
  function BundleItems(opts: string, letters: string, following: Option<string>): seq<Item>
  {
    var p := ArgPlace(opts, letters);
    Singles(opts, letters[..p])
    + if p == |letters| then []
      else if p + 1 < |letters| then [WithArg(letters[p], letters[p + 1..])]
      else if following.Some? then [WithArg(letters[p], following.value)]
      else [Missing(letters[p])]
  }

  predicate TakesFollowing(opts: string, letters: string, following: Option<string>)
  {
    ArgPlace(opts, letters) + 1 == |letters| && following.Some?
  }

  datatype Pass = Pass(items: seq<Item>, next: nat)

  function Following(argv: seq<string>, i: nat): Option<string>
  {
    if i + 1 < |argv| then Some(argv[i + 1]) else None
  }

  function OnePass(argv: seq<string>, opts: string, i: nat): Pass
    decreases |argv| - i
  {
    if i >= |argv| || !IsOptionWord(argv[i]) then Pass([], i)
    else if argv[i] == "--" then Pass([], i + 1)
    else
      var letters, f := argv[i][1..], Following(argv, i);
      var rest := OnePass(argv, opts, if TakesFollowing(opts, letters, f) then i + 2 else i + 1);
      Pass(BundleItems(opts, letters, f) + rest.items, rest.next)
  }

  /** The items as a caller sees them; an error leaves the argument of the option before it. */
  function Observe(items: seq<Item>, optarg: Option<string>): seq<Seen>
    decreases |items|
  {
    if |items| == 0 then []
    else
      var now := ArgAfter(items[0], optarg);
      var ret := if items[0].Flag? || items[0].WithArg? then items[0].c else '?';
      [Seen(ret, items[0].c, now)] + Observe(items[1..], now)
  }

  function ArgAfter(item: Item, optarg: Option<string>): Option<string>
  {
    match item
    case Flag(_) => None
    case WithArg(_, arg) => Some(arg)
    case Illegal(_) => optarg
    case Missing(_) => optarg
  }

  function LastArg(items: seq<Item>, optarg: Option<string>): Option<string>
    decreases |items|
  {
    if |items| == 0 then optarg else LastArg(items[1..], ArgAfter(items[0], optarg))
  }

  lemma {:induction false} ObserveAppend(a: seq<Item>, b: seq<Item>, optarg: Option<string>)
    ensures Observe(a + b, optarg) == Observe(a, optarg) + Observe(b, LastArg(a, optarg))
    decreases |a|
  {
    if |a| == 0 {
      assert a + b == b;
    } else {
      assert (a + b)[1..] == a[1..] + b;
      ObserveAppend(a[1..], b, ArgAfter(a[0], optarg));
    }
  }

  lemma BundleUnfold(opts: string, letters: string, f: Option<string>)
    requires |letters| > 0
    ensures TakesArg(opts, letters[0]) ==> BundleItems(opts, letters, f) == [
      if |letters| > 1 then WithArg(letters[0], letters[1..])
      else if f.Some? then WithArg(letters[0], f.value) else Missing(letters[0])]
    ensures !TakesArg(opts, letters[0]) ==>
      && BundleItems(opts, letters, f) == [Single(opts, letters[0])] + BundleItems(opts, letters[1..], f)
      && TakesFollowing(opts, letters, f) == TakesFollowing(opts, letters[1..], f)
  {
    var p := ArgPlace(opts, letters);
    if !TakesArg(opts, letters[0]) {
      assert letters[1..][..p - 1] == letters[1..p];
      assert Singles(opts, letters[..p]) == [Single(opts, letters[0])] + Singles(opts, letters[1..][..p - 1]);
      if p + 1 < |letters| { assert letters[1..][p..] == letters[p + 1..]; }
    } else {
      assert Singles(opts, letters[..0]) == [];
    }
  }

  /** The state once a bundle is finished. */
  function AfterBundle(argv: seq<string>, opts: string, st: State): State
    requires st.optind < |argv| && st.sp <= |argv[st.optind]|
  {
    var letters, f := argv[st.optind][st.sp..], Following(argv, st.optind);
    State(1, if TakesFollowing(opts, letters, f) then st.optind + 2 else st.optind + 1,
      LastArg(BundleItems(opts, letters, f), st.optarg))
  }

  predicate InBundle(argv: seq<string>, st: State)
  {
    && Valid(argv, st) && st.optind < |argv| && st.sp < |argv[st.optind]|
    && (st.sp == 1 ==> IsOptionWord(argv[st.optind]) && argv[st.optind] != "--")
  }

  ghost predicate RunsThrough(argv: seq<string>, opts: string, st: State)
    requires InBundle(argv, st)
  {
    var items := BundleItems(opts, argv[st.optind][st.sp..], Following(argv, st.optind));
    RunFrom(argv, opts, st) == Prepend(Observe(items, st.optarg), RunFrom(argv, opts, AfterBundle(argv, opts, st)))
  }

  /** The calls made inside one word, from any position in it, see the rest of its bundle. */
  lemma {:induction false} RunThroughWord(argv: seq<string>, opts: string, st: State)
    requires InBundle(argv, st)
    ensures RunsThrough(argv, opts, st)
    decreases |argv[st.optind]| - st.sp
  {
    if TakesArg(opts, argv[st.optind][st.sp]) {
      ArgumentStep(argv, opts, st);
    } else if st.sp + 1 == |argv[st.optind]| {
      LastStep(argv, opts, st);
    } else {
      SingleStep(argv, opts, st);
      RunThroughWord(argv, opts, Step(argv, opts, st).state);
      InnerStep(argv, opts, st);
    }
  }

  lemma LastStep(argv: seq<string>, opts: string, st: State)
    requires InBundle(argv, st) && !TakesArg(opts, argv[st.optind][st.sp]) && st.sp + 1 == |argv[st.optind]|
    ensures RunsThrough(argv, opts, st)
  {
    SingleStep(argv, opts, st);
    assert BundleItems(opts, argv[st.optind][st.sp + 1..], Following(argv, st.optind)) == [];
  }

  lemma InnerStep(argv: seq<string>, opts: string, st: State)
    requires InBundle(argv, st) && !TakesArg(opts, argv[st.optind][st.sp]) && st.sp + 1 < |argv[st.optind]|
    requires InBundle(argv, Step(argv, opts, st).state) && RunsThrough(argv, opts, Step(argv, opts, st).state)
    ensures RunsThrough(argv, opts, st)
  {
    SingleStep(argv, opts, st);
    var out, w := Step(argv, opts, st), argv[st.optind];
    var others := BundleItems(opts, w[st.sp + 1..], Following(argv, st.optind));
    PrependTwice([out.seen], Observe(others, out.state.optarg), RunFrom(argv, opts, AfterBundle(argv, opts, st)));
  }

  lemma ArgumentStep(argv: seq<string>, opts: string, st: State)
    requires InBundle(argv, st) && TakesArg(opts, argv[st.optind][st.sp])
    ensures
      var items := BundleItems(opts, argv[st.optind][st.sp..], Following(argv, st.optind));
      && Step(argv, opts, st).Yield?
      && [Step(argv, opts, st).seen] == Observe(items, st.optarg)
      && Step(argv, opts, st).state == AfterBundle(argv, opts, st)
  {
    var letters, f := argv[st.optind][st.sp..], Following(argv, st.optind);
    BundleUnfold(opts, letters, f);
    assert letters[1..] == argv[st.optind][st.sp + 1..];
    ObserveCons(BundleItems(opts, letters, f)[0], [], st.optarg);
  }

  lemma SingleStep(argv: seq<string>, opts: string, st: State)
    requires InBundle(argv, st) && !TakesArg(opts, argv[st.optind][st.sp])
    ensures
      var w, f := argv[st.optind], Following(argv, st.optind);
      var next := Step(argv, opts, st).state;
      var others := BundleItems(opts, w[st.sp + 1..], f);
      && Step(argv, opts, st).Yield?
      && Observe(BundleItems(opts, w[st.sp..], f), st.optarg)
         == [Step(argv, opts, st).seen] + Observe(others, next.optarg)
      && (if st.sp + 1 < |w| then
            InBundle(argv, next) && next.optind == st.optind && next.sp == st.sp + 1
            && AfterBundle(argv, opts, st) == AfterBundle(argv, opts, next)
          else AfterBundle(argv, opts, st) == next)
  {
    var letters, f := argv[st.optind][st.sp..], Following(argv, st.optind);
    BundleUnfold(opts, letters, f);
    assert letters[1..] == argv[st.optind][st.sp + 1..];
    ObserveCons(Single(opts, letters[0]), BundleItems(opts, letters[1..], f), st.optarg);
  }

  lemma ObserveCons(item: Item, others: seq<Item>, optarg: Option<string>)
    ensures LastArg([item] + others, optarg) == LastArg(others, ArgAfter(item, optarg))
    ensures Observe([item] + others, optarg) ==
      [Seen(if item.Flag? || item.WithArg? then item.c else '?', item.c, ArgAfter(item, optarg))]
      + Observe(others, ArgAfter(item, optarg))
  {
    assert ([item] + others)[1..] == others;
  }

  /** Calling until EOF sees exactly what one pass over the words finds, errors included. */
  lemma {:induction false} RunIsOnePass(argv: seq<string>, opts: string, st: State)
    requires Valid(argv, st) && st.sp == 1
    ensures
      var pass := OnePass(argv, opts, st.optind);
      RunFrom(argv, opts, st) == Run(Observe(pass.items, st.optarg), pass.next)
    decreases |argv| - st.optind
  {
    if st.optind < |argv| && IsOptionWord(argv[st.optind]) && argv[st.optind] != "--" {
      var letters, f := argv[st.optind][1..], Following(argv, st.optind);
      var items := BundleItems(opts, letters, f);
      var next := AfterBundle(argv, opts, st);
      RunThroughWord(argv, opts, st);
      RunIsOnePass(argv, opts, next);
      ObserveAppend(items, OnePass(argv, opts, next.optind).items, st.optarg);
    }
  }

  // ---------------------------------------------------------------- bundling

  function Flags(s: string): seq<Item> { seq(|s|, k requires 0 <= k < |s| => Flag(s[k])) }

  /** How options are written: flags in one bundle, perhaps ended by an option with its argument. */
  datatype Tail = NoTail | Attached(c: char, arg: string) | Separate(c: char, arg: string)

  datatype Bundle = Bundle(flags: string, tail: Tail)
  {
    function TailLetters(): string
    {
      match tail
      case NoTail => ""
      case Attached(c, arg) => [c] + arg
      case Separate(c, _) => [c]
    }

    function Text(): string { "-" + (flags + TailLetters()) }

    function Words(): seq<string>
    {
      if tail.Separate? then [Text(), tail.arg] else [Text()]
    }

    function Items(): seq<Item>
    {
      Flags(flags) + if tail.NoTail? then [] else [WithArg(tail.c, tail.arg)]
    }

    /** A bundle that can be written: known letters, and not the word that ends the options. */
    predicate Writable(opts: string)
    {
      && (forall k :: 0 <= k < |flags| ==> Legal(opts, flags[k]) && !TakesArg(opts, flags[k]))
      && (tail.NoTail? || TakesArg(opts, tail.c))
      && (tail.Attached? ==> |tail.arg| > 0)
      && |Text()| >= 2 && Text() != "--"
    }
  }

  function AllWords(bundles: seq<Bundle>): seq<string>
  {
    if |bundles| == 0 then [] else bundles[0].Words() + AllWords(bundles[1..])
  }

  predicate AllWritable(opts: string, bundles: seq<Bundle>)
  {
    |bundles| == 0 || (bundles[0].Writable(opts) && AllWritable(opts, bundles[1..]))
  }

  function AllItems(bundles: seq<Bundle>): seq<Item>
  {
    if |bundles| == 0 then [] else bundles[0].Items() + AllItems(bundles[1..])
  }

  lemma LettersRead(opts: string, flags: string, tail: string)
    requires forall k :: 0 <= k < |flags| ==> Legal(opts, flags[k]) && !TakesArg(opts, flags[k])
    requires |tail| > 0 ==> TakesArg(opts, tail[0])
    ensures ArgPlace(opts, flags + tail) == |flags|
    ensures Singles(opts, (flags + tail)[..|flags|]) == Flags(flags)
    ensures (flags + tail)[|flags|..] == tail
  {
    var q := ArgPlace(opts, flags + tail);
    if |tail| > 0 { assert (flags + tail)[|flags|] == tail[0]; }
    assert (flags + tail)[..|flags|] == flags;
    assert q >= |flags|;
  }

  lemma TailReads(opts: string, flags: string, tail: string, f: Option<string>)
    requires forall k :: 0 <= k < |flags| ==> Legal(opts, flags[k]) && !TakesArg(opts, flags[k])
    requires |tail| > 0 ==> TakesArg(opts, tail[0])
    ensures BundleItems(opts, flags + tail, f) == Flags(flags)
      + if |tail| == 0 then [] else if |tail| > 1 then [WithArg(tail[0], tail[1..])]
        else if f.Some? then [WithArg(tail[0], f.value)] else [Missing(tail[0])]
    ensures TakesFollowing(opts, flags + tail, f) <==> |tail| == 1 && f.Some?
  {
    var letters, n := flags + tail, |flags|;
    LettersRead(opts, flags, tail);
    if |tail| > 0 {
      assert letters[n] == tail[0];
      assert letters[n + 1..] == tail[1..];
    }
  }

  lemma BundleReads(opts: string, b: Bundle, f: Option<string>)
    requires b.Writable(opts) && (b.tail.Separate? ==> f == Some(b.tail.arg))
    ensures IsOptionWord(b.Text()) && b.Text() != "--"
    ensures BundleItems(opts, b.Text()[1..], f) == b.Items()
    ensures TakesFollowing(opts, b.Text()[1..], f) == b.tail.Separate?
  {
    assert b.Text()[1..] == b.flags + b.TailLetters();
    TailReads(opts, b.flags, b.TailLetters(), f);
    if b.tail.Attached? { assert ([b.tail.c] + b.tail.arg)[1..] == b.tail.arg; }
  }

  predicate EndsOptions(operands: seq<string>)
  {
    |operands| == 0 || !IsOptionWord(operands[0]) || operands[0] == "--"
  }

  lemma {:induction false} PassReads(argv: seq<string>, opts: string, i: nat, bundles: seq<Bundle>, operands: seq<string>)
    requires AllWritable(opts, bundles) && EndsOptions(operands)
    requires i <= |argv| && argv[i..] == AllWords(bundles) + operands
    ensures OnePass(argv, opts, i) == Pass(AllItems(bundles),
      |argv| - |operands| + if |operands| > 0 && operands[0] == "--" then 1 else 0)
    decreases |bundles|
  {
    if |bundles| == 0 {
      if |operands| > 0 { assert argv[i] == argv[i..][0] == operands[0]; }
    } else {
      var b := bundles[0];
      var n := i + |b.Words()|;
      assert argv[i..] == b.Words() + (AllWords(bundles[1..]) + operands);
      BundlePass(argv, opts, i, b, AllWords(bundles[1..]) + operands);
      PassReads(argv, opts, n, bundles[1..], operands);
    }
  }

  lemma BundlePass(argv: seq<string>, opts: string, i: nat, b: Bundle, rest: seq<string>)
    requires i <= |argv| && argv[i..] == b.Words() + rest && b.Writable(opts)
    ensures
      var n := i + |b.Words()|;
      && n <= |argv| && argv[n..] == rest
      && OnePass(argv, opts, i) == Pass(b.Items() + OnePass(argv, opts, n).items, OnePass(argv, opts, n).next)
  {
    WordsAt(argv, i, b, rest);
    BundleReads(opts, b, Following(argv, i));
  }

  lemma WordsAt(argv: seq<string>, i: nat, b: Bundle, rest: seq<string>)
    requires i <= |argv| && argv[i..] == b.Words() + rest
    ensures i + |b.Words()| <= |argv| && argv[i + |b.Words()|..] == rest
    ensures argv[i] == b.Text() && (b.tail.Separate? ==> Following(argv, i) == Some(b.tail.arg))
  {
    var n := |b.Words()|;
    assert argv[i + n..] == argv[i..][n..];
    assert argv[i] == argv[i..][0];
    if n == 2 { assert argv[i + 1] == argv[i..][1]; }
  }

  /**
   Bundling makes no difference: any two ways of writing the same options, bundled or apart, with
   their arguments attached or separate, give the caller the same calls, and leave `optind` at the
   first operand.
   */
  lemma BundlingInvariance(program: string, opts: string, a: seq<Bundle>, b: seq<Bundle>, operands: seq<string>)
    requires AllWritable(opts, a) && AllWritable(opts, b)
    requires AllItems(a) == AllItems(b) && EndsOptions(operands)
    ensures
      var argvA, argvB := [program] + AllWords(a) + operands, [program] + AllWords(b) + operands;
      var runA, runB := RunFrom(argvA, opts, START), RunFrom(argvB, opts, START);
      && runA.seen == runB.seen == Observe(AllItems(a), None)
      && runA.optind <= |argvA| && runB.optind <= |argvB|
      && argvA[runA.optind..] == argvB[runB.optind..] == AfterDashes(operands)
  {
    WritingIsRead(program, opts, a, operands);
    WritingIsRead(program, opts, b, operands);
  }

  function AfterDashes(operands: seq<string>): seq<string>
  {
    if |operands| > 0 && operands[0] == "--" then operands[1..] else operands
  }

  lemma WritingIsRead(program: string, opts: string, bundles: seq<Bundle>, operands: seq<string>)
    requires AllWritable(opts, bundles) && EndsOptions(operands)
    ensures
      var argv := [program] + AllWords(bundles) + operands;
      var run := RunFrom(argv, opts, START);
      && run.seen == Observe(AllItems(bundles), None)
      && run.optind <= |argv| && argv[run.optind..] == AfterDashes(operands)
  {
    var argv := [program] + AllWords(bundles) + operands;
    OperandsAreLast(program, AllWords(bundles), operands);
    RunIsOnePass(argv, opts, START);
    PassReads(argv, opts, 1, bundles, operands);
  }

  lemma OperandsAreLast(program: string, words: seq<string>, operands: seq<string>)
    ensures
      var argv := [program] + words + operands;
      && argv[1..] == words + operands && argv[|argv| - |operands|..] == operands
      && (|operands| > 0 ==> argv[|argv| - |operands| + 1..] == operands[1..])
  {
  }

  // ---------------------------------------------------------------- what letters and words mean

  /** The first place of `c` in the option string, if it has one. */
  ghost predicate FirstAt(opts: string, c: char, i: nat)
  {
    i < |opts| && opts[i] == c && forall j :: 0 <= j < i ==> opts[j] != c
  }

  lemma {:induction false} FindsFirst(opts: string, c: char)
    ensures if c in opts then FirstAt(opts, c, Find(opts, c)) else Find(opts, c) == |opts|
    decreases |opts|
  {
    if |opts| > 0 && opts[0] != c {
      FindsFirst(opts[1..], c);
      assert c in opts <==> c in opts[1..];
      if c in opts {
        forall j | 0 <= j < Find(opts, c) ensures opts[j] != c {
          if j > 0 { assert opts[j] == opts[1..][j - 1]; }
        }
      }
    }
  }

  /** A letter is an option if it stands in the option string, and takes an argument if a colon follows it there. */
  lemma LettersMean(opts: string, c: char)
    ensures Legal(opts, c) <==> c != ':' && c in opts
    ensures forall i: nat :: FirstAt(opts, c, i) ==>
      (TakesArg(opts, c) <==> c != ':' && i + 1 < |opts| && opts[i + 1] == ':')
    ensures TakesArg(opts, c) ==> c in opts
  {
    FindsFirst(opts, c);
    forall i: nat | FirstAt(opts, c, i) ensures i == Find(opts, c) {
    }
  }

  /** A call answers EOF exactly in front of a word that is no option, which it leaves unless it is "--". */
  lemma EofExactly(argv: seq<string>, opts: string, st: State)
    requires Valid(argv, st)
    ensures
      var out := Step(argv, opts, st);
      var noOption := st.optind >= |argv| || argv[st.optind] == "" || argv[st.optind][0] != '-'
        || argv[st.optind] == "-" || argv[st.optind] == "--";
      var used := if st.optind < |argv| && argv[st.optind] == "--" then 1 else 0;
      && (out.Eof? <==> st.sp == 1 && noOption)
      && (out.Eof? ==> out.state == st.(optind := st.optind + used))
  {
  }

  /**
   The answer to a letter: itself with its argument, the rest of the word or else the next word; or '?' with the
   letter in `optopt`, if it is none of the options, or its argument is missing.
   */
  lemma AnswersMean(argv: seq<string>, opts: string, st: State)
    requires Valid(argv, st) && Step(argv, opts, st).Yield?
    ensures st.optind < |argv| && st.sp < |argv[st.optind]|
    ensures
      var w, seen := argv[st.optind], Step(argv, opts, st).seen;
      var c, rest := w[st.sp], w[st.sp + 1..];
      var next := if st.optind + 1 < |argv| then Some(argv[st.optind + 1]) else None;
      && seen.optopt == c
      && (if c == ':' || c !in opts then seen.ret == '?' && seen.optarg == st.optarg
          else if !TakesArg(opts, c) then seen.ret == c && seen.optarg == None
          else if rest != "" then seen.ret == c && seen.optarg == Some(rest)
          else if next.Some? then seen.ret == c && seen.optarg == next
          else seen.ret == '?' && seen.optarg == st.optarg)
  {
    LettersMean(opts, argv[st.optind][st.sp]);
  }

  /** Where a call leaves off: at the next letter of the word, or at the word behind what it has used. */
  lemma CallsMoveOn(argv: seq<string>, opts: string, st: State)
    requires Valid(argv, st) && Step(argv, opts, st).Yield?
    ensures st.optind < |argv| && st.sp < |argv[st.optind]|
    ensures
      var w, st' := argv[st.optind], Step(argv, opts, st).state;
      var takes, last := TakesArg(opts, w[st.sp]), st.sp + 1 == |w|;
      if !takes && !last then st'.sp == st.sp + 1 && st'.optind == st.optind
      else st'.sp == 1 && st'.optind == st.optind + if takes && last && st.optind + 1 < |argv| then 2 else 1
  {
  }
}
