/**
 Splitting a command line into global options and groups of per-file options: `split_commandline`
 and its helpers in fftools/cmdutils.c. Whether libav knows an option is answered by an oracle.
 */
module CommandLine {
  import opened Common

  /** One entry of the option table, with the flags that matter for splitting. */
  datatype OptionDef = OptionDef(
    name: string, hasArg: bool, exit: bool, boolean: bool, perFile: bool, spec: bool, offset: bool)
  {
    predicate Global() { !(perFile || spec || offset) }
  }

  /** A kind of group; `sep` is the option that ends one, such as "i" for inputs. */
  datatype GroupDef = GroupDef(name: string, sep: Option<string>)

  /** opt_default's answer for an option and its argument. */
  datatype Answer = Accepted | NotFound | Failed(code: int)

  datatype Env = Env(options: seq<OptionDef>, groups: seq<GroupDef>, avOption: (string, string) -> Answer)

  /** An option as it was given; only an exit option at the very end has no value. */
  datatype Opt = Opt(def: OptionDef, key: string, val: Option<string>)

  datatype AvOpt = AvOpt(key: string, val: string)

  /** A finished group, and the one being collected. */
  datatype Group = Group(opts: seq<Opt>, avOpts: seq<AvOpt>, arg: string)

  datatype Collected = Collected(opts: seq<Opt>, avOpts: seq<AvOpt>)

  datatype Context = Context(globals: seq<Opt>, groups: seq<seq<Group>>, cur: Collected)

  datatype Status = Ok | MissingArgument | Unrecognized | AvOptionFailed(code: int)

  const DASHES: string := "--"

  const EMPTY: Collected := Collected([], [])

  // ---------------------------------------------------------------- table lookups

  function IndexOf(s: string, c: char): nat
    ensures IndexOf(s, c) <= |s|
  {
    if |s| == 0 || s[0] == c then 0 else 1 + IndexOf(s[1..], c)
  }

  /** find_option: the first entry whose name is the part of `key` before a colon. */
  function FindOption(options: seq<OptionDef>, key: string): Option<OptionDef>
  {
    if |options| == 0 then None
    else if options[0].name == key[..IndexOf(key, ':')] then Some(options[0])
    else FindOption(options[1..], key)
  }

  /** match_group_separator: the first group ended by option `key`, counting from `i`. */
  function MatchGroup(groups: seq<GroupDef>, key: string, i: nat): (k: Option<nat>)
    requires i <= |groups|
    ensures k.Some? ==> i <= k.value < |groups| && groups[k.value].sep == Some(key)
    ensures forall j :: i <= j < (if k.Some? then k.value else |groups|) ==> groups[j].sep != Some(key)
    decreases |groups| - i
  {
    if i == |groups| then None
    else if groups[i].sep == Some(key) then Some(i)
    else MatchGroup(groups, key, i + 1)
  }

  // ---------------------------------------------------------------- one option at a time

  /** What one turn of the splitter recognises. */
  datatype Event =
    | DashDash
    | File(arg: string)
    | Separator(group: nat, arg: string)
    | GiveOpt(opt: Opt)
    | GiveAvOpt(avOpt: AvOpt)

  datatype Turn = Took(event: Event, next: nat) | Fail(status: Status)

  predicate NegatedBool(env: Env, key: string)
  {
    && |key| >= 2 && key[0] == 'n' && key[1] == 'o'
    && FindOption(env.options, key[2..]).Some? && FindOption(env.options, key[2..]).value.boolean
  }

  /** The turn at `argv[i]`; `dashdash` is the index right after the last "--". */
  function TurnAt(env: Env, argv: seq<string>, i: nat, dashdash: int): Turn
    requires i < |argv|
  {
    var opt := argv[i];
    if opt == DASHES then Took(DashDash, i + 1)
    else if |opt| == 0 || opt[0] != '-' || |opt| == 1 || dashdash == i then Took(File(opt), i + 1)
    else
      var key := opt[1..];
      var group := MatchGroup(env.groups, key, 0);
      var po := FindOption(env.options, key);
      var arg := if i + 1 < |argv| then Some(argv[i + 1]) else None;
      if group.Some? then
        if arg.None? then Fail(MissingArgument) else Took(Separator(group.value, arg.value), i + 2)
      else if po.Some? then
        if po.value.exit then Took(GiveOpt(Opt(po.value, key, arg)), i + 2)
        else if !po.value.hasArg then Took(GiveOpt(Opt(po.value, key, Some("1"))), i + 1)
        else if arg.None? then Fail(MissingArgument)
        else Took(GiveOpt(Opt(po.value, key, arg)), i + 2)
      else if arg.Some? && env.avOption(key, arg.value).Accepted? then Took(GiveAvOpt(AvOpt(key, arg.value)), i + 2)
      else if arg.Some? && env.avOption(key, arg.value).Failed? then
        Fail(AvOptionFailed(env.avOption(key, arg.value).code))
      else if NegatedBool(env, key) then
        Took(GiveOpt(Opt(FindOption(env.options, key[2..]).value, key, Some("0"))), i + 1)
      else Fail(Unrecognized)
  }

  /** All the turns from `argv[i]` on. */
  datatype Parsed = Parsed(events: seq<Event>, status: Status)

  function Parse(env: Env, argv: seq<string>, i: nat, dashdash: int): Parsed
    decreases |argv| - i
  {
    if i >= |argv| then Parsed([], Ok)
    else
      match TurnAt(env, argv, i, dashdash)
      case Fail(s) => Parsed([], s)
      case Took(e, next) =>
        var p := Parse(env, argv, next, if e.DashDash? then i + 1 else dashdash);
        Parsed([e] + p.events, p.status)
  }

  // ---------------------------------------------------------------- the context

  /** What one event does to the context; finish_group and add_opt. */
  function Apply(ctx: Context, e: Event): Context
  {
    match e
    case DashDash => ctx
    case File(arg) => FinishGroup(ctx, 0, arg)
    case Separator(k, arg) => FinishGroup(ctx, k, arg)
    case GiveOpt(o) =>
      if o.def.Global() then ctx.(globals := ctx.globals + [o])
      else ctx.(cur := ctx.cur.(opts := ctx.cur.opts + [o]))
    case GiveAvOpt(o) => ctx.(cur := ctx.cur.(avOpts := ctx.cur.avOpts + [o]))
  }

  function FinishGroup(ctx: Context, k: nat, arg: string): Context
  {
    if k < |ctx.groups| then
      ctx.(groups := ctx.groups[k := ctx.groups[k] + [Group(ctx.cur.opts, ctx.cur.avOpts, arg)]], cur := EMPTY)
    else ctx
  }

  function Build(ctx: Context, events: seq<Event>): Context
    decreases |events|
  {
    if |events| == 0 then ctx else Build(Apply(ctx, events[0]), events[1..])
  }

  function InitContext(env: Env): Context
  {
    Context([], seq(|env.groups|, _ => []), EMPTY)
  }

  class OptionParseContext {
    var globals: seq<Opt>
    var groups: seq<seq<Group>>
    var curOpts: seq<Opt>
    var curAvOpts: seq<AvOpt>

    function View(): Context
      reads this
    {
      Context(globals, groups, Collected(curOpts, curAvOpts))
    }

    constructor (env: Env)
      ensures View() == InitContext(env)
    {
      globals, groups, curOpts, curAvOpts := [], seq(|env.groups|, _ => []), [], [];
    }

    method Finish(k: nat, arg: string)
      requires k < |groups|
      modifies this
      ensures View() == FinishGroup(old(View()), k, arg)
    {
      groups := groups[k := groups[k] + [Group(curOpts, curAvOpts, arg)]];
      curOpts, curAvOpts := [], [];
    }

    method AddOpt(def: OptionDef, key: string, val: Option<string>)
      modifies this
      ensures View() == Apply(old(View()), GiveOpt(Opt(def, key, val)))
    {
      if def.Global() {
        globals := globals + [Opt(def, key, val)];
      } else {
        curOpts := curOpts + [Opt(def, key, val)];
      }
    }

    /** The loop of split_commandline over `argv`, whose entry 0 is the program. */
    method Split(env: Env, argv: seq<string>) returns (ret: Status)
      requires |groups| == |env.groups| > 0
      modifies this
      ensures
        var p := Parse(env, argv, 1, -2);
        ret == p.status && View() == Build(old(View()), p.events)
    {
      ghost var goal := Parse(env, argv, 1, -2);
      ghost var end := Build(View(), goal.events);
      var optindex: nat, dashdash: int := 1, -2;
      while optindex < |argv|
        invariant |groups| == |env.groups|
        invariant goal.status == Parse(env, argv, optindex, dashdash).status
        invariant end == Build(View(), Parse(env, argv, optindex, dashdash).events)
        decreases |argv| - optindex
      {
        var stop;
        stop, optindex, dashdash, ret := SplitOne(env, argv, optindex, dashdash);
        if stop { return; }
      }
      return Ok;
    }

    /** One turn of that loop. */
    method SplitOne(env: Env, argv: seq<string>, at: nat, dashdash: int)
      returns (stop: bool, optindex: nat, dashdash': int, ret: Status)
      requires |groups| == |env.groups| > 0 && at < |argv|
      modifies this
      ensures |groups| == |env.groups|
      ensures
        match TurnAt(env, argv, at, dashdash)
        case Fail(s) => stop && ret == s && View() == old(View())
        case Took(e, next) =>
          && !stop && optindex == next
          && dashdash' == (if e.DashDash? then at + 1 else dashdash)
          && View() == Apply(old(View()), e)
    {
      stop, optindex, dashdash', ret := false, at + 1, dashdash, Ok;
      var opt := argv[at];
      if opt == DASHES {
        dashdash' := optindex;
        return;
      }
      // a word that ends the group of kind 0
      if |opt| == 0 || opt[0] != '-' || |opt| == 1 || dashdash + 1 == optindex {
        Finish(0, opt);
        return;
      }
      var key := opt[1..];
      // a key that ends the group of its kind, with the next word
      var group := MatchGroup(env.groups, key, 0);
      if group.Some? {
        if optindex >= |argv| { return true, optindex, dashdash, MissingArgument; }
        Finish(group.value, argv[optindex]);
        optindex := optindex + 1;
        return;
      }
      // a key of the table
      var po := FindOption(env.options, key);
      if po.Some? {
        var val := Some("1");
        if po.value.exit {
          val := if optindex < |argv| then Some(argv[optindex]) else None;
          optindex := optindex + 1;
        } else if po.value.hasArg {
          if optindex >= |argv| { return true, optindex, dashdash, MissingArgument; }
          val := Some(argv[optindex]);
          optindex := optindex + 1;
        }
        AddOpt(po.value, key, val);
        return;
      }
      // a key that the libraries may know
      if optindex < |argv| {
        var answer := env.avOption(key, argv[optindex]);
        if answer.Accepted? {
          curAvOpts := curAvOpts + [AvOpt(key, argv[optindex])];
          optindex := optindex + 1;
          return;
        } else if answer.Failed? {
          return true, optindex, dashdash, AvOptionFailed(answer.code);
        }
      }
      // a negated flag
      if NegatedBool(env, key) {
        AddOpt(FindOption(env.options, key[2..]).value, key, Some("0"));
        return;
      }
      return true, optindex, dashdash, Unrecognized;
    }
  }

  // ---------------------------------------------------------------- printing

  /** The words an event is written with. */
  function Words(env: Env, e: Event): seq<string>
  {
    match e
    case DashDash => [DASHES]
    case File(arg) => [arg]
    case Separator(k, arg) =>
      ["-" + if k < |env.groups| && env.groups[k].sep.Some? then env.groups[k].sep.value else ""] + [arg]
    case GiveOpt(o) =>
      ["-" + o.key] + if TakesWord(env, o) && o.val.Some? then [o.val.value] else []
    case GiveAvOpt(o) => ["-" + o.key, o.val]
  }

  /** A negated boolean has no word of its own; otherwise the table says whether the option has one. */
  predicate TakesWord(env: Env, o: Opt)
  {
    FindOption(env.options, o.key).Some? && (o.def.exit || o.def.hasArg)
  }

  function AllWords(env: Env, es: seq<Event>): seq<string>
    decreases |es|
  {
    if |es| == 0 then [] else Words(env, es[0]) + AllWords(env, es[1..])
  }

  /**
   Every word takes exactly one role: written out again, the events are the words of the line, in order,
   none lost, none twice. In an accepted line these are all the words, otherwise those before the error.
   */
  lemma {:induction false} EveryWordHasOneRole(env: Env, argv: seq<string>, i: nat, dashdash: int)
    requires i <= |argv|
    ensures
      var p := Parse(env, argv, i, dashdash);
      if p.status == Ok then AllWords(env, p.events) == argv[i..] else AllWords(env, p.events) < argv[i..]
    decreases |argv| - i
  {
    if i < |argv| && TurnAt(env, argv, i, dashdash).Took? {
      var t := TurnAt(env, argv, i, dashdash);
      var dashdash' := if t.event.DashDash? then i + 1 else dashdash;
      var p := Parse(env, argv, t.next, dashdash');
      AllWordsCons(env, t.event, p.events);
      TurnWords(env, argv, i, dashdash);
      if t.next <= |argv| {
        EveryWordHasOneRole(env, argv, t.next, dashdash');
        WordsBefore(argv, i, t.next, AllWords(env, p.events));
      } else {
        assert p.events == [];
        assert Words(env, t.event) + [] == argv[i..];
      }
    }
  }

  lemma WordsBefore(argv: seq<string>, i: nat, n: nat, rest: seq<string>)
    requires i <= n <= |argv|
    ensures rest == argv[n..] ==> argv[i..n] + rest == argv[i..]
    ensures rest < argv[n..] ==> argv[i..n] + rest < argv[i..]
  {
    assert argv[i..] == argv[i..n] + argv[n..];
  }

  lemma AllWordsCons(env: Env, e: Event, es: seq<Event>)
    ensures AllWords(env, [e] + es) == Words(env, e) + AllWords(env, es)
  {
    assert ([e] + es)[1..] == es;
  }

  lemma TurnWords(env: Env, argv: seq<string>, i: nat, dashdash: int)
    requires i < |argv| && TurnAt(env, argv, i, dashdash).Took?
    ensures
      var t := TurnAt(env, argv, i, dashdash);
      && i < t.next <= i + 2
      && Words(env, t.event) == argv[i..Min(t.next, |argv|)]
      && (t.next > |argv| ==> t.next == |argv| + 1)
  {
    var opt := argv[i];
    if |opt| > 0 && opt[0] == '-' { assert "-" + opt[1..] == opt; }
    assert argv[i..i + 1] == [opt];
    if i + 1 < |argv| { assert argv[i..i + 2] == [opt, argv[i + 1]]; }
  }

  /** A file named "--" cannot be given: no line makes the splitter see one. */
  lemma {:induction false} NoFileNamedDashes(env: Env, argv: seq<string>, i: nat, dashdash: int)
    ensures File(DASHES) !in Parse(env, argv, i, dashdash).events
    decreases |argv| - i
  {
    if i < |argv| && TurnAt(env, argv, i, dashdash).Took? {
      var t := TurnAt(env, argv, i, dashdash);
      assert t.event != File(DASHES);
      NoFileNamedDashes(env, argv, t.next, if t.event.DashDash? then i + 1 else dashdash);
    }
  }

  // ---------------------------------------------------------------- what an option is recognised as

  /** `found` is the first entry called `name`, or there is none. */
  ghost predicate FirstNamed(options: seq<OptionDef>, name: string, found: Option<OptionDef>)
  {
    match found
    case None => forall i :: 0 <= i < |options| ==> options[i].name != name
    case Some(def) =>
      exists i :: 0 <= i < |options| && options[i] == def && def.name == name && NotBefore(options, name, i)
  }

  ghost predicate NotBefore(options: seq<OptionDef>, name: string, i: nat)
    requires i <= |options|
  {
    forall j :: 0 <= j < i ==> options[j].name != name
  }

  lemma {:induction false} ColonAt(name: string, rest: string)
    requires ':' !in name && (rest == "" || rest[0] == ':')
    ensures IndexOf(name + rest, ':') == |name| && (name + rest)[..|name|] == name
    decreases |name|
  {
    if |name| > 0 {
      assert (name + rest)[1..] == name[1..] + rest;
      ColonAt(name[1..], rest);
    } else {
      assert name + rest == rest;
    }
  }

  /** An option with or without a stream specifier is looked up by its name, and the first entry of it is found. */
  lemma {:induction false} FindsFirst(options: seq<OptionDef>, name: string, rest: string)
    requires ':' !in name && (rest == "" || rest[0] == ':')
    ensures FirstNamed(options, name, FindOption(options, name + rest))
    decreases |options|
  {
    ColonAt(name, rest);
    if |options| > 0 {
      if options[0].name == name {
        assert NotBefore(options, name, 0);
      } else {
        FindsFirst(options[1..], name, rest);
        if FindOption(options, name + rest).Some? {
          var i :| 0 <= i < |options[1..]| && options[1..][i] == FindOption(options, name + rest).value
            && NotBefore(options[1..], name, i);
          forall j | 0 <= j < i + 1 ensures options[j].name != name {
            if j > 0 { assert options[1..][j - 1] == options[j]; }
          }
          assert options[i + 1] == options[1..][i] && NotBefore(options, name, i + 1);
        } else {
          forall j | 0 <= j < |options| ensures options[j].name != name {
            if j > 0 { assert options[1..][j - 1] == options[j]; }
          }
        }
      }
    }
  }

  lemma FirstIsOne(options: seq<OptionDef>, name: string, a: Option<OptionDef>, b: Option<OptionDef>)
    requires FirstNamed(options, name, a) && FirstNamed(options, name, b)
    ensures a == b
  {
    if a.Some? && b.Some? {
      var i :| 0 <= i < |options| && options[i] == a.value && NotBefore(options, name, i);
      var j :| 0 <= j < |options| && options[j] == b.value && NotBefore(options, name, j);
    }
  }

  /** The word at `i` is an option of this name and specifier, and no group separator. */
  ghost predicate IsOption(env: Env, argv: seq<string>, i: nat, dashdash: int, name: string, rest: string)
  {
    && i < |argv| && argv[i] == "-" + name + rest && argv[i] != "--" && |name + rest| > 0 && i != dashdash
    && ':' !in name && (rest == "" || rest[0] == ':')
    && forall k :: 0 <= k < |env.groups| ==> env.groups[k].sep != Some(name + rest)
  }

  /**
   An option whose name is in the table is recognised as its first entry, whatever the specifier: an exit option
   takes the next word if there is one, one with an argument needs it, and others have the value 1.
   */
  lemma TableOptionIsRecognised(env: Env, argv: seq<string>, i: nat, dashdash: int, name: string, rest: string, def: OptionDef)
    requires IsOption(env, argv, i, dashdash, name, rest) && FirstNamed(env.options, name, Some(def))
    ensures
      var key := name + rest;
      TurnAt(env, argv, i, dashdash) ==
        if i + 1 < |argv| && (def.exit || def.hasArg) then Took(GiveOpt(Opt(def, key, Some(argv[i + 1]))), i + 2)
        else if def.exit then Took(GiveOpt(Opt(def, key, None)), i + 2)
        else if def.hasArg then Fail(MissingArgument)
        else Took(GiveOpt(Opt(def, key, Some("1"))), i + 1)
  {
    assert argv[i][1..] == name + rest;
    FindsFirst(env.options, name, rest);
    FirstIsOne(env.options, name, FindOption(env.options, name + rest), Some(def));
  }

  /** As a library's option, if that accepts it with the next word; otherwise perhaps as a negated flag. */
  lemma OtherOptionIsRecognised(env: Env, argv: seq<string>, i: nat, dashdash: int, name: string, rest: string)
    requires IsOption(env, argv, i, dashdash, name, rest) && FirstNamed(env.options, name, None)
    ensures
      var key := name + rest;
      var answer := if i + 1 < |argv| then env.avOption(key, argv[i + 1]) else NotFound;
      && (answer.Accepted? ==> TurnAt(env, argv, i, dashdash) == Took(GiveAvOpt(AvOpt(key, argv[i + 1])), i + 2))
      && (answer.Failed? ==> TurnAt(env, argv, i, dashdash) == Fail(AvOptionFailed(answer.code)))
      && (answer.NotFound? && !(|name| >= 2 && name[..2] == "no") ==> TurnAt(env, argv, i, dashdash) == Fail(Unrecognized))
  {
    var key := name + rest;
    assert argv[i][1..] == key;
    FindsFirst(env.options, name, rest);
    FirstIsOne(env.options, name, FindOption(env.options, key), None);
    if |key| >= 2 && key[0] == 'n' && key[1] == 'o' {
      if |name| >= 2 { assert name[..2] == "no"; }
    }
  }

  /** A flag `name` is negated by "-no" in front of it, if that is not an option itself; other words are not recognised. */
  lemma NegatedFlagIsRecognised(env: Env, argv: seq<string>, i: nat, dashdash: int, name: string, rest: string, def: Option<OptionDef>)
    requires IsOption(env, argv, i, dashdash, "no" + name, rest) && FirstNamed(env.options, "no" + name, None)
    requires ':' !in name && FirstNamed(env.options, name, def)
    requires i + 1 < |argv| ==> env.avOption("no" + name + rest, argv[i + 1]).NotFound?
    ensures TurnAt(env, argv, i, dashdash) ==
      if def.Some? && def.value.boolean then Took(GiveOpt(Opt(def.value, "no" + name + rest, Some("0"))), i + 1)
      else Fail(Unrecognized)
  {
    var key := "no" + name + rest;
    assert argv[i][1..] == key && key[2..] == name + rest;
    FindsFirst(env.options, "no" + name, rest);
    FirstIsOne(env.options, "no" + name, FindOption(env.options, key), None);
    FindsFirst(env.options, name, rest);
    FirstIsOne(env.options, name, FindOption(env.options, name + rest), def);
  }

  /** A separator ends a group of the first kind it stands for, and needs a word behind it. */
  lemma SeparatorIsRecognised(env: Env, argv: seq<string>, i: nat, dashdash: int, k: nat)
    requires i < |argv| && |argv[i]| > 1 && argv[i][0] == '-' && argv[i] != DASHES && i != dashdash && k < |env.groups|
    requires env.groups[k].sep == Some(argv[i][1..])
    requires forall j :: 0 <= j < k ==> env.groups[j].sep != Some(argv[i][1..])
    ensures TurnAt(env, argv, i, dashdash) ==
      if i + 1 < |argv| then Took(Separator(k, argv[i + 1]), i + 2) else Fail(MissingArgument)
  {
  }

  predicate DashName(s: string) { |s| > 1 && s[0] == '-' }

  /** A word is a file exactly if it does not begin with a dash, is a single dash, or stands right behind "--". */
  lemma FileWords(env: Env, argv: seq<string>, i: nat, dashdash: int)
    requires i < |argv|
    ensures
      var isFile := argv[i] != DASHES && (!DashName(argv[i]) || dashdash == i);
      var t := TurnAt(env, argv, i, dashdash);
      && (isFile ==> t == Took(File(argv[i]), i + 1))
      && (t.Took? && t.event.File? ==> isFile)
      && (t.Took? && t.event.DashDash? <==> argv[i] == DASHES)
  {
  }

  /** So in a whole line, a file whose name begins with a dash comes right behind a "--". */
  lemma {:induction false} DashFilesFollowDashes(env: Env, argv: seq<string>, i: nat, dashdash: int, k: nat)
    requires k < |Parse(env, argv, i, dashdash).events| && dashdash <= i
    ensures
      var es := Parse(env, argv, i, dashdash).events;
      es[k].File? && DashName(es[k].arg) ==> if k > 0 then es[k - 1].DashDash? else dashdash == i
    decreases |argv| - i
  {
    var t := TurnAt(env, argv, i, dashdash);
    var dashdash' := if t.event.DashDash? then i + 1 else dashdash;
    FileWords(env, argv, i, dashdash);
    if k > 0 {
      DashFilesFollowDashes(env, argv, t.next, dashdash', k - 1);
      var rest := Parse(env, argv, t.next, dashdash').events;
      assert Parse(env, argv, i, dashdash).events[k] == rest[k - 1];
      if k > 1 { assert Parse(env, argv, i, dashdash).events[k - 1] == rest[k - 2]; }
    }
  }

  // ---------------------------------------------------------------- options stay where they belong

  predicate PerFile(o: Opt) { o.def.perFile || o.def.spec || o.def.offset }

  ghost predicate Unmixed(ctx: Context)
  {
    && (forall o :: o in ctx.globals ==> !PerFile(o))
    && (forall o :: o in ctx.cur.opts ==> PerFile(o))
    && (forall k, g, o :: 0 <= k < |ctx.groups| && g in ctx.groups[k] && o in g.opts ==> PerFile(o))
  }

  /** Global and per-file options never mix, whatever the line. */
  lemma {:induction false} NeverMixed(ctx: Context, es: seq<Event>)
    requires Unmixed(ctx)
    ensures Unmixed(Build(ctx, es))
    decreases |es|
  {
    if |es| > 0 { NeverMixed(Apply(ctx, es[0]), es[1..]); }
  }

  function GlobalsOf(es: seq<Event>): seq<Opt>
  {
    if |es| == 0 then []
    else (if es[0].GiveOpt? && es[0].opt.def.Global() then [es[0].opt] else []) + GlobalsOf(es[1..])
  }

  function PerFileOf(es: seq<Event>): seq<Opt>
  {
    if |es| == 0 then []
    else (if es[0].GiveOpt? && !es[0].opt.def.Global() then [es[0].opt] else []) + PerFileOf(es[1..])
  }

  function AvOptsOf(es: seq<Event>): seq<AvOpt>
  {
    if |es| == 0 then []
    else (if es[0].GiveAvOpt? then [es[0].avOpt] else []) + AvOptsOf(es[1..])
  }

  ghost predicate NoFinish(es: seq<Event>)
  {
    forall i :: 0 <= i < |es| ==> !es[i].File? && !es[i].Separator?
  }

  /** Between two separators, options are collected in their order, the global ones apart. */
  lemma {:induction false} CollectsInOrder(ctx: Context, es: seq<Event>)
    requires NoFinish(es)
    ensures Build(ctx, es) == Context(ctx.globals + GlobalsOf(es), ctx.groups,
      Collected(ctx.cur.opts + PerFileOf(es), ctx.cur.avOpts + AvOptsOf(es)))
    decreases |es|
  {
    if |es| > 0 {
      FirstCollected(ctx, es);
      CollectsInOrder(Apply(ctx, es[0]), es[1..]);
    }
  }

  lemma FirstCollected(ctx: Context, es: seq<Event>)
    requires |es| > 0 && NoFinish(es)
    ensures
      var ctx1 := Apply(ctx, es[0]);
      && NoFinish(es[1..]) && ctx1.groups == ctx.groups
      && ctx1.globals + GlobalsOf(es[1..]) == ctx.globals + GlobalsOf(es)
      && ctx1.cur.opts + PerFileOf(es[1..]) == ctx.cur.opts + PerFileOf(es)
      && ctx1.cur.avOpts + AvOptsOf(es[1..]) == ctx.cur.avOpts + AvOptsOf(es)
  {
    var e, rest := es[0], es[1..];
    var o := if e.GiveOpt? then [e.opt] else [];
    RegroupOpts(ctx.globals, if e.GiveOpt? && e.opt.def.Global() then o else [], GlobalsOf(rest));
    RegroupOpts(ctx.cur.opts, if e.GiveOpt? && !e.opt.def.Global() then o else [], PerFileOf(rest));
    RegroupAvOpts(ctx.cur.avOpts, if e.GiveAvOpt? then [e.avOpt] else [], AvOptsOf(rest));
  }

  lemma RegroupOpts(a: seq<Opt>, b: seq<Opt>, c: seq<Opt>)
    ensures (a + b) + c == a + (b + c) && a + [] == a
  {
  }

  lemma RegroupAvOpts(a: seq<AvOpt>, b: seq<AvOpt>, c: seq<AvOpt>)
    ensures (a + b) + c == a + (b + c) && a + [] == a
  {
  }

  lemma {:induction false} BuildAppend(ctx: Context, es: seq<Event>, fs: seq<Event>)
    ensures Build(ctx, es + fs) == Build(Build(ctx, es), fs)
    decreases |es|
  {
    if |es| == 0 {
      assert es + fs == fs;
    } else {
      assert (es + fs)[1..] == es[1..] + fs;
      BuildAppend(Apply(ctx, es[0]), es[1..], fs);
    }
  }

  // ---------------------------------------------------------------- parsing what was printed

  /** A key that reaches the option table: not empty, not itself a dash, and no group separator. */
  predicate PlainKey(env: Env, key: string)
  {
    |key| > 0 && key != "-" && MatchGroup(env.groups, key, 0).None?
  }

  /** An option that is recognised when written; options with an optional argument are excluded. */
  ghost predicate GoodOpt(env: Env, o: Opt)
  {
    && PlainKey(env, o.key)
    && match FindOption(env.options, o.key)
       case Some(def) => def == o.def && !def.exit && (if def.hasArg then o.val.Some? else o.val == Some("1"))
       case None =>
         && NegatedBool(env, o.key)
         && FindOption(env.options, o.key[2..]) == Some(o.def) && o.val == Some("0")
         && forall arg :: env.avOption(o.key, arg) == NotFound
  }

  predicate GoodAvOpt(env: Env, o: AvOpt)
  {
    PlainKey(env, o.key) && FindOption(env.options, o.key).None? && env.avOption(o.key, o.val).Accepted?
  }


  /** `e` is recognised when written right after "--" (`afterDashes`) or elsewhere. */
  ghost predicate GoodEvent(env: Env, e: Event, afterDashes: bool)
  {
    match e
    case DashDash => true
    case File(arg) => arg != DASHES && (DashName(arg) ==> afterDashes)
    case Separator(k, arg) =>
      !afterDashes && k < |env.groups| && env.groups[k].sep.Some?
      && |env.groups[k].sep.value| > 0 && env.groups[k].sep.value != "-"
      && MatchGroup(env.groups, env.groups[k].sep.value, 0) == Some(k)
    case GiveOpt(o) => !afterDashes && GoodOpt(env, o)
    case GiveAvOpt(o) => !afterDashes && GoodAvOpt(env, o)
  }

  ghost predicate GoodEvents(env: Env, es: seq<Event>, afterDashes: bool)
    decreases |es|
  {
    |es| == 0 || (GoodEvent(env, es[0], afterDashes) && GoodEvents(env, es[1..], es[0].DashDash?))
  }

  lemma TurnReads(env: Env, argv: seq<string>, i: nat, dashdash: int, e: Event)
    requires i + |Words(env, e)| <= |argv| && argv[i..i + |Words(env, e)|] == Words(env, e)
    requires GoodEvent(env, e, dashdash == i)
    ensures i < |argv| && TurnAt(env, argv, i, dashdash) == Took(e, i + |Words(env, e)|)
  {
    var w := Words(env, e);
    assert argv[i] == argv[i..i + |w|][0] == w[0];
    if |w| > 1 { assert argv[i + 1] == argv[i..i + |w|][1] == w[1]; }
    if !e.File? && !e.DashDash? {
      var key := argv[i][1..];
      assert argv[i] == "-" + key;
      if key != "-" { assert argv[i][1] == key[0]; }
    }
  }

  /** Writing good events and splitting the line gives the same events. */
  lemma {:induction false} ParseReads(env: Env, argv: seq<string>, i: nat, dashdash: int, es: seq<Event>)
    requires i <= |argv| && argv[i..] == AllWords(env, es)
    requires GoodEvents(env, es, dashdash == i) && dashdash <= i
    ensures Parse(env, argv, i, dashdash) == Parsed(es, Ok)
    decreases |es|
  {
    if |es| > 0 {
      var e := es[0];
      var n := i + |Words(env, e)|;
      Divide(argv, i, Words(env, e), AllWords(env, es[1..]));
      TurnReads(env, argv, i, dashdash, e);
      assert n > i;
      ParseReads(env, argv, n, if e.DashDash? then i + 1 else dashdash, es[1..]);
      assert [e] + es[1..] == es;
    }
  }

  lemma Divide(argv: seq<string>, i: nat, a: seq<string>, b: seq<string>)
    requires i <= |argv| && argv[i..] == a + b
    ensures i + |a| <= |argv| && argv[i..i + |a|] == a && argv[i + |a|..] == b
  {
    assert argv[i..i + |a|] == argv[i..][..|a|];
    assert argv[i + |a|..] == argv[i..][|a|..];
  }

  /** A file without a separator can be given by its name exactly if it is not named "--"; then "--" before it does. */
  lemma FileNamesExactly(env: Env, program: string, name: string)
    ensures (exists argv :: File(name) in Parse(env, argv, 1, -2).events) <==> name != DASHES
    ensures name != DASHES ==> Parse(env, [program, DASHES, name], 1, -2) == Parsed([DashDash, File(name)], Ok)
  {
    if name == DASHES {
      forall argv: seq<string> ensures File(name) !in Parse(env, argv, 1, -2).events {
        NoFileNamedDashes(env, argv, 1, -2);
      }
    } else {
      var argv, es := [program, DASHES, name], [DashDash, File(name)];
      assert es[1..] == [File(name)] && es[1..][1..] == [];
      assert AllWords(env, es[1..]) == [name];
      assert argv[1..] == [DASHES, name] == AllWords(env, es);
      ParseReads(env, argv, 1, -2, es);
      assert File(name) in Parse(env, argv, 1, -2).events;
    }
  }

  // ---------------------------------------------------------------- the round trip

  function OptEvents(opts: seq<Opt>): seq<Event>
  {
    if |opts| == 0 then [] else [GiveOpt(opts[0])] + OptEvents(opts[1..])
  }

  function AvOptEvents(opts: seq<AvOpt>): seq<Event>
  {
    if |opts| == 0 then [] else [GiveAvOpt(opts[0])] + AvOptEvents(opts[1..])
  }

  /** The end of a group of kind `k`: its separator, or the bare file name, with "--" where needed. */
  function EndEvents(env: Env, k: nat, arg: string): seq<Event>
  {
    if k < |env.groups| && env.groups[k].sep.Some? then [Separator(k, arg)]
    else if DashName(arg) then [DashDash, File(arg)]
    else [File(arg)]
  }

  function GroupEvents(env: Env, k: nat, g: Group): seq<Event>
  {
    OptEvents(g.opts) + AvOptEvents(g.avOpts) + EndEvents(env, k, g.arg)
  }

  function ListEvents(env: Env, k: nat, gs: seq<Group>): seq<Event>
  {
    if |gs| == 0 then [] else GroupEvents(env, k, gs[0]) + ListEvents(env, k, gs[1..])
  }

  function AllGroupEvents(env: Env, k: nat, groups: seq<seq<Group>>): seq<Event>
    requires k <= |groups|
    decreases |groups| - k
  {
    if k == |groups| then [] else ListEvents(env, k, groups[k]) + AllGroupEvents(env, k + 1, groups)
  }

  /** A context as a line: the globals, every group, and what trails behind the last of them. */
  function ContextEvents(env: Env, ctx: Context): seq<Event>
  {
    OptEvents(ctx.globals) + AllGroupEvents(env, 0, ctx.groups)
    + (OptEvents(ctx.cur.opts) + AvOptEvents(ctx.cur.avOpts))
  }

  function Print(env: Env, ctx: Context): seq<string> { AllWords(env, ContextEvents(env, ctx)) }

  ghost predicate GoodGroup(env: Env, k: nat, g: Group)
    requires k < |env.groups|
  {
    && (forall o :: o in g.opts ==> GoodOpt(env, o) && !o.def.Global())
    && (forall o :: o in g.avOpts ==> GoodAvOpt(env, o))
    && (if env.groups[k].sep.Some? then GoodEvent(env, Separator(k, g.arg), false)
        else k == 0 && g.arg != DASHES)
  }

  /** The contexts that can be written: recognisable keys, and no file named "--". */
  ghost predicate GoodContext(env: Env, ctx: Context)
  {
    && |ctx.groups| == |env.groups| > 0
    && (forall o :: o in ctx.globals ==> GoodOpt(env, o) && o.def.Global())
    && (forall k, g :: 0 <= k < |ctx.groups| && g in ctx.groups[k] ==> GoodGroup(env, k, g))
    && (forall o :: o in ctx.cur.opts ==> GoodOpt(env, o) && !o.def.Global())
    && (forall o :: o in ctx.cur.avOpts ==> GoodAvOpt(env, o))
  }

  predicate EndsPlain(es: seq<Event>) { |es| == 0 || !es[|es| - 1].DashDash? }

  lemma {:induction false} GoodAppend(env: Env, es: seq<Event>, fs: seq<Event>, afterDashes: bool)
    requires GoodEvents(env, es, afterDashes) && EndsPlain(es)
    requires GoodEvents(env, fs, if |es| == 0 then afterDashes else false)
    ensures GoodEvents(env, es + fs, afterDashes)
    decreases |es|
  {
    if |es| == 0 {
      assert es + fs == fs;
    } else {
      assert (es + fs)[1..] == es[1..] + fs;
      if |es| > 1 { assert es[1..][|es| - 2] == es[|es| - 1]; }
      GoodAppend(env, es[1..], fs, es[0].DashDash?);
    }
  }

  lemma {:induction false} OptEventsGood(env: Env, opts: seq<Opt>)
    requires forall o :: o in opts ==> GoodOpt(env, o)
    ensures GoodEvents(env, OptEvents(opts), false) && EndsPlain(OptEvents(opts)) && NoFinish(OptEvents(opts))
  {
    if |opts| > 0 { OptEventsGood(env, opts[1..]); }
  }

  lemma {:induction false} AvOptEventsGood(env: Env, opts: seq<AvOpt>)
    requires forall o :: o in opts ==> GoodAvOpt(env, o)
    ensures GoodEvents(env, AvOptEvents(opts), false) && EndsPlain(AvOptEvents(opts)) && NoFinish(AvOptEvents(opts))
  {
    if |opts| > 0 { AvOptEventsGood(env, opts[1..]); }
  }

  /** Options and AVOptions together: recognised, and collected into the current group. */
  lemma BodyRoundTrip(env: Env, ctx: Context, opts: seq<Opt>, avOpts: seq<AvOpt>)
    requires forall o :: o in opts ==> GoodOpt(env, o) && !o.def.Global()
    requires forall o :: o in avOpts ==> GoodAvOpt(env, o)
    requires ctx.cur == EMPTY
    ensures
      var es := OptEvents(opts) + AvOptEvents(avOpts);
      GoodEvents(env, es, false) && EndsPlain(es) && Build(ctx, es) == ctx.(cur := Collected(opts, avOpts))
  {
    OptEventsGood(env, opts);
    AvOptEventsGood(env, avOpts);
    GoodAppend(env, OptEvents(opts), AvOptEvents(avOpts), false);
    BuildAppend(ctx, OptEvents(opts), AvOptEvents(avOpts));
    BuildOpts(ctx, opts);
    BuildAvOpts(ctx.(cur := Collected(opts, [])), avOpts);
    assert [] + opts == opts && [] + avOpts == avOpts;
  }

  lemma {:induction false} BuildOpts(ctx: Context, opts: seq<Opt>)
    requires forall o :: o in opts ==> !o.def.Global()
    ensures Build(ctx, OptEvents(opts)) == ctx.(cur := ctx.cur.(opts := ctx.cur.opts + opts))
    decreases |opts|
  {
    if |opts| > 0 {
      BuildOpts(Apply(ctx, GiveOpt(opts[0])), opts[1..]);
      assert (ctx.cur.opts + [opts[0]]) + opts[1..] == ctx.cur.opts + opts;
    } else {
      assert ctx.cur.opts + opts == ctx.cur.opts;
    }
  }

  lemma {:induction false} BuildGlobals(ctx: Context, opts: seq<Opt>)
    requires forall o :: o in opts ==> o.def.Global()
    ensures Build(ctx, OptEvents(opts)) == ctx.(globals := ctx.globals + opts)
    decreases |opts|
  {
    if |opts| > 0 {
      BuildGlobals(Apply(ctx, GiveOpt(opts[0])), opts[1..]);
      assert (ctx.globals + [opts[0]]) + opts[1..] == ctx.globals + opts;
    } else {
      assert ctx.globals + opts == ctx.globals;
    }
  }

  lemma {:induction false} BuildAvOpts(ctx: Context, opts: seq<AvOpt>)
    ensures Build(ctx, AvOptEvents(opts)) == ctx.(cur := ctx.cur.(avOpts := ctx.cur.avOpts + opts))
    decreases |opts|
  {
    if |opts| > 0 {
      BuildAvOpts(Apply(ctx, GiveAvOpt(opts[0])), opts[1..]);
      assert (ctx.cur.avOpts + [opts[0]]) + opts[1..] == ctx.cur.avOpts + opts;
    } else {
      assert ctx.cur.avOpts + opts == ctx.cur.avOpts;
    }
  }

  lemma EndBuilds(env: Env, ctx: Context, k: nat, arg: string)
    requires k < |env.groups| && (env.groups[k].sep.Some? || k == 0)
    ensures Build(ctx, EndEvents(env, k, arg)) == FinishGroup(ctx, k, arg)
  {
    var end := EndEvents(env, k, arg);
    if |end| == 2 { assert end[1..] == [File(arg)]; }
    var last := end[|end| - 1];
    assert end[|end| - 1..] == [last] && [last][1..] == [];
    assert Build(ctx, [last]) == Build(Apply(ctx, last), []);
  }

  lemma GroupRoundTrip(env: Env, ctx: Context, k: nat, g: Group)
    requires |ctx.groups| == |env.groups| && k < |env.groups| && GoodGroup(env, k, g) && ctx.cur == EMPTY
    ensures
      var es := GroupEvents(env, k, g);
      && GoodEvents(env, es, false) && EndsPlain(es)
      && Build(ctx, es) == ctx.(groups := ctx.groups[k := ctx.groups[k] + [g]])
  {
    var body, end := OptEvents(g.opts) + AvOptEvents(g.avOpts), EndEvents(env, k, g.arg);
    BodyRoundTrip(env, ctx, g.opts, g.avOpts);
    assert GoodEvents(env, end, false) by {
      if |end| == 2 { assert end[1..] == [File(g.arg)]; }
    }
    GoodAppend(env, body, end, false);
    BuildAppend(ctx, body, end);
    EndBuilds(env, ctx.(cur := Collected(g.opts, g.avOpts)), k, g.arg);
    assert Group(g.opts, g.avOpts, g.arg) == g;
  }

  lemma {:induction false} ListRoundTrip(env: Env, ctx: Context, k: nat, gs: seq<Group>)
    requires |ctx.groups| == |env.groups| && k < |env.groups| && ctx.cur == EMPTY
    requires forall g :: g in gs ==> GoodGroup(env, k, g)
    ensures
      var es := ListEvents(env, k, gs);
      && GoodEvents(env, es, false) && EndsPlain(es)
      && Build(ctx, es) == ctx.(groups := ctx.groups[k := ctx.groups[k] + gs])
    decreases |gs|
  {
    if |gs| == 0 {
      assert ctx.groups[k] + gs == ctx.groups[k];
      assert ctx.groups[k := ctx.groups[k] + gs] == ctx.groups;
    } else {
      var groups1 := ctx.groups[k := ctx.groups[k] + [gs[0]]];
      GroupRoundTrip(env, ctx, k, gs[0]);
      ListRoundTrip(env, ctx.(groups := groups1), k, gs[1..]);
      Joins(env, ctx, GroupEvents(env, k, gs[0]), ListEvents(env, k, gs[1..]));
      PushThenRest(ctx.groups, k, gs);
    }
  }

  lemma PushThenRest(groups: seq<seq<Group>>, k: nat, gs: seq<Group>)
    requires k < |groups| && |gs| > 0
    ensures
      var groups1 := groups[k := groups[k] + [gs[0]]];
      groups1[k := groups1[k] + gs[1..]] == groups[k := groups[k] + gs]
  {
    assert (groups[k] + [gs[0]]) + gs[1..] == groups[k] + gs;
  }

  lemma Joins(env: Env, ctx: Context, es: seq<Event>, fs: seq<Event>)
    requires GoodEvents(env, es, false) && EndsPlain(es) && GoodEvents(env, fs, false) && EndsPlain(fs)
    ensures GoodEvents(env, es + fs, false) && EndsPlain(es + fs)
    ensures Build(ctx, es + fs) == Build(Build(ctx, es), fs)
  {
    GoodAppend(env, es, fs, false);
    BuildAppend(ctx, es, fs);
  }

  lemma {:induction false} GroupsRoundTrip(env: Env, ctx: Context, k: nat, groups: seq<seq<Group>>)
    requires |ctx.groups| == |groups| == |env.groups| && k <= |groups| && ctx.cur == EMPTY
    requires forall j, g :: k <= j < |groups| && g in groups[j] ==> GoodGroup(env, j, g)
    requires forall j :: k <= j < |groups| ==> ctx.groups[j] == []
    ensures
      var es := AllGroupEvents(env, k, groups);
      && GoodEvents(env, es, false) && EndsPlain(es)
      && Build(ctx, es) == ctx.(groups := ctx.groups[..k] + groups[k..])
    decreases |groups| - k
  {
    if k == |groups| {
      assert ctx.groups[..k] + groups[k..] == ctx.groups;
    } else {
      assert ctx.groups[k] == [] && [] + groups[k] == groups[k];
      var ctx1 := ctx.(groups := ctx.groups[k := groups[k]]);
      ListRoundTrip(env, ctx, k, groups[k]);
      GroupsRoundTrip(env, ctx1, k + 1, groups);
      Joins(env, ctx, ListEvents(env, k, groups[k]), AllGroupEvents(env, k + 1, groups));
      OneMore(ctx.groups, groups, k);
    }
  }

  lemma OneMore(a: seq<seq<Group>>, b: seq<seq<Group>>, k: nat)
    requires k < |a| == |b|
    ensures a[k := b[k]][..k + 1] + b[k + 1..] == a[..k] + b[k..]
  {
  }

  /** Writing a context out and splitting the line gives the same context back. */
  lemma RoundTrip(env: Env, ctx: Context, program: string)
    requires GoodContext(env, ctx)
    ensures
      var p := Parse(env, [program] + Print(env, ctx), 1, -2);
      p.status == Ok && Build(InitContext(env), p.events) == ctx
  {
    var globals, groups := OptEvents(ctx.globals), AllGroupEvents(env, 0, ctx.groups);
    var tail := OptEvents(ctx.cur.opts) + AvOptEvents(ctx.cur.avOpts);
    var c0 := InitContext(env);
    var c1 := c0.(globals := ctx.globals);
    var c2 := c1.(groups := ctx.groups);
    OptEventsGood(env, ctx.globals);
    BuildGlobals(c0, ctx.globals);
    assert [] + ctx.globals == ctx.globals;
    GroupsRoundTrip(env, c1, 0, ctx.groups);
    assert c1.groups[..0] + ctx.groups[0..] == ctx.groups;
    BodyRoundTrip(env, c2, ctx.cur.opts, ctx.cur.avOpts);
    Joins(env, c0, globals, groups);
    Joins(env, c0, globals + groups, tail);
    var es := ContextEvents(env, ctx);
    var argv := [program] + Print(env, ctx);
    assert argv[1..] == AllWords(env, es);
    ParseReads(env, argv, 1, -2, es);
    assert ctx.cur == Collected(ctx.cur.opts, ctx.cur.avOpts);
  }
}
