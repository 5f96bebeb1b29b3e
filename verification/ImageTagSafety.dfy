/** What promotion runs do to the registries, alone and one after the other, with failures possible at any command. */
module ImageTagSafety {
  import opened Common
  import opened ImageTagPlan
  import opened ImageTagPromotion

  // ----- What reached the registries, whatever happened around the commands -----

  /**
   The commands that reached the registries are a prefix of the list, and all but the last went well and were heard.
   */
  lemma {:induction false} ExecuteTrace(c: Conn, commands: seq<Command>, digest: string) returns (s: seq<Event>)
    ensures var (c', n) := Execute(c, commands, digest);
      && c'.trace == c.trace + s && n <= |s| <= n + 1 && |s| <= |commands|
      && (forall k | 0 <= k < |s| :: s[k].command == commands[k])
      && (forall k | 0 <= k < n :: s[k] == Event(commands[k], true, true))
    decreases commands
  {
    if commands == [] {
      s := [];
    } else {
      var (c', ok) := Issue(c, commands[0], digest);
      s := c'.trace[|c.trace|..];
      if ok {
        var more := ExecuteTrace(c', commands[1..], digest);
        s := s + more;
      }
    }
  }

  /** No alias is written before every source was inspected and found to hold the planned digest. */
  lemma PreflightBeforeWrites(c: Conn, plan: Plan, i: nat)
    requires c.trace == []
    requires var trace := Execute(c, Commands(plan), plan.digest).0.trace; i < |trace| && trace[i].command.Create?
    ensures var trace := Execute(c, Commands(plan), plan.digest).0.trace;
      && |plan.sources| <= i
      && forall k | 0 <= k < |plan.sources| :: trace[k] == Event(Inspect(plan.sources[k].source), true, true)
  {
    hide Execute, Commands;
    var s := ExecuteTrace(c, Commands(plan), plan.digest);
    assert s == Execute(c, Commands(plan), plan.digest).0.trace;
    forall k | 0 <= k < |plan.sources|
      ensures k < |Commands(plan)| && Commands(plan)[k] == Inspect(plan.sources[k].source)
    {
      PreflightAt(plan, k);
    }
  }

  lemma PreflightAt(plan: Plan, k: nat)
    requires k < |plan.sources|
    ensures k < |Commands(plan)| && Commands(plan)[k] == Inspect(plan.sources[k].source)
  {
    hide Writes, AllTargets;
  }

  /** These are looks at the targets, one after the other, and each found the planned digest. */
  predicate AllFound(s: seq<Event>, targets: seq<string>) {
    |s| == |targets| && forall k | 0 <= k < |s| :: s[k] == Event(Inspect(targets[k]), true, true)
  }

  /** A run that passed ended with a look at every target that found the planned digest. */
  lemma PassedLookedAtAll(c: Conn, plan: Plan)
    requires c.trace == [] && Execute(c, Commands(plan), plan.digest).1 == |Commands(plan)|
    ensures var trace, targets := Execute(c, Commands(plan), plan.digest).0.trace, AllTargets(plan.sources);
      |trace| >= |targets| && AllFound(trace[|trace| - |targets|..], targets)
  {
    var s := ExecuteTrace(c, Commands(plan), plan.digest);
    var targets := AllTargets(plan.sources);
    var before := Preflight(plan.sources) + Writes(plan.sources);
    assert Commands(plan) == before + Looks(targets);
    hide *;
    assert s == Execute(c, Commands(plan), plan.digest).0.trace;
    LastFound(s, before, targets);
  }

  lemma LastFound(s: seq<Event>, before: seq<Command>, targets: seq<string>)
    requires |s| == |before| + |targets|
    requires forall k | 0 <= k < |s| :: s[k] == Event((before + Looks(targets))[k], true, true)
    ensures AllFound(s[|before|..], targets)
  {
  }

  /** Behind each alias that is written comes the look at that alias. */
  predicate EachRechecked(commands: seq<Command>) {
    forall k | 0 <= k < |commands| && commands[k].Create? ::
      k + 1 < |commands| && commands[k + 1] == Inspect(commands[k].target)
  }

  lemma RecheckedJoin(a: seq<Command>, b: seq<Command>)
    requires EachRechecked(a) && EachRechecked(b)
    ensures EachRechecked(a + b)
  {
    forall k | 0 <= k < |a + b| && (a + b)[k].Create?
      ensures k + 1 < |a + b| && (a + b)[k + 1] == Inspect((a + b)[k].target)
    {
      if k < |a| {
        assert (a + b)[k + 1] == a[k + 1];
      } else {
        assert (a + b)[k + 1] == b[k + 1 - |a|];
      }
    }
  }

  lemma {:induction false} WritesRechecked(source: string, targets: seq<string>)
    ensures EachRechecked(WritesOf(source, targets))
  {
    if targets != [] {
      var n := |targets| - 1;
      WritesRechecked(source, targets[..n]);
      RecheckedJoin(WritesOf(source, targets[..n]), [Create(targets[n], source), Inspect(targets[n])]);
    }
  }

  lemma {:induction false} AllWritesRechecked(sources: seq<Source>)
    ensures EachRechecked(Writes(sources))
  {
    if sources != [] {
      var n := |sources| - 1;
      AllWritesRechecked(sources[..n]);
      WritesRechecked(sources[n].source, sources[n].targets);
      RecheckedJoin(Writes(sources[..n]), WritesOf(sources[n].source, sources[n].targets));
    }
  }

  /**
   Whatever others do: nothing follows the writing of an alias but the look at it, and nothing follows that unless
   it found the planned digest.
   */
  lemma AliasesRechecked(c: Conn, plan: Plan)
    requires c.trace == []
    ensures var trace := Execute(c, Commands(plan), plan.digest).0.trace;
      forall i | 0 <= i < |trace| && trace[i].command.Create? ::
        && (i + 1 < |trace| ==> trace[i + 1].command == Inspect(trace[i].command.target))
        && (i + 2 < |trace| ==> trace[i + 1].ok && trace[i + 1].heard)
  {
    AllWritesRechecked(plan.sources);
    RecheckedJoin(Preflight(plan.sources), Writes(plan.sources));
    RecheckedJoin(Preflight(plan.sources) + Writes(plan.sources), Looks(AllTargets(plan.sources)));
    hide Execute, Commands, Writes, AllTargets;
    assert EachRechecked(Commands(plan)) by {
      CommandsAre(plan);
    }
    var s := ExecuteTrace(c, Commands(plan), plan.digest);
    assert s == Execute(c, Commands(plan), plan.digest).0.trace;
  }

  lemma CommandsAre(plan: Plan)
    ensures Commands(plan) == Preflight(plan.sources) + Writes(plan.sources) + Looks(AllTargets(plan.sources))
  {
  }

  // ----- The effect of commands on registries that nobody else changes -----

  predicate Quiet(script: seq<Weather<Registries>>) {
    forall w | w in script :: !w.Changed?
  }

  function Apply(r: Registries, commands: seq<Command>, digest: string): Registries {
    if commands == [] then r
    else Perform(Apply(r, commands[..|commands| - 1], digest), commands[|commands| - 1], digest).0
  }

  /** Would command k go well when everything in front of it has been done? */
  predicate GoesWell(r: Registries, commands: seq<Command>, k: nat, digest: string)
    requires k < |commands|
  {
    Perform(Apply(r, commands[..k], digest), commands[k], digest).1
  }

  lemma {:induction false} ApplyFirst(r: Registries, commands: seq<Command>, digest: string)
    requires commands != []
    ensures Apply(r, commands, digest) == Apply(Perform(r, commands[0], digest).0, commands[1..], digest)
  {
    if |commands| > 1 {
      ApplyFirst(r, commands[..|commands| - 1], digest);
      assert commands[1..][..|commands| - 2] == commands[..|commands| - 1][1..];
    } else {
      assert commands[..0] == [] && commands[1..] == [];
    }
  }

  // What was done are the m first commands: those that went well, and possibly one whose response was lost.
  lemma {:induction false} ExecuteEffect(c: Conn, commands: seq<Command>, digest: string) returns (m: nat)
    requires Quiet(c.script)
    ensures var (c', n) := Execute(c, commands, digest);
      && n <= m <= n + 1 && m <= |commands|
      && c'.registries == Apply(c.registries, commands[..m], digest) && Quiet(c'.script)
      && forall k | 0 <= k < n :: GoesWell(c.registries, commands, k, digest)
    decreases commands
  {
    if commands == [] {
      m := 0;
    } else {
      var (c', ok) := Issue(c, commands[0], digest);
      if c.script == [] || c.script[0].Down? {
        m := 0;
      } else {
        assert c.script[0] in c.script;
        m := 1;
        assert commands[..1][..0] == [];
      }
      if ok {
        var m' := ExecuteEffect(c', commands[1..], digest);
        m := m' + 1;
        ApplyFirst(c.registries, commands[..m], digest);
        assert commands[..m][1..] == commands[1..][..m'];
        var n := Execute(c', commands[1..], digest).1;
        forall k | 0 <= k < n + 1
          ensures GoesWell(c.registries, commands, k, digest)
        {
          if k > 0 {
            assert GoesWell(c'.registries, commands[1..], k - 1, digest);
            ApplyFirst(c.registries, commands[..k], digest);
            assert commands[..k][1..] == commands[1..][..k - 1];
          }
        }
      }
    }
  }

  function Get(r: Registries, reference: string): Option<Manifest> {
    if reference in r then Some(r[reference]) else None
  }

  predicate Creates(commands: seq<Command>, reference: string) {
    exists k | 0 <= k < |commands| :: commands[k].Create? && commands[k].target == reference
  }

  /** Everything copied is the planned image, and is not itself overwritten. */
  predicate Writable(r: Registries, commands: seq<Command>, digest: string) {
    forall k | 0 <= k < |commands| && commands[k].Create? ::
      Verified(r, commands[k].source, digest) && !Creates(commands, commands[k].source)
  }

  /** Afterwards the written references hold the planned image, and every other reference is as it was. */
  lemma {:induction false} ApplyExact(r: Registries, commands: seq<Command>, digest: string, reference: string)
    requires Writable(r, commands, digest)
    ensures Get(Apply(r, commands, digest), reference) ==
      if Creates(commands, reference) then Some(Manifest(digest, true)) else Get(r, reference)
  {
    if commands != [] {
      var n := |commands| - 1;
      var init, last := commands[..n], commands[n];
      CreatesLast(commands, reference);
      WritableInit(r, commands, digest);
      ApplyExact(r, init, digest, reference);
      if last.Create? {
        CreatesLast(commands, last.source);
        ApplyExact(r, init, digest, last.source);
      }
    }
  }

  lemma CreatesLast(commands: seq<Command>, reference: string)
    requires commands != []
    ensures var last := commands[|commands| - 1];
      Creates(commands, reference) <==>
        || Creates(commands[..|commands| - 1], reference)
        || last == Create(reference, if last.Create? then last.source else "")
  {
  }

  lemma CreatesMore(a: seq<Command>, b: seq<Command>, reference: string)
    ensures Creates(a + b, reference) <==> Creates(a, reference) || Creates(b, reference)
  {
    if Creates(a, reference) {
      var k :| 0 <= k < |a| && a[k].Create? && a[k].target == reference;
      assert (a + b)[k] == a[k];
    }
    if Creates(b, reference) {
      var k :| 0 <= k < |b| && b[k].Create? && b[k].target == reference;
      assert (a + b)[|a| + k] == b[k];
    }
  }

  lemma WritableInit(r: Registries, commands: seq<Command>, digest: string)
    requires commands != [] && Writable(r, commands, digest)
    ensures Writable(r, commands[..|commands| - 1], digest)
  {
  }

  lemma {:induction false} WritablePrefix(r: Registries, commands: seq<Command>, digest: string, m: nat)
    requires m <= |commands| && Writable(r, commands, digest)
    ensures Writable(r, commands[..m], digest)
  {
  }

  // ----- The commands of a plan -----

  predicate SourcesVerified(r: Registries, plan: Plan) {
    forall s | s in plan.sources :: Verified(r, s.source, plan.digest)
  }

  lemma {:induction false} WritesOfExact(source: string, targets: seq<string>)
    ensures forall ref :: Creates(WritesOf(source, targets), ref) <==> ref in targets
    ensures forall k | 0 <= k < |WritesOf(source, targets)| ::
      match WritesOf(source, targets)[k]
      case Create(_, s) => s == source
      case Inspect(ref) => Creates(WritesOf(source, targets)[..k], ref)
  {
    if targets != [] {
      var n := |targets| - 1;
      var init, t := targets[..n], targets[n];
      WritesOfExact(source, init);
      var head, tail := WritesOf(source, init), [Create(t, source), Inspect(t)];
      assert targets == init + [t];
      forall ref
        ensures Creates(head + tail, ref) <==> ref in targets
      {
        CreatesMore(head, tail, ref);
        assert tail[0] == Create(t, source);
      }
      forall k | 0 <= k < |head + tail|
        ensures match (head + tail)[k]
          case Create(_, s) => s == source
          case Inspect(ref) => Creates((head + tail)[..k], ref)
      {
        if k < |head| {
          assert (head + tail)[..k] == head[..k];
        } else if k == |head| + 1 {
          assert (head + tail)[..k] == head + [Create(t, source)];
          assert (head + tail)[..k][|head|] == Create(t, source);
        }
      }
    }
  }

  /**
   Each write copies a source to one of the targets, all targets are written, and a target is looked at only once
   written.
   */
  lemma {:induction false} WritesExact(sources: seq<Source>)
    ensures forall ref :: Creates(Writes(sources), ref) <==> ref in AllTargets(sources)
    ensures forall k | 0 <= k < |Writes(sources)| ::
      match Writes(sources)[k]
      case Create(_, source) => exists s :: s in sources && s.source == source
      case Inspect(ref) => Creates(Writes(sources)[..k], ref)
  {
    if sources != [] {
      var n := |sources| - 1;
      var init, s := sources[..n], sources[n];
      WritesExact(init);
      WritesOfExact(s.source, s.targets);
      var head, tail := Writes(init), WritesOf(s.source, s.targets);
      forall ref
        ensures Creates(head + tail, ref) <==> ref in AllTargets(sources)
      {
        CreatesMore(head, tail, ref);
      }
      forall k | 0 <= k < |head + tail|
        ensures match (head + tail)[k]
          case Create(_, source) => exists s :: s in sources && s.source == source
          case Inspect(ref) => Creates((head + tail)[..k], ref)
      {
        if k < |head| {
          assert (head + tail)[..k] == head[..k];
        } else {
          assert (head + tail)[..k] == head + tail[..k - |head|];
          if tail[k - |head|].Inspect? {
            CreatesMore(head, tail[..k - |head|], tail[k - |head|].reference);
          }
        }
      }
    }
  }

  lemma CommandsExact(plan: Plan)
    ensures forall ref :: Creates(Commands(plan), ref) <==> ref in AllTargets(plan.sources)
    ensures forall k | 0 <= k < |Commands(plan)| ::
      match Commands(plan)[k]
      case Create(_, source) => exists s :: s in plan.sources && s.source == source
      case Inspect(ref) => (exists s :: s in plan.sources && s.source == ref) || Creates(Commands(plan)[..k], ref)
  {
    var a, b, d := Preflight(plan.sources), Writes(plan.sources), Looks(AllTargets(plan.sources));
    WritesExact(plan.sources);
    forall ref
      ensures Creates(a + b + d, ref) <==> ref in AllTargets(plan.sources)
    {
      CreatesMore(a, b, ref);
      CreatesMore(a + b, d, ref);
    }
    forall k | 0 <= k < |a + b + d|
      ensures match (a + b + d)[k]
        case Create(_, source) => exists s :: s in plan.sources && s.source == source
        case Inspect(ref) => (exists s :: s in plan.sources && s.source == ref) || Creates((a + b + d)[..k], ref)
    {
      if k < |a| {
        assert (a + b + d)[k] == Inspect(plan.sources[k].source);
      } else if k < |a| + |b| {
        assert (a + b + d)[..k] == a + b[..k - |a|];
        if b[k - |a|].Inspect? {
          CreatesMore(a, b[..k - |a|], b[k - |a|].reference);
        }
      } else {
        var t := AllTargets(plan.sources)[k - |a| - |b|];
        assert (a + b + d)[..k] == a + b + d[..k - |a| - |b|];
        CreatesMore(a, b, t);
        CreatesMore(a + b, d[..k - |a| - |b|], t);
      }
    }
  }

  lemma PlanWritable(r: Registries, plan: Plan)
    requires Sound(plan) && SourcesVerified(r, plan)
    ensures Writable(r, Commands(plan), plan.digest)
  {
    CommandsExact(plan);
    hide Commands, AllTargets;
    forall k | 0 <= k < |Commands(plan)| && Commands(plan)[k].Create?
      ensures Verified(r, Commands(plan)[k].source, plan.digest) && !Creates(Commands(plan), Commands(plan)[k].source)
    {
      assert exists s :: s in plan.sources && s.source == Commands(plan)[k].source;
    }
  }

  // ----- One run -----

  lemma {:induction false} InspectionsChangeNothing(r: Registries, sources: seq<Source>, m: nat, digest: string)
    requires m <= |sources|
    ensures Apply(r, Preflight(sources)[..m], digest) == r
  {
    if m > 0 {
      InspectionsChangeNothing(r, sources, m - 1, digest);
      assert Preflight(sources)[..m][..m - 1] == Preflight(sources)[..m - 1];
    }
  }

  // Either the preflight stops the run and nothing is written, or some of the commands were done on verified sources.
  lemma RunEffect(c: Conn, plan: Plan) returns (m: nat)
    requires Quiet(c.script)
    ensures var (c', n) := Execute(c, Commands(plan), plan.digest);
      && Quiet(c'.script) && n <= m <= n + 1 && m <= |Commands(plan)|
      && c'.registries == Apply(c.registries, Commands(plan)[..m], plan.digest)
      && (n < |plan.sources| ==> c'.registries == c.registries)
      && (n >= |plan.sources| ==> SourcesVerified(c.registries, plan))
  {
    hide Execute, Writes, AllTargets;
    var all := Commands(plan);
    m := ExecuteEffect(c, all, plan.digest);
    var n := Execute(c, all, plan.digest).1;
    if n < |plan.sources| {
      assert all[..m] == Preflight(plan.sources)[..m];
      InspectionsChangeNothing(c.registries, plan.sources, m, plan.digest);
    } else {
      forall k | 0 <= k < |plan.sources|
        ensures Verified(c.registries, plan.sources[k].source, plan.digest)
      {
        assert GoesWell(c.registries, all, k, plan.digest);
        assert all[..k] == Preflight(plan.sources)[..k];
        InspectionsChangeNothing(c.registries, plan.sources, k, plan.digest);
      }
    }
  }

  /** Only planned targets differ from the registries as they were, and those that differ hold the planned image. */
  predicate Between(r0: Registries, r: Registries, plan: Plan, reference: string) {
    || Get(r, reference) == Get(r0, reference)
    || (reference in AllTargets(plan.sources) && SourcesVerified(r0, plan)
         && Get(r, reference) == Some(Manifest(plan.digest, true)))
  }

  ghost predicate AllBetween(r0: Registries, r: Registries, plan: Plan) {
    forall reference :: Between(r0, r, plan, reference)
  }

  lemma SourcesStay(r0: Registries, r: Registries, plan: Plan)
    requires Sound(plan) && AllBetween(r0, r, plan)
    ensures SourcesVerified(r, plan) <==> SourcesVerified(r0, plan)
  {
    hide AllTargets;
    forall s | s in plan.sources
      ensures Get(r, s.source) == Get(r0, s.source)
    {
      assert Between(r0, r, plan, s.source);
    }
    assert forall s | s in plan.sources ::
      Verified(r, s.source, plan.digest) <==> Get(r, s.source) == Some(Manifest(plan.digest, true));
    assert forall s | s in plan.sources ::
      Verified(r0, s.source, plan.digest) <==> Get(r0, s.source) == Some(Manifest(plan.digest, true));
  }

  lemma RunKeepsBetween(c: Conn, plan: Plan, r0: Registries)
    requires Sound(plan) && Quiet(c.script) && AllBetween(r0, c.registries, plan)
    ensures AllBetween(r0, Execute(c, Commands(plan), plan.digest).0.registries, plan)
  {
    hide Execute, Commands, AllTargets, Sound;
    var m := RunEffect(c, plan);
    var (c', n) := Execute(c, Commands(plan), plan.digest);
    if n >= |plan.sources| {
      SourcesStay(r0, c.registries, plan);
      PlanWritable(c.registries, plan);
      WritablePrefix(c.registries, Commands(plan), plan.digest, m);
      CommandsExact(plan);
      forall reference
        ensures Between(r0, c'.registries, plan, reference)
      {
        assert Between(r0, c.registries, plan, reference);
        ApplyExact(c.registries, Commands(plan)[..m], plan.digest, reference);
        CreatesMore(Commands(plan)[..m], Commands(plan)[m..], reference);
        assert Commands(plan) == Commands(plan)[..m] + Commands(plan)[m..];
      }
    }
  }

  // ----- Any runs, one after the other -----

  function Campaign(c: Conn, plan: Plan, scripts: seq<seq<Weather<Registries>>>): Conn {
    if scripts == [] then c
    else
      var before := Campaign(c, plan, scripts[..|scripts| - 1]);
      Execute(before.(script := scripts[|scripts| - 1]), Commands(plan), plan.digest).0
  }

  /**
   Wherever each of any number of runs was cut off, only planned targets changed, and each changed one holds the
   planned image.
   */
  lemma {:induction false} OnlyTargetsChange(c: Conn, plan: Plan, scripts: seq<seq<Weather<Registries>>>)
    requires Sound(plan) && forall script | script in scripts :: Quiet(script)
    ensures AllBetween(c.registries, Campaign(c, plan, scripts).registries, plan)
  {
    hide Execute, Commands, AllTargets, Sound;
    if scripts != [] {
      var n := |scripts| - 1;
      assert scripts[n] in scripts;
      OnlyTargetsChange(c, plan, scripts[..n]);
      RunKeepsBetween(Campaign(c, plan, scripts[..n]).(script := scripts[n]), plan, c.registries);
    }
  }

  /** The registries with every planned target at the planned image. */
  function Promoted(r: Registries, plan: Plan): Registries {
    r + (map t | t in AllTargets(plan.sources) :: Manifest(plan.digest, true))
  }

  lemma SameContents(r: Registries, s: Registries)
    requires forall reference :: Get(r, reference) == Get(s, reference)
    ensures r == s
  {
    assert forall ref :: ref in r <==> Get(r, ref).Some?;
    assert forall ref :: ref in s <==> Get(s, ref).Some?;
    assert forall ref | ref in r :: r[ref] == Get(r, ref).value == Get(s, ref).value == s[ref];
  }

  /**
   After any partial runs, a run that passes leaves the registries that an uninterrupted first run would have left.
   */
  lemma RerunConverges(c: Conn, plan: Plan, scripts: seq<seq<Weather<Registries>>>, last: seq<Weather<Registries>>)
    requires Sound(plan) && Quiet(last) && forall script | script in scripts :: Quiet(script)
    requires Execute(Campaign(c, plan, scripts).(script := last), Commands(plan), plan.digest).1 == |Commands(plan)|
    ensures Execute(Campaign(c, plan, scripts).(script := last), Commands(plan), plan.digest).0.registries
      == Promoted(c.registries, plan)
  {
    hide Execute, AllTargets, Sound, Writes;
    var all := Commands(plan);
    var before := Campaign(c, plan, scripts).(script := last);
    OnlyTargetsChange(c, plan, scripts);
    var m := RunEffect(before, plan);
    assert all[..m] == all;
    PlanWritable(before.registries, plan);
    CommandsExact(plan);
    var after := Apply(before.registries, all, plan.digest);
    forall reference
      ensures Get(after, reference) == Get(Promoted(c.registries, plan), reference)
    {
      assert Between(c.registries, before.registries, plan, reference);
      ApplyExact(before.registries, all, plan.digest, reference);
    }
    SameContents(after, Promoted(c.registries, plan));
  }

  // ----- Undisturbed runs -----

  predicate Steady(script: seq<Weather<Registries>>, n: nat) {
    |script| >= n && forall w | w in script :: w.Steady?
  }

  lemma {:induction false} SteadyExecutes(c: Conn, commands: seq<Command>, digest: string)
    requires Steady(c.script, |commands|)
    requires forall k | 0 <= k < |commands| :: GoesWell(c.registries, commands, k, digest)
    ensures Execute(c, commands, digest).1 == |commands|
    decreases commands
  {
    if commands != [] {
      assert c.script[0] in c.script;
      assert GoesWell(c.registries, commands, 0, digest);
      var c' := Issue(c, commands[0], digest).0;
      forall k | 0 <= k < |commands| - 1
        ensures GoesWell(c'.registries, commands[1..], k, digest)
      {
        assert GoesWell(c.registries, commands, k + 1, digest);
        ApplyFirst(c.registries, commands[..k + 1], digest);
        assert commands[..k + 1][1..] == commands[1..][..k];
      }
      SteadyExecutes(c', commands[1..], digest);
    }
  }

  /**
   After any partial runs, an undisturbed run passes if and only if the sources held the planned image to begin
   with.
   */
  lemma UndisturbedPassesExact(c: Conn, plan: Plan, scripts: seq<seq<Weather<Registries>>>,
      last: seq<Weather<Registries>>)
    requires Sound(plan) && Steady(last, |Commands(plan)|) && forall script | script in scripts :: Quiet(script)
    ensures Execute(Campaign(c, plan, scripts).(script := last), Commands(plan), plan.digest).1 == |Commands(plan)|
      <==> SourcesVerified(c.registries, plan)
  {
    hide Execute, AllTargets, Sound, Writes, Campaign;
    var before := Campaign(c, plan, scripts).(script := last);
    var r := before.registries;
    OnlyTargetsChange(c, plan, scripts);
    SourcesStay(c.registries, r, plan);
    var m := RunEffect(before, plan);
    if SourcesVerified(r, plan) {
      forall k | 0 <= k < |Commands(plan)|
        ensures GoesWell(r, Commands(plan), k, plan.digest)
      {
        PlannedGoesWell(r, plan, k);
      }
      SteadyExecutes(before, Commands(plan), plan.digest);
    }
  }

  lemma PlannedGoesWell(r: Registries, plan: Plan, k: nat)
    requires Sound(plan) && SourcesVerified(r, plan) && k < |Commands(plan)|
    ensures GoesWell(r, Commands(plan), k, plan.digest)
  {
    hide AllTargets, Commands, Apply;
    var all := Commands(plan);
    PlanWritable(r, plan);
    WritablePrefix(r, all, plan.digest, k);
    CommandsExact(plan);
    var ref := match all[k] case Inspect(ref) => ref case Create(_, source) => source;
    ApplyExact(r, all[..k], plan.digest, ref);
    CreatesMore(all[..k], all[k..], ref);
    assert all == all[..k] + all[k..];
    assert Get(Apply(r, all[..k], plan.digest), ref) == Some(Manifest(plan.digest, true)) by {
      if !Creates(all[..k], ref) {
        var s :| s in plan.sources && s.source == ref;
        assert Verified(r, s.source, plan.digest);
      }
    }
  }
}
