/**
 Moving the tags of a release: scripts/release-image-tag-service.js. The registries are explicit state, every
 command is atomic, and what happens around each command is given by a script.
 */
module ImageTagPromotion {
  import opened Common
  import opened ImageTagPlan

  /** What a reference resolves to; `promotable` says whether the bytes are an image manifest or index. */
  datatype Manifest = Manifest(digest: string, promotable: bool)

  type Registries = map<string, Manifest>

  datatype Command = Inspect(reference: string) | Create(target: string, source: string)

  /** A command that reached the registries, whether it met its purpose there, and whether the client heard that. */
  datatype Event = Event(command: Command, ok: bool, heard: bool)

  datatype Conn = Conn(registries: Registries, script: seq<Weather<Registries>>, trace: seq<Event>)

  /** The manifest behind a reference is the image of the plan. */
  predicate Verified(r: Registries, reference: string, digest: string) {
    reference in r && r[reference] == Manifest(digest, true)
  }

  function Perform(r: Registries, command: Command, digest: string): (Registries, bool) {
    match command
    case Inspect(reference) => (r, Verified(r, reference, digest))
    case Create(target, source) => if source in r then (r[target := r[source]], true) else (r, false)
  }

  /** One command of the client; an exhausted script is a client that was stopped. */
  function Issue(c: Conn, command: Command, digest: string): (Conn, bool) {
    if c.script == [] then (c, false)
    else if c.script[0].Down? then (c.(script := c.script[1..]), false)
    else
      var before := if c.script[0].Changed? then c.script[0].world else c.registries;
      var (after, ok) := Perform(before, command, digest);
      var heard := !c.script[0].Lost?;
      (Conn(after, c.script[1..], c.trace + [Event(command, ok, heard)]), ok && heard)
  }

  // ----- The commands of a run -----

  function Preflight(sources: seq<Source>): (commands: seq<Command>)
    ensures |commands| == |sources|
    ensures forall i | 0 <= i < |sources| :: commands[i] == Inspect(sources[i].source)
  {
    seq(|sources|, i requires 0 <= i < |sources| => Inspect(sources[i].source))
  }

  /** Each alias is created and looked at again before the next one. */
  function WritesOf(source: string, targets: seq<string>): seq<Command> {
    if targets == [] then []
    else
      var last := targets[|targets| - 1];
      WritesOf(source, targets[..|targets| - 1]) + [Create(last, source), Inspect(last)]
  }

  function Writes(sources: seq<Source>): seq<Command> {
    if sources == [] then []
    else Writes(sources[..|sources| - 1]) + WritesOf(sources[|sources| - 1].source, sources[|sources| - 1].targets)
  }

  function Looks(targets: seq<string>): (commands: seq<Command>)
    ensures |commands| == |targets|
    ensures forall i | 0 <= i < |targets| :: commands[i] == Inspect(targets[i])
  {
    seq(|targets|, i requires 0 <= i < |targets| => Inspect(targets[i]))
  }

  function Commands(plan: Plan): seq<Command> {
    Preflight(plan.sources) + Writes(plan.sources) + Looks(AllTargets(plan.sources))
  }

  /** Commands are issued in order until one fails; the number that went well is returned. */
  function Execute(c: Conn, commands: seq<Command>, digest: string): (r: (Conn, nat))
    ensures r.1 <= |commands|
    decreases commands
  {
    if commands == [] then (c, 0)
    else
      var (c', ok) := Issue(c, commands[0], digest);
      if !ok then (c', 0)
      else
        var (c'', n) := Execute(c', commands[1..], digest);
        (c'', n + 1)
  }

  datatype Stage = SourceVerification | AliasPromotion | FinalAliasVerification

  /** The stage a run is in after its first n commands. */
  function StageAt(plan: Plan, n: nat): Stage {
    if n < |plan.sources| then SourceVerification
    else if n < |plan.sources| + |Writes(plan.sources)| then AliasPromotion
    else FinalAliasVerification
  }

  // ----- The operation as the script performs it -----

  /** Where a run stands that has gone well so far. */
  ghost predicate Doing(c0: Conn, c: Conn, done: seq<Command>, digest: string) {
    Execute(c0, done, digest) == (c, |done|)
  }

  lemma {:induction false} ExecuteJoin(c: Conn, a: seq<Command>, b: seq<Command>, digest: string)
    ensures var (c', n) := Execute(c, a, digest);
      Execute(c, a + b, digest) ==
        if n < |a| then (c', n) else (Execute(c', b, digest).0, n + Execute(c', b, digest).1)
    decreases a
  {
    if a == [] {
      assert a + b == b;
    } else {
      assert (a + b)[1..] == a[1..] + b;
      var (c', ok) := Issue(c, a[0], digest);
      if ok {
        ExecuteJoin(c', a[1..], b, digest);
      }
    }
  }

  // The next command of the list is the one issued.
  lemma NextCommand(c0: Conn, c: Conn, done: seq<Command>, command: Command, all: seq<Command>, digest: string)
    requires Doing(c0, c, done, digest) && done + [command] <= all
    ensures var (c', ok) := Issue(c, command, digest);
      if ok then Doing(c0, c', done + [command], digest) else Execute(c0, all, digest) == (c', |done|)
  {
    var later := all[|done| + 1..];
    ExecuteJoin(c0, done, [command], digest);
    assert [command][1..] == [];
    ExecuteJoin(c0, done + [command], later, digest);
    assert all == done + [command] + later;
  }

  lemma {:induction false} WritesPrefix(sources: seq<Source>, i: nat)
    requires i <= |sources|
    ensures Writes(sources[..i]) <= Writes(sources)
  {
    if i < |sources| {
      WritesPrefix(sources[..|sources| - 1], i);
      assert sources[..|sources| - 1][..i] == sources[..i];
    } else {
      assert sources[..i] == sources;
    }
  }

  lemma {:induction false} WritesOfPrefix(source: string, targets: seq<string>, j: nat)
    requires j <= |targets|
    ensures WritesOf(source, targets[..j]) <= WritesOf(source, targets)
  {
    if j < |targets| {
      WritesOfPrefix(source, targets[..|targets| - 1], j);
      assert targets[..|targets| - 1][..j] == targets[..j];
    } else {
      assert targets[..j] == targets;
    }
  }

  /** The commands in front of target j of source i. */
  function UpTo(plan: Plan, i: nat, j: nat): seq<Command>
    requires i < |plan.sources| && j <= |plan.sources[i].targets|
  {
    Preflight(plan.sources) + Writes(plan.sources[..i]) + WritesOf(plan.sources[i].source, plan.sources[i].targets[..j])
  }

  lemma UpToNext(plan: Plan, i: nat, j: nat)
    requires i < |plan.sources| && j < |plan.sources[i].targets|
    ensures var s := plan.sources[i];
      && UpTo(plan, i, j + 1) == UpTo(plan, i, j) + [Create(s.targets[j], s.source)] + [Inspect(s.targets[j])]
      && UpTo(plan, i, j + 1) <= Commands(plan)
      && UpTo(plan, i, j) + [Create(s.targets[j], s.source)] <= Commands(plan)
  {
    var s := plan.sources[i];
    assert s.targets[..j + 1][..j] == s.targets[..j];
    WritesOfPrefix(s.source, s.targets, j + 1);
    WritesPrefix(plan.sources, i + 1);
    assert plan.sources[..i + 1][..i] == plan.sources[..i];
  }

  lemma UpToEnds(plan: Plan, i: nat)
    requires i < |plan.sources|
    ensures UpTo(plan, i, 0) == Preflight(plan.sources) + Writes(plan.sources[..i])
    ensures UpTo(plan, i, |plan.sources[i].targets|) == Preflight(plan.sources) + Writes(plan.sources[..i + 1])
  {
    var s := plan.sources[i];
    assert WritesOf(s.source, []) == [] && s.targets[..0] == [] && s.targets[..|s.targets|] == s.targets;
    assert plan.sources[..i + 1][..i] == plan.sources[..i];
  }

  /** The commands in front of the final look at target j of source i. */
  function Seen(plan: Plan, i: nat, j: nat): seq<Command>
    requires i < |plan.sources| && j <= |plan.sources[i].targets|
  {
    Preflight(plan.sources) + Writes(plan.sources) + Looks(AllTargets(plan.sources[..i]))
      + Looks(plan.sources[i].targets[..j])
  }

  function SeenSources(plan: Plan, i: nat): seq<Command>
    requires i <= |plan.sources|
  {
    Preflight(plan.sources) + Writes(plan.sources) + Looks(AllTargets(plan.sources[..i]))
  }

  lemma SeenNext(plan: Plan, i: nat, j: nat)
    requires i < |plan.sources| && j < |plan.sources[i].targets|
    ensures Seen(plan, i, j + 1) == Seen(plan, i, j) + [Inspect(plan.sources[i].targets[j])]
    ensures Seen(plan, i, j + 1) <= Commands(plan)
    ensures StageAt(plan, |Seen(plan, i, j)|) == FinalAliasVerification
  {
    TargetsPrefix(plan.sources, i);
    var before, targets, all := AllTargets(plan.sources[..i]), plan.sources[i].targets, AllTargets(plan.sources);
    hide AllTargets, Writes, StageAt;
    assert targets[..j + 1] == targets[..j] + [targets[j]];
    LooksJoin(targets[..j], [targets[j]]);
    LooksJoin(before, targets[..j + 1]);
    assert before + targets[..j + 1] <= before + targets <= all;
    LooksJoin(before + targets[..j + 1], all[|before| + j + 1..]);
    assert all == before + targets[..j + 1] + all[|before| + j + 1..];
    StageBehind(plan, Looks(before) + Looks(targets[..j]));
    assert Seen(plan, i, j) == Preflight(plan.sources) + Writes(plan.sources) + (Looks(before) + Looks(targets[..j]));
  }

  lemma StageBehind(plan: Plan, more: seq<Command>)
    ensures StageAt(plan, |Preflight(plan.sources) + Writes(plan.sources) + more|) == FinalAliasVerification
  {
  }

  lemma LooksJoin(a: seq<string>, b: seq<string>)
    ensures Looks(a + b) == Looks(a) + Looks(b)
  {
  }

  lemma SeenEnds(plan: Plan, i: nat)
    requires i < |plan.sources|
    ensures Seen(plan, i, 0) == SeenSources(plan, i)
    ensures Seen(plan, i, |plan.sources[i].targets|) == SeenSources(plan, i + 1)
  {
    var targets := plan.sources[i].targets;
    assert plan.sources[..i + 1][..i] == plan.sources[..i] && targets[..|targets|] == targets;
    LooksJoin(AllTargets(plan.sources[..i]), targets);
  }

  lemma SeenAll(plan: Plan)
    ensures SeenSources(plan, 0) == Preflight(plan.sources) + Writes(plan.sources)
    ensures SeenSources(plan, |plan.sources|) == Commands(plan)
  {
    assert plan.sources[..|plan.sources|] == plan.sources;
    assert Looks(AllTargets([])) == [];
  }

  lemma WritesBegin(plan: Plan)
    ensures Preflight(plan.sources)[..|plan.sources|] == Preflight(plan.sources) + Writes(plan.sources[..0])
    ensures Preflight(plan.sources) <= Commands(plan)
  {
  }

  lemma AllDone(c0: Conn, c: Conn, commands: seq<Command>, digest: string)
    requires Doing(c0, c, commands, digest)
    ensures Execute(c0, commands, digest) == (c, |commands|)
  {
  }

  lemma NothingDone(c: Conn, digest: string)
    ensures Doing(c, c, [], digest)
  {
  }

  lemma StageInside(plan: Plan, i: nat, j: nat)
    requires i < |plan.sources| && j < |plan.sources[i].targets|
    ensures StageAt(plan, |UpTo(plan, i, j)|) == StageAt(plan, |UpTo(plan, i, j)| + 1) == AliasPromotion
  {
    var s := plan.sources[i];
    WritesOfPrefix(s.source, s.targets, j + 1);
    WritesPrefix(plan.sources, i + 1);
    assert plan.sources[..i + 1][..i] == plan.sources[..i];
    assert s.targets[..j + 1][..j] == s.targets[..j];
  }

  lemma {:induction false} TargetsPrefix(sources: seq<Source>, i: nat)
    requires i < |sources|
    ensures AllTargets(sources[..i]) + sources[i].targets <= AllTargets(sources)
  {
    if i < |sources| - 1 {
      TargetsPrefix(sources[..|sources| - 1], i);
      assert sources[..|sources| - 1][..i] == sources[..i];
    } else {
      assert sources[..i] == sources[..|sources| - 1];
    }
  }

  method Run(c: Conn, command: Command, digest: string) returns (c': Conn, ok: bool)
    ensures (c', ok) == Issue(c, command, digest)
  {
    var (next, done) := Issue(c, command, digest);
    c', ok := next, done;
  }

  /**
   The nested loops of the promotion run exactly the commands of the plan, and report the stage of the first
   failure.
   */
  method PromoteReleaseImageTags(c0: Conn, plan: Plan) returns (c: Conn, stage: Stage, passed: bool)
    ensures c == Execute(c0, Commands(plan), plan.digest).0
    ensures passed <==> Execute(c0, Commands(plan), plan.digest).1 == |Commands(plan)|
    ensures !passed ==> stage == StageAt(plan, Execute(c0, Commands(plan), plan.digest).1)
  {
    hide Execute, Issue, Doing, Writes, WritesOf, AllTargets, Commands;
    var sources, digest, ok := plan.sources, plan.digest, true;
    ghost var all := Commands(plan);
    WritesBegin(plan);
    SeenAll(plan);
    NothingDone(c0, digest);
    assert Preflight(sources)[..0] == [];
    c, stage, passed := c0, SourceVerification, false;
    for i := 0 to |sources|
      invariant stage == SourceVerification && !passed
      invariant Doing(c0, c, Preflight(sources)[..i], digest)
    {
      assert Preflight(sources)[..i + 1] == Preflight(sources)[..i] + [Inspect(sources[i].source)];
      NextCommand(c0, c, Preflight(sources)[..i], Inspect(sources[i].source), all, digest);
      c, ok := Run(c, Inspect(sources[i].source), digest);
      if !ok {
        return;
      }
    }
    stage := AliasPromotion;
    for i := 0 to |sources|
      invariant stage == AliasPromotion && !passed
      invariant Doing(c0, c, Preflight(sources) + Writes(sources[..i]), digest)
    {
      UpToEnds(plan, i);
      var targets := sources[i].targets;
      for j := 0 to |targets|
        invariant stage == AliasPromotion && !passed
        invariant Doing(c0, c, UpTo(plan, i, j), digest)
      {
        var create := Create(targets[j], sources[i].source);
        UpToNext(plan, i, j);
        StageInside(plan, i, j);
        NextCommand(c0, c, UpTo(plan, i, j), create, all, digest);
        c, ok := Run(c, create, digest);
        if !ok {
          return;
        }
        NextCommand(c0, c, UpTo(plan, i, j) + [create], Inspect(targets[j]), all, digest);
        c, ok := Run(c, Inspect(targets[j]), digest);
        if !ok {
          return;
        }
      }
    }
    stage := FinalAliasVerification;
    assert sources[..|sources|] == sources;
    for i := 0 to |sources|
      invariant stage == FinalAliasVerification && !passed
      invariant Doing(c0, c, SeenSources(plan, i), digest)
    {
      var targets := sources[i].targets;
      SeenEnds(plan, i);
      for j := 0 to |targets|
        invariant stage == FinalAliasVerification && !passed
        invariant Doing(c0, c, Seen(plan, i, j), digest)
      {
        SeenNext(plan, i, j);
        NextCommand(c0, c, Seen(plan, i, j), Inspect(targets[j]), all, digest);
        c, ok := Run(c, Inspect(targets[j]), digest);
        if !ok {
          return;
        }
      }
    }
    AllDone(c0, c, all, digest);
    passed := true;
  }
}
