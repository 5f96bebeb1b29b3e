/** Keeping the newest tags of a repository: scripts/docker-hub-tag-maintenance.js. */
module TagRetention {
  import opened Common
  import opened StableSort

  /** Tag names, numbered in the order of `localeCompare`. */
  type Name = int

  datatype Tag = Tag(name: Name, lastUpdated: Option<int>)

  /** A record of the listing; one without a name is not accepted. */
  datatype Record = Named(name: Name, lastUpdated: Option<int>) | Malformed

  /** A missing or unreadable time counts as zero. */
  function Timestamp(t: Tag): int {
    if t.lastUpdated.Some? then t.lastUpdated.value else 0
  }

  /** compareByLastUpdatedDescending: newest first, and by name among tags of the same time. */
  function NewestFirst(t: Tag): Key {
    Key(-Timestamp(t), t.name)
  }

  datatype Selection = Selection(
    deleteCandidates: seq<Tag>, keptTags: seq<Tag>, protectedTags: seq<Tag>, totalTags: nat)

  function IsProtected(protectedNames: seq<Name>): Tag -> bool {
    (t: Tag) => t.name in protectedNames
  }

  function IsEligible(protectedNames: seq<Name>): Tag -> bool {
    (t: Tag) => t.name !in protectedNames
  }

  function Ranked(tags: seq<Tag>, protectedNames: seq<Name>): seq<Tag> {
    Sort(Filter(tags, IsEligible(protectedNames)), NewestFirst)
  }

  function From(s: seq<Tag>, n: nat): seq<Tag> {
    if n <= |s| then s[n..] else []
  }

  function UpTo(s: seq<Tag>, n: nat): seq<Tag> {
    if n <= |s| then s[..n] else s
  }

  function SelectionOf(tags: seq<Tag>, keepCount: nat, protectedNames: seq<Name>): Selection {
    var ranked, matches := Ranked(tags, protectedNames), Filter(tags, IsProtected(protectedNames));
    Selection(From(ranked, keepCount), matches + UpTo(ranked, keepCount), matches, |tags|)
  }

  function TagOf(r: Record): Tag
    requires r.Named?
  {
    Tag(r.name, r.lastUpdated)
  }

  predicate AllNamed(records: seq<Record>) {
    forall r | r in records :: r.Named?
  }

  function TagsOf(records: seq<Record>): (tags: seq<Tag>)
    requires AllNamed(records)
    ensures |tags| == |records|
  {
    seq(|records|, i requires 0 <= i < |records| => assert records[i] in records; TagOf(records[i]))
  }

  lemma FilterNothing(tags: seq<Tag>, keep: Tag -> bool)
    ensures Filter(tags[..0], keep) == []
  {
  }

  lemma FilterNext(tags: seq<Tag>, i: nat, keep: Tag -> bool)
    requires i < |tags|
    ensures Filter(tags[..i + 1], keep) == Filter(tags[..i], keep) + if keep(tags[i]) then [tags[i]] else []
  {
    assert tags[..i + 1] == tags[..i] + [tags[i]];
    FilterAppend(tags[..i], [tags[i]], keep);
    assert [tags[i]][1..] == [];
  }

  method SelectDeletionCandidates(records: seq<Record>, keepCount: int, protectedNames: seq<Name>)
    returns (r: Result<Selection>)
    ensures r.Ok? <==> keepCount >= 0 && AllNamed(records)
    ensures r.Ok? ==> r.value == SelectionOf(TagsOf(records), keepCount, protectedNames)
  {
    hide Filter, Sort;
    if keepCount < 0 {
      return Rejected;
    }
    if !AllNamed(records) {
      return Rejected;
    }
    var tags := TagsOf(records);
    var protectedMatches: seq<Tag>, eligibleTags: seq<Tag> := [], [];
    FilterNothing(tags, IsProtected(protectedNames));
    FilterNothing(tags, IsEligible(protectedNames));
    for i := 0 to |tags|
      invariant protectedMatches == Filter(tags[..i], IsProtected(protectedNames))
      invariant eligibleTags == Filter(tags[..i], IsEligible(protectedNames))
    {
      FilterNext(tags, i, IsProtected(protectedNames));
      FilterNext(tags, i, IsEligible(protectedNames));
      if tags[i].name in protectedNames {
        protectedMatches := protectedMatches + [tags[i]];
      } else {
        eligibleTags := eligibleTags + [tags[i]];
      }
    }
    assert tags[..|tags|] == tags;
    eligibleTags := Sort(eligibleTags, NewestFirst);
    var keptTags := protectedMatches + UpTo(eligibleTags, keepCount);
    return Ok(Selection(From(eligibleTags, keepCount), keptTags, protectedMatches, |tags|));
  }

  // ----- What a selection guarantees -----

  lemma FromUpTo(s: seq<Tag>, n: nat)
    ensures UpTo(s, n) + From(s, n) == s
    ensures |From(s, n)| == if |s| > n then |s| - n else 0
    ensures |UpTo(s, n)| <= n
  {
  }

  lemma EligibleOrProtected(tags: seq<Tag>, protectedNames: seq<Name>)
    ensures multiset(Filter(tags, IsProtected(protectedNames))) + multiset(Filter(tags, IsEligible(protectedNames)))
      == multiset(tags)
  {
    FilterCounts(tags, IsProtected(protectedNames));
    FilterCounts(tags, IsEligible(protectedNames));
  }

  // The ranking is the eligible tags, newest first, split at the count.
  lemma RankingSplit(tags: seq<Tag>, keepCount: nat, protectedNames: seq<Name>)
    ensures var ranked := Ranked(tags, protectedNames);
      && multiset(ranked) == multiset(Filter(tags, IsEligible(protectedNames)))
      && |ranked| == |Filter(tags, IsEligible(protectedNames))|
      && multiset(ranked) == multiset(UpTo(ranked, keepCount)) + multiset(From(ranked, keepCount))
      && |From(ranked, keepCount)| == (if |ranked| > keepCount then |ranked| - keepCount else 0)
      && |UpTo(ranked, keepCount)| <= keepCount
      && (forall t | t in From(ranked, keepCount) || t in UpTo(ranked, keepCount) :: t.name !in protectedNames)
  {
    hide Sort, Filter, From, UpTo;
    var eligible, ranked := Filter(tags, IsEligible(protectedNames)), Ranked(tags, protectedNames);
    var upTo, from := UpTo(ranked, keepCount), From(ranked, keepCount);
    SortSorts(eligible, NewestFirst);
    FromUpTo(ranked, keepCount);
    assert multiset(ranked) == multiset(upTo) + multiset(from);
    forall t | t in from || t in upTo
      ensures t.name !in protectedNames
    {
      assert t in upTo + from && t in ranked;
      assert t in eligible;
    }
  }

  lemma RankingOrder(tags: seq<Tag>, keepCount: nat, protectedNames: seq<Name>, k: Tag, d: Tag)
    requires k in UpTo(Ranked(tags, protectedNames), keepCount) && d in From(Ranked(tags, protectedNames), keepCount)
    ensures AtMost(NewestFirst(k), NewestFirst(d))
  {
    var ranked := Ranked(tags, protectedNames);
    var upTo, from := UpTo(ranked, keepCount), From(ranked, keepCount);
    SortSorts(Filter(tags, IsEligible(protectedNames)), NewestFirst);
    var i :| 0 <= i < |upTo| && upTo[i] == k;
    var j :| 0 <= j < |from| && from[j] == d;
    assert ranked[i] == k && ranked[keepCount + j] == d;
  }

  /**
   Kept and deleted tags are together exactly the listing; nothing protected is deleted; exactly the eligible tags
   beyond the count are deleted; and no deleted tag is newer than an eligible tag that is kept.
   */
  lemma SelectionExact(tags: seq<Tag>, keepCount: nat, protectedNames: seq<Name>)
    ensures var s := SelectionOf(tags, keepCount, protectedNames);
      var eligible := |Filter(tags, IsEligible(protectedNames))|;
      && multiset(s.keptTags) + multiset(s.deleteCandidates) == multiset(tags)
      && (forall t | t in s.deleteCandidates :: t.name !in protectedNames)
      && |s.deleteCandidates| == (if eligible > keepCount then eligible - keepCount else 0)
      && (forall d, k | d in s.deleteCandidates && k in s.keptTags && k.name !in protectedNames ::
           AtMost(NewestFirst(k), NewestFirst(d)))
  {
    hide Ranked, UpTo, From, AtMost, NewestFirst, Filter;
    var ranked, matches := Ranked(tags, protectedNames), Filter(tags, IsProtected(protectedNames));
    var upTo, from := UpTo(ranked, keepCount), From(ranked, keepCount);
    RankingSplit(tags, keepCount, protectedNames);
    EligibleOrProtected(tags, protectedNames);
    forall d: Tag, k: Tag | d in from && k in matches + upTo && k.name !in protectedNames
      ensures AtMost(NewestFirst(k), NewestFirst(d))
    {
      RankingOrder(tags, keepCount, protectedNames, k, d);
    }
  }

  /** a was updated later than b, or at the same time and its name is not behind; no time counts as zero. */
  predicate RanksFirst(a: Tag, b: Tag) {
    var x := match a.lastUpdated case Some(time) => time case None => 0;
    var y := match b.lastUpdated case Some(time) => time case None => 0;
    y < x || (x == y && a.name <= b.name)
  }

  lemma RanksExact(a: Tag, b: Tag)
    ensures RanksFirst(a, b) <==> AtMost(NewestFirst(a), NewestFirst(b))
  {
  }

  /** Tags are listed newest first. */
  ghost predicate ListedNewestFirst(tags: seq<Tag>) {
    forall i, j | 0 <= i < j < |tags| :: RanksFirst(tags[i], tags[j])
  }

  /**
   The kept tags are the protected ones in the order of the listing and then the newest of the others; they and the
   deleted ones are listed newest first, and every unprotected kept tag ranks in front of every deleted one.
   */
  lemma NewestKept(tags: seq<Tag>, keepCount: nat, protectedNames: seq<Name>) returns (newest: seq<Tag>)
    ensures var s := SelectionOf(tags, keepCount, protectedNames);
      && s.keptTags == s.protectedTags + newest && s.protectedTags == Filter(tags, IsProtected(protectedNames))
      && (forall t | t in newest :: t.name !in protectedNames) && |newest| <= keepCount && s.totalTags == |tags|
      && ListedNewestFirst(newest) && ListedNewestFirst(s.deleteCandidates)
      && (forall k, d | k in newest && d in s.deleteCandidates :: RanksFirst(k, d))
  {
    var ranked := Ranked(tags, protectedNames);
    var from := From(ranked, keepCount);
    newest := UpTo(ranked, keepCount);
    RankingSplit(tags, keepCount, protectedNames);
    SortSorts(Filter(tags, IsEligible(protectedNames)), NewestFirst);
    RankedNewestFirst(ranked);
    forall k, d | k in newest && d in from
      ensures RanksFirst(k, d)
    {
      RankingOrder(tags, keepCount, protectedNames, k, d);
      RanksExact(k, d);
    }
    hide Ranked, RanksFirst;
    assert forall i | 0 <= i < |from| :: from[i] == ranked[keepCount + i];
  }

  lemma RankedNewestFirst(ranked: seq<Tag>)
    requires SortedBy(ranked, NewestFirst)
    ensures ListedNewestFirst(ranked)
  {
    forall i, j | 0 <= i < j < |ranked|
      ensures RanksFirst(ranked[i], ranked[j])
    {
      RanksExact(ranked[i], ranked[j]);
    }
  }

  lemma SelectedFromListing(tags: seq<Tag>, keepCount: nat, protectedNames: seq<Name>)
    ensures forall t | t in SelectionOf(tags, keepCount, protectedNames).keptTags :: t in tags
    ensures forall t | t in SelectionOf(tags, keepCount, protectedNames).deleteCandidates :: t in tags
  {
    SelectionExact(tags, keepCount, protectedNames);
    hide SelectionOf;
    var s := SelectionOf(tags, keepCount, protectedNames);
    forall t: Tag
      ensures t in s.keptTags || t in s.deleteCandidates ==> t in tags
    {
      assert multiset(tags)[t] == multiset(s.keptTags)[t] + multiset(s.deleteCandidates)[t];
      assert t in s.keptTags <==> t in multiset(s.keptTags);
      assert t in s.deleteCandidates <==> t in multiset(s.deleteCandidates);
      assert t in tags <==> t in multiset(tags);
    }
  }

  // ----- Independence of the listing order -----

  ghost predicate DistinctNames(tags: seq<Tag>) {
    forall i, j | 0 <= i < j < |tags| :: tags[i].name != tags[j].name
  }

  lemma NamesTell(tags: seq<Tag>, s: Tag, t: Tag)
    requires DistinctNames(tags) && s in tags && t in tags && s.name == t.name
    ensures s == t
  {
  }

  // With distinct names there is only one way to be in order.
  lemma OneRanking(tags: seq<Tag>, a: seq<Tag>, b: seq<Tag>)
    requires DistinctNames(tags) && (forall t | t in a :: t in tags)
    requires multiset(a) == multiset(b) && SortedBy(a, NewestFirst) && SortedBy(b, NewestFirst)
    ensures a == b
  {
    SortedKeysUnique(a, b, NewestFirst);
    SameElements(a, b);
    forall i | 0 <= i < |a|
      ensures a[i] == b[i]
    {
      assert NewestFirst(a[i]) == NewestFirst(b[i]);
      assert a[i] in a && b[i] in a;
      NamesTell(tags, a[i], b[i]);
    }
  }

  /** For distinct names, the tags to delete do not depend on the order of the listing. */
  lemma OrderIndependent(a: seq<Tag>, b: seq<Tag>, keepCount: nat, protectedNames: seq<Name>)
    requires DistinctNames(a) && multiset(a) == multiset(b)
    ensures SelectionOf(a, keepCount, protectedNames).deleteCandidates
      == SelectionOf(b, keepCount, protectedNames).deleteCandidates
    ensures multiset(SelectionOf(a, keepCount, protectedNames).keptTags)
      == multiset(SelectionOf(b, keepCount, protectedNames).keptTags)
  {
    hide Filter, Sort;
    var p, q := Filter(a, IsEligible(protectedNames)), Filter(b, IsEligible(protectedNames));
    FilterPermutes(a, b, IsEligible(protectedNames));
    FilterPermutes(a, b, IsProtected(protectedNames));
    SortSorts(p, NewestFirst);
    SortSorts(q, NewestFirst);
    OneRanking(a, Ranked(a, protectedNames), Ranked(b, protectedNames));
  }

  lemma FilterPermutes(a: seq<Tag>, b: seq<Tag>, keep: Tag -> bool)
    requires multiset(a) == multiset(b)
    ensures multiset(Filter(a, keep)) == multiset(Filter(b, keep))
  {
    FilterCounts(a, keep);
    FilterCounts(b, keep);
  }

  // ----- Deleting -----

  function NotNamed(names: seq<Name>): Tag -> bool {
    (t: Tag) => t.name !in names
  }

  /** The repository after tags with these names are gone. */
  function Without(tags: seq<Tag>, names: seq<Name>): seq<Tag> {
    Filter(tags, NotNamed(names))
  }

  function NameOf(t: Tag): Name {
    t.name
  }

  function NamesOf(tags: seq<Tag>): seq<Name> {
    Map(tags, NameOf)
  }

  datatype Report = Report(
    deletedTags: seq<Name>, dryRun: bool, keptTags: seq<Name>, protectedTags: seq<Name>, totalTags: nat)

  /** The reply to each deletion: done, done without the client hearing of it, or not done. */
  type Script = seq<Weather<()>>

  /** How far the deletions get: done ones, and whether the client was told of all it asked for. */
  function Deletions(candidates: seq<Tag>, script: Script): (seq<Name>, bool)
    decreases candidates
  {
    if candidates == [] then ([], true)
    else if script == [] || script[0].Down? then ([], false)
    else if script[0].Lost? then ([candidates[0].name], false)
    else
      var (done, all) := Deletions(candidates[1..], script[1..]);
      ([candidates[0].name] + done, all)
  }

  /** Lists, selects and deletes; the repository afterwards is part of the result. */
  method MaintainDockerHubTags(records: seq<Record>, keepCount: int, protectedNames: seq<Name>, dryRun: bool,
      script: Script)
    returns (r: Result<Report>, gone: seq<Name>)
    ensures keepCount < 0 || !AllNamed(records) ==> r.Rejected? && gone == []
    ensures keepCount >= 0 && AllNamed(records) ==>
      var s := SelectionOf(TagsOf(records), keepCount, protectedNames);
      && gone == (if dryRun then [] else Deletions(s.deleteCandidates, script).0)
      && (r.Ok? <==> dryRun || Deletions(s.deleteCandidates, script).1)
      && (r.Ok? ==>
        && r.value.deletedTags == NamesOf(s.deleteCandidates) && r.value.dryRun == dryRun
        && r.value.keptTags == NamesOf(s.keptTags) && r.value.protectedTags == NamesOf(s.protectedTags)
        && r.value.totalTags == |records|)
  {
    gone := [];
    var selected := SelectDeletionCandidates(records, keepCount, protectedNames);
    if selected.Rejected? {
      return Rejected, [];
    }
    var s := selected.value;
    var candidates, deletedTags: seq<Name> := s.deleteCandidates, [];
    if dryRun {
      return Ok(Report(NamesOf(candidates), dryRun, NamesOf(s.keptTags), NamesOf(s.protectedTags), s.totalTags)), [];
    }
    DeletionsFrom(candidates, script, 0);
    for i := 0 to |candidates|
      invariant i <= |script|
      invariant gone == deletedTags == NamesOf(candidates[..i])
      invariant Deletions(candidates, script)
        == (deletedTags + Deletions(candidates[i..], script[i..]).0, Deletions(candidates[i..], script[i..]).1)
    {
      DeletionsStep(candidates, script, i);
      if i == |script| || script[i].Down? {
        return Rejected, gone;
      }
      gone := gone + [candidates[i].name];
      if script[i].Lost? {
        return Rejected, gone;
      }
      deletedTags := deletedTags + [candidates[i].name];
      assert NamesOf(candidates[..i + 1]) == NamesOf(candidates[..i]) + [candidates[i].name];
    }
    assert candidates[..|candidates|] == candidates;
    r := Ok(Report(deletedTags, dryRun, NamesOf(s.keptTags), NamesOf(s.protectedTags), s.totalTags));
  }

  lemma DeletionsFrom(candidates: seq<Tag>, script: Script, i: nat)
    requires i == 0
    ensures candidates[i..] == candidates && script[i..] == script && NamesOf(candidates[..i]) == []
    ensures [] + Deletions(candidates, script).0 == Deletions(candidates, script).0
  {
  }

  lemma DeletionsStep(candidates: seq<Tag>, script: Script, i: nat)
    requires i < |candidates| && i <= |script|
    ensures var here := Deletions(candidates[i..], script[i..]);
      if i == |script| || script[i].Down? then here == ([], false)
      else if script[i].Lost? then here == ([candidates[i].name], false)
      else
        var later := Deletions(candidates[i + 1..], script[i + 1..]);
        here == ([candidates[i].name] + later.0, later.1)
          && forall done: seq<Name> :: done + ([candidates[i].name] + later.0) == done + [candidates[i].name] + later.0
  {
  }

  // ----- Running again -----

  lemma {:induction false} FilterSorted(s: seq<Tag>, keep: Tag -> bool)
    requires SortedBy(s, NewestFirst)
    ensures SortedBy(Filter(s, keep), NewestFirst)
  {
    if s != [] {
      FilterSorted(s[1..], keep);
      var rest := Filter(s[1..], keep);
      forall t | t in rest
        ensures AtMost(NewestFirst(s[0]), NewestFirst(t))
      {
        var i :| 0 <= i < |s[1..]| && s[1..][i] == t;
        assert s[1 + i] == t;
      }
    }
  }

  // What is left over can be selected from the ranking itself.
  lemma RankedWithout(tags: seq<Tag>, names: seq<Name>, protectedNames: seq<Name>)
    requires DistinctNames(tags)
    ensures Ranked(Without(tags, names), protectedNames) == Filter(Ranked(tags, protectedNames), NotNamed(names))
  {
    hide Sort, Filter;
    var ranked := Ranked(tags, protectedNames);
    var left := Without(tags, names);
    SortSorts(Filter(tags, IsEligible(protectedNames)), NewestFirst);
    SortSorts(Filter(left, IsEligible(protectedNames)), NewestFirst);
    FilterSorted(ranked, NotNamed(names));
    FilterCounts(tags, IsEligible(protectedNames));
    FilterCounts(tags, NotNamed(names));
    FilterCounts(left, IsEligible(protectedNames));
    FilterCounts(ranked, NotNamed(names));
    assert multiset(Ranked(left, protectedNames)) == multiset(Filter(ranked, NotNamed(names)));
    OneRanking(tags, Ranked(left, protectedNames), Filter(ranked, NotNamed(names)));
  }

  lemma {:induction false} FilterAll(s: seq<Tag>, keep: Tag -> bool)
    requires forall t | t in s :: keep(t)
    ensures Filter(s, keep) == s
  {
    if s != [] {
      assert s[0] in s;
      FilterAll(s[1..], keep);
    }
  }

  // Among the tags of a listing without repeated names, and any of them in any order, no name repeats.
  lemma DistinctSubset(a: seq<Tag>, b: seq<Tag>)
    requires DistinctNames(a) && multiset(b) <= multiset(a)
    ensures DistinctNames(b)
  {
    forall i, j | 0 <= i < j < |b|
      ensures b[i].name != b[j].name
    {
      assert b[i] in multiset(b) && b[j] in multiset(b);
      if b[i].name == b[j].name {
        NamesTell(a, b[i], b[j]);
        assert b == b[..i] + [b[i]] + b[i + 1..j] + [b[j]] + b[j + 1..];
        assert multiset(b)[b[i]] >= 2;
        DistinctCountsOnce(a, b[i]);
      }
    }
  }

  lemma RankedDistinct(tags: seq<Tag>, protectedNames: seq<Name>)
    requires DistinctNames(tags)
    ensures DistinctNames(Ranked(tags, protectedNames))
  {
    SortSorts(Filter(tags, IsEligible(protectedNames)), NewestFirst);
    FilterCounts(tags, IsEligible(protectedNames));
    DistinctSubset(tags, Ranked(tags, protectedNames));
  }

  lemma KeptAreNotGone(ranked: seq<Tag>, keepCount: nat, gone: seq<Name>)
    requires DistinctNames(ranked)
    requires forall n | n in gone :: n in NamesOf(From(ranked, keepCount))
    ensures forall t | t in UpTo(ranked, keepCount) :: t.name !in gone
  {
  }

  lemma {:induction false} ProtectedStay(tags: seq<Tag>, protectedNames: seq<Name>, gone: seq<Name>)
    requires forall n | n in gone :: n !in protectedNames
    ensures Filter(Without(tags, gone), IsProtected(protectedNames)) == Filter(tags, IsProtected(protectedNames))
  {
    if tags != [] {
      ProtectedStay(tags[1..], protectedNames, gone);
      var head := if NotNamed(gone)(tags[0]) then [tags[0]] else [];
      assert Without(tags, gone) == head + Without(tags[1..], gone);
      FilterAppend(head, Without(tags[1..], gone), IsProtected(protectedNames));
      assert head != [] ==> head[1..] == [];
    }
  }

  /** Interrupted deletions do not change what the next run keeps, and it deletes exactly the rest. */
  lemma RerunConverges(tags: seq<Tag>, keepCount: nat, protectedNames: seq<Name>, gone: seq<Name>)
    requires DistinctNames(tags)
    requires forall n | n in gone :: n in NamesOf(SelectionOf(tags, keepCount, protectedNames).deleteCandidates)
    ensures var s := SelectionOf(tags, keepCount, protectedNames);
      var s' := SelectionOf(Without(tags, gone), keepCount, protectedNames);
      s'.keptTags == s.keptTags && s'.deleteCandidates == Filter(s.deleteCandidates, NotNamed(gone))
  {
    var ranked := Ranked(tags, protectedNames);
    var upTo, from := UpTo(ranked, keepCount), From(ranked, keepCount);
    CandidatesUnprotected(tags, keepCount, protectedNames, gone);
    ProtectedStay(tags, protectedNames, gone);
    RankedDistinct(tags, protectedNames);
    KeptAreNotGone(ranked, keepCount, gone);
    RankedWithout(tags, gone, protectedNames);
    FromUpTo(ranked, keepCount);
    FilterAppend(upTo, from, NotNamed(gone));
    FilterAll(upTo, NotNamed(gone));
    assert Ranked(Without(tags, gone), protectedNames) == upTo + Filter(from, NotNamed(gone));
  }

  lemma CandidatesUnprotected(tags: seq<Tag>, keepCount: nat, protectedNames: seq<Name>, gone: seq<Name>)
    requires forall n | n in gone :: n in NamesOf(SelectionOf(tags, keepCount, protectedNames).deleteCandidates)
    ensures forall n | n in gone :: n !in protectedNames
  {
    SelectionExact(tags, keepCount, protectedNames);
    var candidates := SelectionOf(tags, keepCount, protectedNames).deleteCandidates;
    forall n | n in gone
      ensures n !in protectedNames
    {
      var j :| 0 <= j < |candidates| && NamesOf(candidates)[j] == n;
      assert candidates[j] in candidates;
    }
  }

  /** After all deletions, another run has nothing to delete, whether or not names repeat in the listing. */
  lemma SecondRunIdle(tags: seq<Tag>, keepCount: nat, protectedNames: seq<Name>)
    ensures var gone := NamesOf(SelectionOf(tags, keepCount, protectedNames).deleteCandidates);
      SelectionOf(Without(tags, gone), keepCount, protectedNames).deleteCandidates == []
  {
    hide Ranked, UpTo, From, Filter;
    var ranked := Ranked(tags, protectedNames);
    var upTo, from := UpTo(ranked, keepCount), From(ranked, keepCount);
    var gone := NamesOf(from);
    var eligible := Filter(Without(tags, gone), IsEligible(protectedNames));
    RankingSplit(tags, keepCount, protectedNames);
    RankingSplit(Without(tags, gone), keepCount, protectedNames);
    FilterCounts(tags, IsEligible(protectedNames));
    FilterCounts(tags, NotNamed(gone));
    FilterCounts(Without(tags, gone), IsEligible(protectedNames));
    NamesListed(from);
    forall t
      ensures multiset(eligible)[t] <= multiset(upTo)[t]
    {
      if t !in from {
        assert multiset(from)[t] == 0;
      }
    }
    SmallerList(eligible, upTo);
  }

  lemma SmallerList(a: seq<Tag>, b: seq<Tag>)
    requires multiset(a) <= multiset(b)
    ensures |a| <= |b|
  {
    assert |multiset(a)| == |a| && |multiset(b)| == |b|;
    assert multiset(b) == multiset(a) + (multiset(b) - multiset(a));
  }

  // Deletion is by name: a kept tag is lost when a deleted one has its name.
  lemma KeptSurviveByName(tags: seq<Tag>, keepCount: nat, protectedNames: seq<Name>)
    ensures var s := SelectionOf(tags, keepCount, protectedNames);
      (forall k | k in s.keptTags :: k in Without(tags, NamesOf(s.deleteCandidates)))
      <==> forall k, d | k in s.keptTags && d in s.deleteCandidates :: k.name != d.name
  {
    SelectedFromListing(tags, keepCount, protectedNames);
    hide SelectionOf;
    NamesListed(SelectionOf(tags, keepCount, protectedNames).deleteCandidates);
  }

  function Ahead(t: Tag): Tag -> bool {
    (x: Tag) => Before(NewestFirst(x), NewestFirst(t))
  }

  function Through(t: Tag): Tag -> bool {
    (x: Tag) => AtMost(NewestFirst(x), NewestFirst(t))
  }

  /**
   The listing has, among its unprotected tags, two of one name with the cut between them: fewer than `keepCount`
   tags rank ahead of the first, and more than `keepCount` rank up to and including the second.
   */
  ghost predicate NameStraddles(tags: seq<Tag>, keepCount: nat, protectedNames: seq<Name>) {
    var eligible := Filter(tags, IsEligible(protectedNames));
    exists a, b | a in eligible && b in eligible ::
      a.name == b.name && |Filter(eligible, Ahead(a))| < keepCount < |Filter(eligible, Through(b))|
  }

  // What a filter keeps of a list is a prefix when it never rejects in front of what it keeps.
  lemma {:induction false} PrefixFilter(s: seq<Tag>, keep: Tag -> bool)
    requires forall i, j | 0 <= i < j < |s| :: keep(s[j]) ==> keep(s[i])
    ensures forall i | 0 <= i < |s| :: i < |Filter(s, keep)| <==> keep(s[i])
  {
    if s != [] {
      PrefixFilter(s[1..], keep);
      if keep(s[0]) {
        forall i | 0 < i < |s|
          ensures i < |Filter(s, keep)| <==> keep(s[i])
        {
          assert s[i] == s[1..][i - 1];
        }
      } else {
        assert forall x | x in Filter(s, keep) :: false;
      }
    }
  }

  lemma RankedTags(tags: seq<Tag>, protectedNames: seq<Name>)
    ensures var eligible, ranked := Filter(tags, IsEligible(protectedNames)), Ranked(tags, protectedNames);
      && SortedBy(ranked, NewestFirst) && multiset(ranked) == multiset(eligible) && |ranked| == |eligible|
      && (forall t :: t in ranked <==> t in eligible)
  {
    SortSorts(Filter(tags, IsEligible(protectedNames)), NewestFirst);
  }

  // Counting in the listing tells positions in the ranking.
  lemma RankCounts(tags: seq<Tag>, protectedNames: seq<Name>, t: Tag)
    ensures var eligible, ranked := Filter(tags, IsEligible(protectedNames)), Ranked(tags, protectedNames);
      && (forall i | 0 <= i < |ranked| ::
            i < |Filter(eligible, Ahead(t))| <==> Before(NewestFirst(ranked[i]), NewestFirst(t)))
      && (forall i | 0 <= i < |ranked| ::
            i < |Filter(eligible, Through(t))| <==> AtMost(NewestFirst(ranked[i]), NewestFirst(t)))
  {
    var eligible, ranked := Filter(tags, IsEligible(protectedNames)), Ranked(tags, protectedNames);
    RankedTags(tags, protectedNames);
    hide Ranked, Filter;
    FilterPermutes(eligible, ranked, Ahead(t));
    SameElements(Filter(eligible, Ahead(t)), Filter(ranked, Ahead(t)));
    FilterPermutes(eligible, ranked, Through(t));
    SameElements(Filter(eligible, Through(t)), Filter(ranked, Through(t)));
    PrefixFilter(ranked, Ahead(t));
    PrefixFilter(ranked, Through(t));
  }

  // The kept one of the name: nothing but tags of its key stand from its first place on up to it.
  lemma KeptOfName(tags: seq<Tag>, keepCount: nat, protectedNames: seq<Name>, a: Tag) returns (k: Tag)
    requires a in Filter(tags, IsEligible(protectedNames))
    requires |Filter(Filter(tags, IsEligible(protectedNames)), Ahead(a))| < keepCount
    ensures k in UpTo(Ranked(tags, protectedNames), keepCount) && k.name == a.name
  {
    RankedTags(tags, protectedNames);
    RankCounts(tags, protectedNames, a);
    hide Ranked, Filter;
    var ranked := Ranked(tags, protectedNames);
    var n := |Filter(Filter(tags, IsEligible(protectedNames)), Ahead(a))|;
    var i :| 0 <= i < |ranked| && ranked[i] == a;
    assert n <= i;
    k := ranked[n];
    assert k == UpTo(ranked, keepCount)[n];
  }

  lemma DeletedOfName(tags: seq<Tag>, keepCount: nat, protectedNames: seq<Name>, b: Tag) returns (d: Tag)
    requires b in Filter(tags, IsEligible(protectedNames))
    requires keepCount < |Filter(Filter(tags, IsEligible(protectedNames)), Through(b))|
    ensures d in From(Ranked(tags, protectedNames), keepCount) && d.name == b.name
  {
    RankedTags(tags, protectedNames);
    RankCounts(tags, protectedNames, b);
    hide Ranked, Filter;
    var ranked := Ranked(tags, protectedNames);
    var n := |Filter(Filter(tags, IsEligible(protectedNames)), Through(b))|;
    var i :| 0 <= i < |ranked| && ranked[i] == b;
    assert i < n <= |ranked|;
    d := ranked[n - 1];
    assert d == From(ranked, keepCount)[n - 1 - keepCount];
  }

  // The other direction: a kept and a deleted tag of one name have the cut between them.
  lemma CutBetween(tags: seq<Tag>, keepCount: nat, protectedNames: seq<Name>, k: Tag, d: Tag)
    requires k in UpTo(Ranked(tags, protectedNames), keepCount) && d in From(Ranked(tags, protectedNames), keepCount)
    ensures k in Filter(tags, IsEligible(protectedNames)) && d in Filter(tags, IsEligible(protectedNames))
    ensures |Filter(Filter(tags, IsEligible(protectedNames)), Ahead(k))| < keepCount
    ensures keepCount < |Filter(Filter(tags, IsEligible(protectedNames)), Through(d))|
  {
    RankedTags(tags, protectedNames);
    RankCounts(tags, protectedNames, k);
    RankCounts(tags, protectedNames, d);
    hide Ranked, Filter;
    var ranked := Ranked(tags, protectedNames);
    var i :| 0 <= i < |UpTo(ranked, keepCount)| && UpTo(ranked, keepCount)[i] == k;
    var j :| 0 <= j < |From(ranked, keepCount)| && From(ranked, keepCount)[j] == d;
    assert ranked[i] == k && ranked[keepCount + j] == d;
  }

  lemma StraddlingLoses(tags: seq<Tag>, keepCount: nat, protectedNames: seq<Name>)
    requires NameStraddles(tags, keepCount, protectedNames)
    ensures exists k, d | k in SelectionOf(tags, keepCount, protectedNames).keptTags
      && d in SelectionOf(tags, keepCount, protectedNames).deleteCandidates :: k.name == d.name
  {
    hide Filter, Ranked;
    var eligible := Filter(tags, IsEligible(protectedNames));
    var a, b :| a in eligible && b in eligible && a.name == b.name
      && |Filter(eligible, Ahead(a))| < keepCount < |Filter(eligible, Through(b))|;
    var k := KeptOfName(tags, keepCount, protectedNames, a);
    var d := DeletedOfName(tags, keepCount, protectedNames, b);
    assert k in SelectionOf(tags, keepCount, protectedNames).keptTags;
  }

  lemma LosingStraddles(tags: seq<Tag>, keepCount: nat, protectedNames: seq<Name>, k: Tag, d: Tag)
    requires k in SelectionOf(tags, keepCount, protectedNames).keptTags
    requires d in SelectionOf(tags, keepCount, protectedNames).deleteCandidates && k.name == d.name
    ensures NameStraddles(tags, keepCount, protectedNames)
  {
    RankingSplit(tags, keepCount, protectedNames);
    hide Filter, Ranked;
    assert k !in Filter(tags, IsProtected(protectedNames));
    CutBetween(tags, keepCount, protectedNames, k, d);
  }

  /** Every kept tag survives the deletions if and only if no name in the listing straddles the cut. */
  lemma KeptSurviveExact(tags: seq<Tag>, keepCount: nat, protectedNames: seq<Name>)
    ensures var s := SelectionOf(tags, keepCount, protectedNames);
      (forall k | k in s.keptTags :: k in Without(tags, NamesOf(s.deleteCandidates)))
      <==> !NameStraddles(tags, keepCount, protectedNames)
  {
    KeptSurviveByName(tags, keepCount, protectedNames);
    hide SelectionOf, Without, NameStraddles, NamesOf;
    if NameStraddles(tags, keepCount, protectedNames) {
      StraddlingLoses(tags, keepCount, protectedNames);
    }
    var s := SelectionOf(tags, keepCount, protectedNames);
    forall k: Tag, d: Tag | k in s.keptTags && d in s.deleteCandidates && k.name == d.name
      ensures NameStraddles(tags, keepCount, protectedNames)
    {
      LosingStraddles(tags, keepCount, protectedNames, k, d);
    }
  }

  lemma NamesListed(tags: seq<Tag>)
    ensures forall n :: n in NamesOf(tags) <==> exists t | t in tags :: t.name == n
  {
  }

  /** Distinct names, as a registry has them, are enough for that. */
  lemma DistinctNamesKept(tags: seq<Tag>, keepCount: nat, protectedNames: seq<Name>)
    requires DistinctNames(tags)
    ensures var s := SelectionOf(tags, keepCount, protectedNames);
      forall k | k in s.keptTags :: k in Without(tags, NamesOf(s.deleteCandidates))
  {
    KeptSurviveByName(tags, keepCount, protectedNames);
    SelectionExact(tags, keepCount, protectedNames);
    hide SelectionOf, Without, NamesOf, Filter;
    var s := SelectionOf(tags, keepCount, protectedNames);
    assert multiset(s.keptTags + s.deleteCandidates) == multiset(tags);
    DistinctSubset(tags, s.keptTags + s.deleteCandidates);
    forall k, d | k in s.keptTags && d in s.deleteCandidates
      ensures k.name != d.name
    {
      var i :| 0 <= i < |s.keptTags| && s.keptTags[i] == k;
      var j :| 0 <= j < |s.deleteCandidates| && s.deleteCandidates[j] == d;
      var all := s.keptTags + s.deleteCandidates;
      assert all[i] == k && all[|s.keptTags| + j] == d;
    }
  }

  /** A name that is listed twice, once kept and once deleted, is lost altogether. */
  lemma RepeatedNameLost()
    ensures var tags := [Tag(1, Some(10)), Tag(1, Some(5))];
      var s := SelectionOf(tags, 1, []);
      s.keptTags == [tags[0]] && s.deleteCandidates == [tags[1]] && Without(tags, NamesOf(s.deleteCandidates)) == []
  {
  }
}
