/** The two looping calls of the release client: scripts/release-draft-lifecycle-client.js. */
module ReleaseClient {
  import opened Common
  import opened ReleasePolicy
  import opened ReleaseRemote

  // ----- findReleases: a bounded walk over the pages of the listing -----

  const PAGE_SIZE := 100
  const PAGE_LIMIT := 5

  /** What the host answers for one page: a list, or something that is not a list. */
  datatype Page = Listed(releases: seq<Release>) | Unlisted

  /** What the walk makes of the pages from here on: a short page ends it, and running out of pages is an error. */
  function Lookup(pages: seq<Page>, tag: string): Result<seq<Release>> {
    if pages == [] || pages[0].Unlisted? || |pages[0].releases| > PAGE_SIZE then Rejected
    else if |pages[0].releases| < PAGE_SIZE then Ok(WithTag(pages[0].releases, tag))
    else
      var later :- Lookup(pages[1..], tag);
      Ok(WithTag(pages[0].releases, tag) + later)
  }

  function Prepend(found: seq<Release>, later: Result<seq<Release>>): Result<seq<Release>> {
    if later.Ok? then Ok(found + later.value) else Rejected
  }

  method FindReleases(pages: seq<Page>, releaseTag: string) returns (r: Result<seq<Release>>)
    requires |pages| == PAGE_LIMIT
    ensures r == Lookup(pages, releaseTag)
  {
    var matches: seq<Release> := [];
    assert pages[0..] == pages;
    assert forall later: seq<Release> :: matches + later == later;
    for page := 0 to PAGE_LIMIT
      invariant Lookup(pages, releaseTag) == Prepend(matches, Lookup(pages[page..], releaseTag))
    {
      if pages[page].Unlisted? || |pages[page].releases| > PAGE_SIZE {
        return Rejected;
      }
      assert pages[page..][1..] == pages[page + 1..];
      assert forall later: seq<Release> ::
        matches + (WithTag(pages[page].releases, releaseTag) + later)
          == matches + WithTag(pages[page].releases, releaseTag) + later;
      matches := matches + WithTag(pages[page].releases, releaseTag);
      if |pages[page].releases| < PAGE_SIZE {
        return Ok(matches);
      }
    }
    r := Rejected;
  }

  /** The first n pages of a listing that does not change. */
  function PagesOf(listing: seq<Release>, n: nat): (pages: seq<Page>)
    ensures |pages| == n
    decreases n
  {
    if n == 0 then []
    else if |listing| <= PAGE_SIZE then [Listed(listing)] + PagesOf([], n - 1)
    else [Listed(listing[..PAGE_SIZE])] + PagesOf(listing[PAGE_SIZE..], n - 1)
  }

  lemma {:induction false} PagedLookup(listing: seq<Release>, n: nat, tag: string)
    ensures Lookup(PagesOf(listing, n), tag) ==
      if |listing| < PAGE_SIZE * n then Ok(WithTag(listing, tag)) else Rejected
  {
    if n > 0 && |listing| >= PAGE_SIZE {
      var first, later := listing[..PAGE_SIZE], listing[PAGE_SIZE..];
      assert listing == first + later;
      FilterAppend(first, later, (r: Release) => r.tagName == tag);
      PagedLookup(later, n - 1, tag);
      assert PagesOf(listing, n) == [Listed(first)] + PagesOf(later, n - 1) by {
        if |listing| == PAGE_SIZE {
          assert first == listing && later == [];
        }
      }
      assert PagesOf(listing, n)[1..] == PagesOf(later, n - 1);
    }
  }

  /**
   Over a stable listing the walk yields the whole listing filtered by tag when it has fewer than 500 entries, and
   fails otherwise.
   */
  lemma StableListingExact(w: World, tag: string)
    ensures Lookup(PagesOf(w.releases, PAGE_LIMIT), tag) ==
      match Perform(w, ReleaseRemote.FindReleases(tag)).1 { case ReleasesAre(found) => Ok(found) case _ => Rejected }
    ensures Perform(w, ReleaseRemote.FindReleases(tag)).1.ReleasesAre? <==> |w.releases| < 500
  {
    PagedLookup(w.releases, PAGE_LIMIT, tag);
  }

  // ----- resolveTag: a bounded walk along annotated tags -----

  datatype Object = Annotated(sha: string) | CommitAt(sha: string) | Neither

  datatype TagObject = TagObject(sha: string, target: Object)

  datatype Ref = Ref(name: string, target: Object)

  /** What the host answers: the reference for the tag, and the tag objects it knows. */
  datatype Repository = Repository(ref: Option<Ref>, objects: map<string, TagObject>)

  /**
   One step from an annotated tag to what it names; only a well-formed identifier of an honest object can be
   followed.
   */
  function Next(repo: Repository, target: Object): Option<Object> {
    if target.Annotated? && Hex(target.sha, 40) && target.sha in repo.objects
      && repo.objects[target.sha].sha == target.sha
    then Some(repo.objects[target.sha].target) else None
  }

  /** The commit that is reached from an object through at most `hops` annotated tags. */
  function CommitOf(repo: Repository, target: Object, hops: nat): Option<string>
    decreases hops
  {
    if target.CommitAt? then Some(target.sha)
    else if hops == 0 then None
    else match Next(repo, target)
      case None => None
      case Some(next) => CommitOf(repo, next, hops - 1)
  }

  const CHAIN_LIMIT := 5

  /** The walk of resolveTag; `seen` holds the tag objects followed so far. */
  method ResolveTag(repo: Repository, releaseTag: string, revision: string) returns (ok: bool)
    ensures ok <==>
      && repo.ref.Some? && repo.ref.value.name == "refs/tags/" + releaseTag
      && Leads(repo, repo.ref.value.target, revision, 5)
  {
    hide Leads;
    if repo.ref.None? || repo.ref.value.name != "refs/tags/" + releaseTag {
      return false;
    }
    var target, seen, depth := repo.ref.value.target, {}, 0;
    ghost var start := target;
    CommitExact(repo, start, revision, CHAIN_LIMIT);
    while target.Annotated? && depth < CHAIN_LIMIT
      invariant 0 <= depth <= CHAIN_LIMIT
      invariant Walk(repo, start, depth) == Some(target)
      invariant CommitOf(repo, start, CHAIN_LIMIT) == CommitOf(repo, target, CHAIN_LIMIT - depth)
      invariant forall sha | sha in seen :: exists k | 0 <= k < depth :: Walk(repo, start, k) == Some(Annotated(sha))
    {
      if !Hex(target.sha, 40) || target.sha in seen {
        if target.sha in seen {
          ghost var k :| 0 <= k < depth && Walk(repo, start, k) == Some(Annotated(target.sha));
          CycleNeverEnds(repo, start, k, depth, CHAIN_LIMIT - depth);
        }
        return false;
      }
      seen := seen + {target.sha};
      if target.sha !in repo.objects || repo.objects[target.sha].sha != target.sha {
        return false;
      }
      target := repo.objects[target.sha].target;
      depth := depth + 1;
    }
    ok := target.CommitAt? && target.sha == revision;
  }

  /** Every object but the last is an annotated tag, known to the host by its own identifier, that names the next. */
  ghost predicate LeadsTo(repo: Repository, chain: seq<Object>, revision: string) {
    && chain != [] && chain[|chain| - 1] == CommitAt(revision)
    && forall i | 0 <= i < |chain| - 1 ::
         && chain[i].Annotated? && |chain[i].sha| == 40
         && (forall c | c in chain[i].sha :: '0' <= c <= '9' || 'a' <= c <= 'f')
         && chain[i].sha in repo.objects && repo.objects[chain[i].sha] == TagObject(chain[i].sha, chain[i + 1])
  }

  ghost predicate Leads(repo: Repository, target: Object, revision: string, hops: nat) {
    exists chain :: LeadsTo(repo, chain, revision) && chain[0] == target && |chain| <= hops + 1
  }

  /** A commit is reached if and only if a chain of at most so many annotated tags leads to it. */
  lemma {:induction false} CommitExact(repo: Repository, target: Object, revision: string, hops: nat)
    ensures CommitOf(repo, target, hops) == Some(revision) <==> Leads(repo, target, revision, hops)
    decreases hops
  {
    if CommitOf(repo, target, hops) == Some(revision) {
      if target.CommitAt? {
        assert LeadsTo(repo, [target], revision);
      } else {
        var next := Next(repo, target).value;
        CommitExact(repo, next, revision, hops - 1);
        var chain :| LeadsTo(repo, chain, revision) && chain[0] == next && |chain| <= hops;
        assert LeadsTo(repo, [target] + chain, revision);
      }
    } else if Leads(repo, target, revision, hops) {
      var chain :| LeadsTo(repo, chain, revision) && chain[0] == target && |chain| <= hops + 1;
      if |chain| > 1 {
        assert LeadsTo(repo, chain[1..], revision);
        CommitExact(repo, chain[1], revision, hops - 1);
      }
    }
  }

  /** Where k steps lead. */
  function Walk(repo: Repository, target: Object, k: nat): Option<Object> {
    if k == 0 then Some(target)
    else match Walk(repo, target, k - 1)
      case None => None
      case Some(last) => Next(repo, last)
  }

  lemma {:induction false} WalkContinues(repo: Repository, target: Object, i: nat, k: nat)
    requires Walk(repo, target, i).Some?
    ensures Walk(repo, target, i + k) == Walk(repo, Walk(repo, target, i).value, k)
  {
    if k > 0 {
      WalkContinues(repo, target, i, k - 1);
    }
  }

  /** A commit that is reached lies at the end of a walk through annotated tags. */
  lemma {:induction false} CommitIsWalkedTo(repo: Repository, target: Object, hops: nat) returns (n: nat)
    requires CommitOf(repo, target, hops).Some?
    ensures n <= hops && Walk(repo, target, n) == Some(CommitAt(CommitOf(repo, target, hops).value))
    ensures forall k | 0 <= k < n :: Walk(repo, target, k).Some? && Walk(repo, target, k).value.Annotated?
    decreases hops
  {
    if target.CommitAt? {
      n := 0;
    } else {
      var next := Next(repo, target).value;
      var m := CommitIsWalkedTo(repo, next, hops - 1);
      n := m + 1;
      assert Walk(repo, target, 1) == Some(next);
      WalkContinues(repo, target, 1, m);
      forall k | 0 <= k < n
        ensures Walk(repo, target, k).Some? && Walk(repo, target, k).value.Annotated?
      {
        if k > 0 {
          WalkContinues(repo, target, 1, k - 1);
        }
      }
    }
  }

  /** A tag that leads to a commit never meets a tag object twice: refusing repeats refuses no good tag. */
  lemma {:induction false} WalksToCommitsDontRepeat(repo: Repository, target: Object, n: nat, i: nat, j: nat)
    requires i < j < n && Walk(repo, target, n).Some? && Walk(repo, target, n).value.CommitAt?
    requires Walk(repo, target, i).Some?
    ensures Walk(repo, target, i) != Walk(repo, target, j)
  {
    if Walk(repo, target, i) == Walk(repo, target, j) {
      // What follows position j also follows position i, so the commit is met, and left, n - (j - i) steps in.
      WalkContinues(repo, target, i, n - j);
      WalkContinues(repo, target, j, n - j);
      CommitsEndWalks(repo, target, i + (n - j), n);
    }
  }

  lemma {:induction false} CommitsEndWalks(repo: Repository, target: Object, i: nat, n: nat)
    requires i < n && Walk(repo, target, i).Some? && Walk(repo, target, i).value.CommitAt?
    ensures Walk(repo, target, n).None?
  {
    if i < n - 1 {
      CommitsEndWalks(repo, target, i, n - 1);
    }
  }

  // Back at an object seen before, the walk can go on for ever without meeting a commit.
  lemma CycleNeverEnds(repo: Repository, start: Object, k: nat, depth: nat, hops: nat)
    requires k < depth && Walk(repo, start, k).Some? && Walk(repo, start, k) == Walk(repo, start, depth)
    requires Walk(repo, start, depth).value.Annotated?
    ensures CommitOf(repo, Walk(repo, start, depth).value, hops).None?
  {
    var target := Walk(repo, start, depth).value;
    if CommitOf(repo, target, hops).Some? {
      var n := CommitIsWalkedTo(repo, target, hops);
      WalkContinues(repo, start, depth, n);
      WalksToCommitsDontRepeat(repo, start, depth + n, k, depth);
    }
  }
}
