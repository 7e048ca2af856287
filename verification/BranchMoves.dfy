// Each request that delete-branch, protect and unprotect make of the bucket, as an action of
// the protocol machine.
module BranchMoves {
  import opened Keys
  import opened Store
  import P = BranchProtocol

  /** The event is an action that takes client `c` to `c'`. */
  ghost predicate ActsOn(repo: P.Repo, c: P.Client, e: Event, c': P.Client) {
    P.Acts(repo, c, e.before.Keys, c', e.after.Keys)
  }

  /** The events of a log from `from` on are the actions of one client, which starts idle. */
  ghost predicate IsPath(repo: P.Repo, from: nat, log: seq<Event>, path: seq<P.Client>) {
    && path != [] && path[0] == P.Idle && |log| == from + |path| - 1
    && forall i: nat {:trigger ActsAt(repo, from, log, path, i)} :: i + 1 < |path| ==> ActsAt(repo, from, log, path, i)
  }

  ghost predicate ActsAt(repo: P.Repo, from: nat, log: seq<Event>, path: seq<P.Client>, i: nat)
    requires i + 1 < |path| && from + i < |log|
  {
    ActsOn(repo, path[i], log[from + i], path[i + 1])
  }

  lemma OneMoreAction(repo: P.Repo, from: nat, log: seq<Event>, log': seq<Event>, path: seq<P.Client>, c': P.Client)
    requires IsPath(repo, from, log, path) && |log'| == |log| + 1 && log'[..|log|] == log
    requires ActsOn(repo, path[|path| - 1], log'[|log|], c')
    ensures IsPath(repo, from, log', path + [c'])
  {
    forall i: nat | i + 1 < |path + [c']| ensures ActsAt(repo, from, log', path + [c'], i) {
      if i + 1 < |path| {
        assert ActsAt(repo, from, log, path, i) && log'[from + i] == log'[..|log|][from + i];
      }
    }
  }

  /** Reading changes nothing. */
  lemma ReadingActs(repo: P.Repo, c: P.Client, e: Event)
    requires e.after == e.before
    ensures ActsOn(repo, c, e, c)
  {
  }

  /** Giving up changes nothing either. */
  lemma GivingUpActs(repo: P.Repo, c: P.Client, e: Event)
    requires e.after == e.before
    ensures ActsOn(repo, c, e, P.Idle)
  {
    assert P.Moves(repo, c, e.before.Keys, P.Idle, e.after.Keys);
  }

  /** Where a client stands after it tried to put its lock key. */
  function AfterPut(op: P.Op, ref: string, r: Reply<bool>, contended: P.Client): P.Client {
    match r
    case Ok(true) => P.Busy(op, ref, P.Working)
    case Ok(false) => contended
    case Err(_) => P.Idle
  }

  lemma FirstPutActs(repo: P.Repo, op: P.Op, ref: string, e: Event, r: Reply<bool>)
    requires ref in repo.refs && e.request == PutNew(repo.Lock(ref), r) && Effect(e.request, e.before, e.after)
    ensures ActsOn(repo, P.Idle, e, AfterPut(op, ref, r, P.Busy(op, ref, P.Examining)))
  {
    var keys, keys', acquiring := e.before.Keys, e.after.Keys, P.Busy(op, ref, P.Acquiring);
    assert P.Moves(repo, P.Idle, keys, acquiring, keys);
    if keys' != keys {
      WrittenKeys(e.before, e.after, repo.Lock(ref), Utf8(""));
    }
    assert P.Moves(repo, acquiring, keys, AfterPut(op, ref, r, P.Busy(op, ref, P.Examining)), keys');
  }

  lemma SecondPutActs(repo: P.Repo, op: P.Op, ref: string, e: Event, r: Reply<bool>)
    requires ref in repo.refs && e.request == PutNew(repo.Lock(ref), r) && Effect(e.request, e.before, e.after)
    ensures ActsOn(repo, P.Busy(op, ref, P.Retrying), e, AfterPut(op, ref, r, P.Idle))
  {
    if e.after.Keys != e.before.Keys {
      WrittenKeys(e.before, e.after, repo.Lock(ref), Utf8(""));
    }
    assert P.Moves(repo, P.Busy(op, ref, P.Retrying), e.before.Keys, AfterPut(op, ref, r, P.Idle), e.after.Keys);
  }

  lemma WrittenKeys(before: Bucket, after: Bucket, key: string, body: Body)
    requires WrittenAt(before, after, key, body)
    ensures after.Keys == before.Keys + {key}
  {
  }

  /** The age of a lock that is there lets its client go on or give up. */
  lemma AgeActs(repo: P.Repo, op: P.Op, ref: string, e: Event)
    requires e.after == e.before && repo.Lock(ref) in e.before
    ensures ActsOn(repo, P.Busy(op, ref, P.Examining), e, P.Busy(op, ref, P.Recovering))
  {
    assert P.Moves(repo, P.Busy(op, ref, P.Examining), e.before.Keys, P.Busy(op, ref, P.Recovering), e.after.Keys);
  }

  /** Deleting the stale lock, and its failure. */
  lemma RecoveryActs(repo: P.Repo, op: P.Op, ref: string, e: Event, r: Reply<Done>)
    requires e.request == Deleted(repo.Lock(ref), r) && Effect(e.request, e.before, e.after)
    ensures ActsOn(repo, P.Busy(op, ref, P.Recovering), e,
                   if r == Err(OtherError) then P.Idle else P.Busy(op, ref, P.Retrying))
  {
    DeletedKeys(e, repo.Lock(ref), r);
    var c' := if r == Err(OtherError) then P.Idle else P.Busy(op, ref, P.Retrying);
    assert P.Moves(repo, P.Busy(op, ref, P.Recovering), e.before.Keys, c', e.after.Keys);
  }

  lemma DeletedKeys(e: Event, key: string, r: Reply<Done>)
    requires e.request == Deleted(key, r) && Effect(e.request, e.before, e.after)
    ensures e.after.Keys == e.before.Keys - {key} || (e.after.Keys == e.before.Keys && r == Err(OtherError))
  {
  }

  /** The release ends the command from wherever its work stopped. */
  lemma ReleaseActs(repo: P.Repo, c: P.Client, ref: string, e: Event, r: Reply<Done>)
    requires c.Busy? && c.ref == ref && (c.phase.Working? || c.phase.Sweeping? || c.phase.Releasing?)
    requires e.request == Deleted(repo.Lock(ref), r) && Effect(e.request, e.before, e.after)
    ensures ActsOn(repo, c, e, P.Idle)
  {
    DeletedKeys(e, repo.Lock(ref), r);
    var releasing := P.Busy(c.op, ref, P.Releasing);
    assert releasing == c || P.Moves(repo, c, e.before.Keys, releasing, e.before.Keys);
    assert P.Moves(repo, releasing, e.before.Keys, P.Idle, e.after.Keys);
  }

  /** A listing with something to sweep and no marker starts the sweep of what it shows. */
  lemma SweepStarts(repo: P.Repo, ref: string, e: Event, listed: seq<ObjectMeta>)
    requires e.after == e.before && !EntriesHaveProtectedMarker(listed)
    requires forall k :: Lists(listed, k) <==> k in e.before && StartsWith(k, repo.Dir(ref)) && k != repo.Lock(ref)
    ensures ActsOn(repo, P.Busy(P.DeleteBranch, ref, P.Working), e,
                   P.Busy(P.DeleteBranch, ref, P.Sweeping(KeySet(listed))))
  {
    var shown := repo.Listing(e.before.Keys, ref) - {repo.Lock(ref)};
    forall k ensures k in KeySet(listed) <==> k in shown {
      assert k in KeySet(listed) <==> Lists(listed, k);
    }
    forall k | k in shown ensures !IsMarkerKey(k) {
      assert Lists(listed, k);
    }
    assert P.WorkTurn(repo, P.DeleteBranch, ref, e.before.Keys, P.Busy(P.DeleteBranch, ref, P.Sweeping(KeySet(listed))),
             e.after.Keys);
    assert P.Moves(repo, P.Busy(P.DeleteBranch, ref, P.Working), e.before.Keys,
                   P.Busy(P.DeleteBranch, ref, P.Sweeping(KeySet(listed))), e.after.Keys);
  }

  function KeySet(listed: seq<ObjectMeta>): set<string> {
    set i | 0 <= i < |listed| :: listed[i].key
  }

  /** One delete of the sweep. */
  lemma SweepActs(repo: P.Repo, ref: string, rest: set<string>, e: Event, k: string, r: Reply<Done>)
    requires k in rest && e.request == Deleted(k, r) && Effect(e.request, e.before, e.after)
    ensures ActsOn(repo, P.Busy(P.DeleteBranch, ref, P.Sweeping(rest)), e,
                   P.Busy(P.DeleteBranch, ref, P.Sweeping(rest - {k})))
  {
    DeletedKeys(e, k, r);
    assert P.Moves(repo, P.Busy(P.DeleteBranch, ref, P.Sweeping(rest)), e.before.Keys,
                   P.Busy(P.DeleteBranch, ref, P.Sweeping(rest - {k})), e.after.Keys);
  }

  /** Under `refs/`, a tombstone lies in no ref's listing. */
  lemma TombstoneActs(repo: P.Repo, c: P.Client, e: Event, uuid: string, text: string, r: Reply<Done>)
    requires forall ref :: ref in repo.refs ==> StartsWith(ref, "refs/")
    requires e.request == Put(TombstoneKey(repo.prefix, uuid), text, r) && Effect(e.request, e.before, e.after)
    ensures ActsOn(repo, c, e, c)
  {
    forall ref | ref in repo.refs ensures repo.Listing(e.after.Keys, ref) == repo.Listing(e.before.Keys, ref) {
      TombstonesAreNotRefs(repo.prefix, ref, uuid);
    }
  }

  lemma TombstonesAreNotRefs(prefix: string, ref: string, uuid: string)
    requires StartsWith(ref, "refs/")
    ensures !StartsWith(TombstoneKey(prefix, uuid), RefListingPrefix(prefix, ref))
  {
    var base := if prefix == "" then "" else prefix + "/";
    assert ref[0] == "refs/"[0];
    assert TombstoneKey(prefix, uuid)[|base|] == 'g';
    assert RefListingPrefix(prefix, ref)[|base|] == 'r';
  }

  /** Branch data in a listing of the ref is data of the ref. */
  lemma ShowsData(repo: P.Repo, ref: string, bucket: Bucket, listed: seq<ObjectMeta>)
    requires IsListing(listed, repo.Dir(ref), bucket)
    ensures HasBranchData(listed) <==> repo.HasData(bucket.Keys, ref)
  {
    if i :| 0 <= i < |listed| && CarriesData(listed[i].key) {
      assert IsEntry(listed[i], repo.Dir(ref), bucket);
      assert listed[i].key in repo.Listing(bucket.Keys, ref);
    }
    if k :| k in repo.Listing(bucket.Keys, ref) && CarriesData(k) {
      var i :| 0 <= i < |listed| && listed[i].key == k;
      assert CarriesData(listed[i].key);
    }
  }

  /** A listing that shows branch data lets the marker be written. */
  lemma MarkingStarts(repo: P.Repo, ref: string, e: Event)
    requires e.after == e.before && repo.HasData(e.before.Keys, ref)
    ensures ActsOn(repo, P.Busy(P.Protect, ref, P.Working), e, P.Busy(P.Protect, ref, P.Marking))
  {
    assert P.Moves(repo, P.Busy(P.Protect, ref, P.Working), e.before.Keys, P.Busy(P.Protect, ref, P.Marking),
             e.after.Keys);
  }

  lemma MarkActs(repo: P.Repo, ref: string, e: Event, r: Reply<Done>)
    requires e.request == Put(repo.Marker(ref), "", r) && Effect(e.request, e.before, e.after)
    ensures ActsOn(repo, P.Busy(P.Protect, ref, P.Marking), e, P.Busy(P.Protect, ref, P.Releasing))
  {
    if e.after.Keys != e.before.Keys {
      WrittenKeys(e.before, e.after, repo.Marker(ref), Utf8(""));
    }
    assert P.Moves(repo, P.Busy(P.Protect, ref, P.Marking), e.before.Keys, P.Busy(P.Protect, ref, P.Releasing),
             e.after.Keys);
  }

  lemma UnmarkActs(repo: P.Repo, ref: string, e: Event, r: Reply<Done>)
    requires e.request == Deleted(repo.Marker(ref), r) && Effect(e.request, e.before, e.after)
    ensures ActsOn(repo, P.Busy(P.Unprotect, ref, P.Working), e, P.Busy(P.Unprotect, ref, P.Releasing))
  {
    DeletedKeys(e, repo.Marker(ref), r);
    assert P.Moves(repo, P.Busy(P.Unprotect, ref, P.Working), e.before.Keys, P.Busy(P.Unprotect, ref, P.Releasing),
             e.after.Keys);
  }

  /** A refused, failed or empty listing ends the work. */
  lemma WorkEnds(repo: P.Repo, op: P.Op, ref: string, e: Event)
    requires e.after == e.before
    ensures ActsOn(repo, P.Busy(op, ref, P.Working), e, P.Busy(op, ref, P.Releasing))
  {
    assert P.Moves(repo, P.Busy(op, ref, P.Working), e.before.Keys, P.Busy(op, ref, P.Releasing), e.after.Keys);
  }
}
