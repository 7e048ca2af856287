// The doctor: analyse, thin out refs with several bundles, repair HEAD, sweep stale locks
// (src/manage/doctor.rs).
module Doctor {
  import opened Base
  import opened Keys
  import opened Store
  import opened Snapshot
  import opened StaleLocks
  import opened Repair

  /**
   * The operator's answers, by ref, with the branch picked for HEAD; a missing answer is a
   * prompt that was cancelled. `suffix` is what was drawn for each quarantined bundle.
   */
  datatype Answers = Answers(keep: map<string, nat>, confirm: map<string, bool>, head: Option<nat>,
                             suffix: map<string, string>)

  datatype StaleReason = DeletedMeanwhile | ResidueOnly

  datatype DoctorError = StoreFailed | Internal | Cancelled | StaleSnapshot(entity: string, reason: StaleReason)

  datatype Outcome = Finished | Failed(error: DoctorError)

  /** Bundle entries carry their own keys, one per commit. */
  ghost predicate WellFormed(prefix: string, ref: string, bundles: seq<BundleEntry>) {
    && (forall i :: 0 <= i < |bundles| ==>
         IsValidBundleStem(bundles[i].sha) && bundles[i].key == BundleKey(prefix, ref, bundles[i].sha))
    && (forall i, j :: 0 <= i < j < |bundles| ==> bundles[i].sha != bundles[j].sha)
  }

  /** The list has the refs that show several bundles. */
  ghost predicate SeveralBundles(refs: map<string, RefSnapshot>, list: seq<string>) {
    forall ref :: ref in list <==> ref in refs && |refs[ref].bundles| > 1
  }

  function ShasOf(bundles: seq<BundleEntry>): set<string> {
    set i | 0 <= i < |bundles| :: bundles[i].sha
  }

  /** The bundles to keep and the others, each in listing order. */
  method Partition(bundles: seq<BundleEntry>, sha: string) returns (keepers: seq<BundleEntry>, losers: seq<BundleEntry>)
    ensures forall b :: b in keepers <==> b in bundles && b.sha == sha
    ensures forall b :: b in losers <==> b in bundles && b.sha != sha
    ensures |keepers| + |losers| == |bundles|
  {
    keepers, losers := [], [];
    for i := 0 to |bundles|
      invariant forall b :: b in keepers <==> b in bundles[..i] && b.sha == sha
      invariant forall b :: b in losers <==> b in bundles[..i] && b.sha != sha
      invariant |keepers| + |losers| == i
    {
      assert bundles[..i + 1] == bundles[..i] + [bundles[i]];
      if bundles[i].sha == sha {
        keepers := keepers + [bundles[i]];
      } else {
        losers := losers + [bundles[i]];
      }
    }
    assert bundles[..|bundles|] == bundles;
  }

  lemma QuarantineIsElsewhere(p: Plan, ref: string, sha: string, sha': string)
    requires IsValidBundleStem(sha) && IsValidBundleStem(sha')
    ensures QuarantineKey(p, ref, sha) != BundleKey(p.prefix, ref, sha')
  {
    if QuarantineKey(p, ref, sha) == BundleKey(p.prefix, ref, sha') {
      BundleKeyDeterminesParts(p.prefix, QuarantineRef(p, ref, sha), sha, ref, sha');
    }
  }

  /** A key the eviction of this ref's losers removes or writes. */
  ghost predicate IsMovedFor(p: Plan, ref: string, k: string) {
    exists sha :: IsLoser(p, ref, sha) && Moves(p, ref, sha, k)
  }

  /** The last request was the successful quarantine copy, if there had to be one. */
  predicate CopiedLast(p: Plan, log: seq<Event>, ref: string, sha: string) {
    log != [] && (p.quarantine ==>
      log[|log| - 1].request == Copied(BundleKey(p.prefix, ref, sha), QuarantineKey(p, ref, sha), Ok(Done)))
  }

  /** The bundle is gone: deleted now, or found gone. */
  predicate EndsEviction(request: Request, key: string) {
    || (request.Deleted? && request.key == key && request.deleted != Err(OtherError))
    || (request.Copied? && request.src == key && request.copied == Err(NotFound))
  }

  /** Some request from `from` on deleted this bundle of the ref or found it gone. */
  ghost predicate Evicted(p: Plan, log: seq<Event>, from: nat, ref: string, sha: string) {
    exists i: nat :: from <= i < |log| && EndsEviction(log[i].request, BundleKey(p.prefix, ref, sha))
  }

  lemma EvictedStays(p: Plan, log: seq<Event>, log': seq<Event>, from: nat, ref: string, sha: string)
    requires Extends(log, log') && Evicted(p, log, from, ref, sha)
    ensures Evicted(p, log', from, ref, sha)
  {
    var i: nat :| from <= i < |log| && EndsEviction(log[i].request, BundleKey(p.prefix, ref, sha));
    assert log'[i] == log'[..|log|][i];
  }

  class Doctor {
    const store: ObjectStore
    const prefix: string
    const deleteBundle: bool
    const deleteStaleLocks: bool
    const ttl: nat
    const hidden: set<string>
    const answers: Answers

    constructor (store: ObjectStore, prefix: string, deleteBundle: bool, deleteStaleLocks: bool, ttl: nat,
                 hidden: set<string>, answers: Answers)
      ensures this.store == store && this.prefix == prefix && this.deleteBundle == deleteBundle
      ensures this.deleteStaleLocks == deleteStaleLocks && this.ttl == ttl && this.hidden == hidden
                && this.answers == answers
    {
      this.store, this.prefix := store, prefix;
      this.deleteBundle, this.deleteStaleLocks := deleteBundle, deleteStaleLocks;
      this.ttl, this.hidden, this.answers := ttl, hidden, answers;
    }

    /** The age past which the run deletes locks, with the option set. */
    function LockTtl(): Option<nat> {
      if deleteStaleLocks then Some(ttl) else None
    }

    /** The plan is made of this doctor's options. */
    ghost predicate Follows(p: Plan) {
      && p.prefix == prefix && p.quarantine == !deleteBundle && p.locks == LockTtl()
      && p.suffix == answers.suffix && p.confirm == answers.confirm
    }

    /** The quarantine copy of a losing bundle; one already gone counts as evicted. */
    method CopyToQuarantine(ref: string, losing: BundleEntry, ghost p: Plan, ghost start: seq<Event>, ghost c: nat)
      returns (copied: Reply<Done>)
      requires store.Valid() && Follows(p) && IsLoser(p, ref, losing.sha)
                 && losing.key == BundleKey(prefix, ref, losing.sha)
      requires !deleteBundle && Disciplined(p, start, store.log) && |start| <= c && CheckedAt(p, store.log, c, ref)
      modifies store
      ensures store.Valid() && Disciplined(p, start, store.log) && CheckedAt(p, store.log, c, ref)
      ensures Extends(old(store.log), store.log)
      ensures copied.Ok? ==> CopiedLast(p, store.log, ref, losing.sha)
      ensures copied == Err(NotFound) ==> Evicted(p, store.log, |start|, ref, losing.sha)
      ensures copied == Err(NotFound) && store.quiet ==> losing.key !in store.bucket
      ensures copied == Err(OtherError) ==> !FaultFree(old(store.log), store.log)
      ensures store.quiet ==> forall k :: k != QuarantineKey(p, ref, losing.sha) ==>
                KeptAt(old(store.bucket), store.bucket, k)
    {
      var suffix := if losing.key in answers.suffix then answers.suffix[losing.key] else "";
      var newRef := ref + "_" + suffix;
      ghost var log := store.log;
      copied := store.Copy(losing.key, BundleKey(prefix, newRef, losing.sha));
      EvictingStep(p, start, log, store.log, c, ref, losing.sha);
      assert copied.Ok? ==> copied.value == Done;
      assert copied == Err(NotFound) ==> EndsEviction(store.log[|log|].request, losing.key);
    }

    /** The delete of a losing bundle. */
    method DeleteLoser(ref: string, losing: BundleEntry, ghost p: Plan, ghost start: seq<Event>, ghost c: nat)
      returns (outcome: Outcome)
      requires store.Valid() && Follows(p) && IsLoser(p, ref, losing.sha)
                 && losing.key == BundleKey(prefix, ref, losing.sha)
      requires p.quarantine ==> CopiedLast(p, store.log, ref, losing.sha)
      requires Disciplined(p, start, store.log) && |start| <= c && CheckedAt(p, store.log, c, ref)
      modifies store
      ensures store.Valid() && Disciplined(p, start, store.log) && CheckedAt(p, store.log, c, ref)
      ensures Extends(old(store.log), store.log) && (outcome == Finished || outcome == Failed(StoreFailed))
      ensures outcome == Failed(StoreFailed) ==> !FaultFree(old(store.log), store.log)
      ensures outcome == Finished ==> Evicted(p, store.log, |start|, ref, losing.sha)
      ensures store.quiet && outcome == Finished ==> losing.key !in store.bucket
      ensures store.quiet ==> forall k :: k != losing.key ==> KeptAt(old(store.bucket), store.bucket, k)
    {
      ghost var log := store.log;
      var deleted := store.Delete(losing.key);
      assert store.log[..|log|][|log| - 1] == log[|log| - 1];
      EvictingStep(p, start, log, store.log, c, ref, losing.sha);
      assert deleted != Err(OtherError) ==> EndsEviction(store.log[|log|].request, losing.key);
      match deleted
      case Err(OtherError) => outcome := Failed(StoreFailed);
      case _ => outcome := Finished;
    }

    /**
     * `evict_losing_bundle`: copy to quarantine unless deleting, then delete. A bundle
     * already gone counts as evicted.
     */
    method EvictLosingBundle(ref: string, losing: BundleEntry, ghost p: Plan, ghost start: seq<Event>, ghost c: nat)
      returns (outcome: Outcome)
      requires store.Valid() && Follows(p) && IsLoser(p, ref, losing.sha)
                 && losing.key == BundleKey(prefix, ref, losing.sha)
      requires IsValidBundleStem(losing.sha)
      requires Disciplined(p, start, store.log) && |start| <= c && CheckedAt(p, store.log, c, ref)
      modifies store
      ensures store.Valid() && Disciplined(p, start, store.log) && CheckedAt(p, store.log, c, ref)
      ensures Extends(old(store.log), store.log) && (outcome == Finished || outcome == Failed(StoreFailed))
      ensures outcome == Failed(StoreFailed) ==> !FaultFree(old(store.log), store.log)
      ensures outcome == Finished ==> Evicted(p, store.log, |start|, ref, losing.sha)
      ensures store.quiet && outcome == Finished ==> losing.key !in store.bucket
      ensures store.quiet ==> forall k :: !Moves(p, ref, losing.sha, k) ==>
                KeptAt(old(store.bucket), store.bucket, k)
    {
      QuarantineIsElsewhere(p, ref, losing.sha, losing.sha);
      if !deleteBundle {
        var copied := CopyToQuarantine(ref, losing, p, start, c);
        match copied
        case Err(NotFound) => return Finished;
        case Err(OtherError) => return Failed(StoreFailed);
        case Ok(_) =>
      }
      ghost var log, copied := store.log, store.bucket;
      outcome := DeleteLoser(ref, losing, p, start, c);
      ExtendsFurther(old(store.log), log, store.log);
      forall k | store.quiet && !Moves(p, ref, losing.sha, k) ensures KeptAt(old(store.bucket), store.bucket, k) {
        assert KeptAt(old(store.bucket), copied, k) && KeptAt(copied, store.bucket, k);
      }
    }

    ghost predicate AreLosers(p: Plan, ref: string, losers: seq<BundleEntry>) {
      forall i :: 0 <= i < |losers| ==> IsLosing(p, ref, losers[i])
    }

    ghost predicate IsLosing(p: Plan, ref: string, b: BundleEntry) {
      IsLoser(p, ref, b.sha) && IsValidBundleStem(b.sha) && b.key == BundleKey(prefix, ref, b.sha)
    }

    /** The first `i` losers are evicted; in a quiet bucket they are gone. */
    ghost predicate EvictedTo(p: Plan, ref: string, losers: seq<BundleEntry>, i: nat, log: seq<Event>, from: nat,
                              bucket: Bucket)
    {
      && i <= |losers|
      && (forall j :: 0 <= j < i ==> Evicted(p, log, from, ref, losers[j].sha))
      && (store.quiet ==> forall j :: 0 <= j < i ==> losers[j].key !in bucket)
    }

    /** Nothing but what the evictions of this ref move has changed. */
    ghost predicate OnlyMoved(p: Plan, ref: string, before: Bucket, after: Bucket) {
      forall k :: !IsMovedFor(p, ref, k) ==> KeptAt(before, after, k)
    }

    lemma MovedOne(p: Plan, ref: string, loser: BundleEntry, start: Bucket, before: Bucket, after: Bucket)
      requires Follows(p) && IsLosing(p, ref, loser) && OnlyMoved(p, ref, start, before)
      requires forall k :: !Moves(p, ref, loser.sha, k) ==> KeptAt(before, after, k)
      ensures OnlyMoved(p, ref, start, after)
    {
      forall k | !IsMovedFor(p, ref, k) ensures KeptAt(start, after, k) {
        assert IsLoser(p, ref, loser.sha);
        assert KeptAt(start, before, k) && KeptAt(before, after, k);
      }
    }

    lemma EvictedFurther(p: Plan, ref: string, losers: seq<BundleEntry>, i: nat, log: seq<Event>, log': seq<Event>,
                         from: nat, before: Bucket, after: Bucket)
      requires Follows(p) && AreLosers(p, ref, losers) && i < |losers|
                 && EvictedTo(p, ref, losers, i, log, from, before)
      requires Extends(log, log') && Evicted(p, log', from, ref, losers[i].sha)
                 && (store.quiet ==> losers[i].key !in after)
      requires store.quiet ==> forall k :: !Moves(p, ref, losers[i].sha, k) ==> KeptAt(before, after, k)
      ensures EvictedTo(p, ref, losers, i + 1, log', from, after)
    {
      forall j | 0 <= j < i
        ensures Evicted(p, log', from, ref, losers[j].sha) && (store.quiet ==> losers[j].key !in after)
      {
        EvictedStays(p, log, log', from, ref, losers[j].sha);
        assert IsLosing(p, ref, losers[j]) && IsLosing(p, ref, losers[i]);
        QuarantineIsElsewhere(p, ref, losers[i].sha, losers[j].sha);
        assert store.quiet && losers[j].key != losers[i].key ==> KeptAt(before, after, losers[j].key);
      }
    }

    /** The eviction loop; the first failure ends it. */
    method EvictAll(ref: string, losers: seq<BundleEntry>, ghost p: Plan, ghost start: seq<Event>, ghost c: nat)
      returns (outcome: Outcome)
      requires store.Valid() && Follows(p) && AreLosers(p, ref, losers)
      requires Disciplined(p, start, store.log) && |start| <= c && CheckedAt(p, store.log, c, ref)
      modifies store
      ensures store.Valid() && Disciplined(p, start, store.log)
      ensures Extends(old(store.log), store.log) && (outcome == Finished || outcome == Failed(StoreFailed))
      ensures outcome == Failed(StoreFailed) ==> !FaultFree(old(store.log), store.log)
      ensures outcome == Finished ==> EvictedTo(p, ref, losers, |losers|, store.log, |start|, store.bucket)
      ensures store.quiet ==> OnlyMoved(p, ref, old(store.bucket), store.bucket)
    {
      outcome := Finished;
      for i := 0 to |losers|
        invariant outcome == Finished && Extends(old(store.log), store.log)
        invariant store.Valid() && Disciplined(p, start, store.log) && CheckedAt(p, store.log, c, ref)
        invariant EvictedTo(p, ref, losers, i, store.log, |start|, store.bucket)
        invariant store.quiet ==> OnlyMoved(p, ref, old(store.bucket), store.bucket)
      {
        ghost var before, log := store.bucket, store.log;
        assert IsLosing(p, ref, losers[i]);
        outcome := EvictLosingBundle(ref, losers[i], p, start, c);
        ExtendsFurther(old(store.log), log, store.log);
        if store.quiet {
          MovedOne(p, ref, losers[i], old(store.bucket), before, store.bucket);
        }
        if outcome != Finished {
          return;
        }
        EvictedFurther(p, ref, losers, i, log, store.log, |start|, before, store.bucket);
      }
    }

    /** The plan is right about this ref: what is shown, and which one the answers keep. */
    ghost predicate PlansRef(p: Plan, ref: string, bundles: seq<BundleEntry>) {
      && ref in p.shown && p.shown[ref] == ShasOf(bundles)
      && (ref in p.keepers <==> |bundles| > 1 && ref in answers.keep && answers.keep[ref] < |bundles|)
      && (ref in p.keepers ==> p.keepers[ref] == bundles[answers.keep[ref]].sha)
    }

    /** How the fix of a ref ends before anything is asked of the bucket, if it does. */
    predicate EndsEarly(ref: string, refs: map<string, RefSnapshot>, outcome: Outcome) {
      if ref !in refs then outcome == Failed(Internal)
      else if ref !in answers.keep then outcome == Failed(Cancelled)
      else if answers.keep[ref] >= |refs[ref].bundles| then outcome == Failed(Internal)
      else if ref !in answers.confirm then outcome == Failed(Cancelled)
      else !answers.confirm[ref] && outcome == Finished
    }

    /** The pick is in range and the answer is yes. */
    predicate GoesAhead(ref: string, refs: map<string, RefSnapshot>) {
      && ref in refs && ref in answers.keep && answers.keep[ref] < |refs[ref].bundles|
      && ref in answers.confirm && answers.confirm[ref]
    }

    /**
     * `fix_multiple_bundles`: let the operator choose and confirm, look at the chosen bundle
     * once more, and evict the others. Without a yes nothing is asked of the bucket.
     */
    method FixMultipleBundles(snapshot: RepoSnapshot, ref: string, ghost p: Plan, ghost start: seq<Event>)
      returns (outcome: Outcome)
      requires store.Valid() && Follows(p) && Disciplined(p, start, store.log)
      requires ref in snapshot.refs ==>
                 WellFormed(prefix, ref, snapshot.refs[ref].bundles) && PlansRef(p, ref, snapshot.refs[ref].bundles)
                 && |snapshot.refs[ref].bundles| > 1
      modifies store, snapshot`refs
      ensures store.Valid() && Disciplined(p, start, store.log) && Extends(old(store.log), store.log)
      ensures !GoesAhead(ref, old(snapshot.refs)) ==>
                && EndsEarly(ref, old(snapshot.refs), outcome) && snapshot.refs == old(snapshot.refs)
                && store.log == old(store.log) && store.bucket == old(store.bucket)
      ensures GoesAhead(ref, old(snapshot.refs)) ==>
                ref in p.keepers && (outcome in {Finished, Failed(StoreFailed)} || IsStaleSnapshot(outcome))
      ensures outcome == Failed(StoreFailed) ==> !FaultFree(old(store.log), store.log)
      ensures outcome == Finished && GoesAhead(ref, old(snapshot.refs)) ==>
                forall sha :: IsLoser(p, ref, sha) ==> Evicted(p, store.log, |start|, ref, sha)
      ensures outcome == Finished && GoesAhead(ref, old(snapshot.refs)) && store.quiet ==>
                forall sha :: IsLoser(p, ref, sha) ==> BundleKey(prefix, ref, sha) !in store.bucket
      ensures store.quiet ==> OnlyMoved(p, ref, old(store.bucket), store.bucket)
      ensures OnlyThinned(old(snapshot.refs), snapshot.refs, ref)
      ensures outcome == Finished && GoesAhead(ref, old(snapshot.refs)) ==>
                forall b :: b in snapshot.refs[ref].bundles <==>
                    b in old(snapshot.refs[ref].bundles) && b.sha == p.keepers[ref]
      ensures IsStaleSnapshot(outcome) ==> ref in p.keepers && (store.quiet ==> KeeperKey(p, ref) !in old(store.bucket))
    {
      if ref !in snapshot.refs {
        return Failed(Internal);
      }
      var bundles := snapshot.refs[ref].bundles;
      if ref !in answers.keep {
        return Failed(Cancelled);
      }
      if answers.keep[ref] >= |bundles| {
        return Failed(Internal);
      }
      var keeper := bundles[answers.keep[ref]];
      if ref !in answers.confirm {
        return Failed(Cancelled);
      }
      if !answers.confirm[ref] {
        return Finished;
      }
      var head; ghost var c;
      head, c := CheckKeeper(ref, keeper, p, start);
      match head
      case Err(NotFound) => return Failed(StaleSnapshot(ref, DeletedMeanwhile));
      case Err(OtherError) => return Failed(StoreFailed);
      case Ok(_) =>
        ghost var log := store.log;
        outcome := ThinOut(snapshot, ref, keeper.sha, p, start, c);
        ExtendsFurther(old(store.log), log, store.log);
    }

    /** After the yes, one HEAD of the bundle to keep. */
    method CheckKeeper(ref: string, keeper: BundleEntry, ghost p: Plan, ghost start: seq<Event>)
      returns (head: Reply<ObjectMeta>, ghost c: nat)
      requires store.Valid() && Follows(p) && Disciplined(p, start, store.log)
      requires ref in p.keepers && keeper.key == KeeperKey(p, ref) && SaidYes(p, ref)
      modifies store
      ensures store.Valid() && Disciplined(p, start, store.log) && Extends(old(store.log), store.log)
      ensures head.Ok? ==> |start| <= c && CheckedAt(p, store.log, c, ref)
      ensures head == Err(OtherError) ==> !FaultFree(old(store.log), store.log)
      ensures store.quiet ==> store.bucket == old(store.bucket)
      ensures store.quiet && head == Err(NotFound) ==> keeper.key !in store.bucket
    {
      ghost var log0 := store.log;
      store.Confirm(ref);
      HarmlessStep(p, start, log0, store.log);
      ghost var log1 := store.log;
      head := store.Head(keeper.key);
      HarmlessStep(p, start, log1, store.log);
      ExtendsFurther(log0, log1, store.log);
      assert store.log[..|log1|][|log0|] == log1[|log0|];
      c := |log0|;
    }

    /** The end of `fix_multiple_bundles`: keep the chosen one in the snapshot, evict the others. */
    method ThinOut(snapshot: RepoSnapshot, ref: string, keeperSha: string, ghost p: Plan, ghost start: seq<Event>,
                   ghost c: nat)
      returns (outcome: Outcome)
      requires store.Valid() && Follows(p) && Disciplined(p, start, store.log) && |start| <= c
                 && CheckedAt(p, store.log, c, ref)
      requires ref in snapshot.refs && WellFormed(prefix, ref, snapshot.refs[ref].bundles)
      requires PlansRef(p, ref, snapshot.refs[ref].bundles) && ref in p.keepers && p.keepers[ref] == keeperSha
      modifies store, snapshot`refs
      ensures store.Valid() && Disciplined(p, start, store.log)
      ensures Extends(old(store.log), store.log) && (outcome == Finished || outcome == Failed(StoreFailed))
      ensures outcome == Failed(StoreFailed) ==> !FaultFree(old(store.log), store.log)
      ensures outcome == Finished ==> forall sha :: IsLoser(p, ref, sha) ==> Evicted(p, store.log, |start|, ref, sha)
      ensures outcome == Finished && store.quiet ==> forall sha :: IsLoser(p, ref, sha) ==>
                BundleKey(prefix, ref, sha) !in store.bucket
      ensures store.quiet ==> OnlyMoved(p, ref, old(store.bucket), store.bucket)
      ensures OnlyThinned(old(snapshot.refs), snapshot.refs, ref)
      ensures forall b :: b in snapshot.refs[ref].bundles <==>
                b in old(snapshot.refs[ref].bundles) && b.sha == keeperSha
    {
      var bundles := snapshot.refs[ref].bundles;
      var keepers, losers := Partition(bundles, keeperSha);
      assert bundles[answers.keep[ref]] in keepers;
      snapshot.refs := snapshot.refs[ref := snapshot.refs[ref].(bundles := keepers)];
      forall j | 0 <= j < |losers| ensures IsLosing(p, ref, losers[j]) {
        assert losers[j] in losers;
        var i :| 0 <= i < |bundles| && bundles[i] == losers[j];
      }
      outcome := EvictAll(ref, losers, p, start, c);
      forall sha | IsLoser(p, ref, sha) && outcome == Finished
        ensures Evicted(p, store.log, |start|, ref, sha)
                  && (store.quiet ==> BundleKey(prefix, ref, sha) !in store.bucket)
      {
        var i :| 0 <= i < |bundles| && bundles[i].sha == sha;
        assert bundles[i] in losers;
        var j :| 0 <= j < |losers| && losers[j] == bundles[i];
      }
    }

    /**
     * `fix_head`: let the operator choose among the branches with data, list the chosen one
     * again, and name it only if branch data is still there.
     */
    method FixHead(snapshot: RepoSnapshot, ghost p: Plan, ghost start: seq<Event>)
      returns (outcome: Outcome, ghost chosen: Option<string>)
      requires store.Valid() && Follows(p) && Disciplined(p, start, store.log)
      modifies store, snapshot`head
      ensures store.Valid() && Disciplined(p, start, store.log) && Extends(old(store.log), store.log)
      ensures !HeadPickInRange(snapshot.refs) ==>
                && chosen == None && store.log == old(store.log) && store.bucket == old(store.bucket)
                && outcome == if NoCandidates(snapshot.refs) then Finished
                              else if answers.head.None? then Failed(Cancelled) else Failed(Internal)
      ensures HeadPickInRange(snapshot.refs) ==>
                && chosen.Some? && IsHeadPick(snapshot.refs, chosen.value)
                && NamesAsListed(store.log, |old(store.log)|, chosen.value, outcome)
      ensures outcome == Failed(StoreFailed) ==> !FaultFree(old(store.log), store.log)
      ensures store.quiet ==> forall k :: k != HeadKey(prefix) ==> KeptAt(old(store.bucket), store.bucket, k)
      ensures store.quiet && IsStaleSnapshot(outcome) ==>
                store.bucket == old(store.bucket) && !HasDataAt(prefix, hidden, store.bucket, chosen.value)
      ensures outcome == Finished && chosen.Some? ==> snapshot.head == chosen
      ensures outcome == Finished && chosen.Some? && store.quiet ==>
                HasBody(store.bucket, HeadKey(prefix), Utf8(chosen.value))
    {
      var candidates := Candidates(snapshot.refs);
      chosen := None;
      if candidates == [] {
        return Finished, chosen;
      }
      assert IsCandidate(snapshot.refs, candidates[0]);
      if answers.head.None? {
        return Failed(Cancelled), chosen;
      }
      if answers.head.value >= |candidates| {
        return Failed(Internal), chosen;
      }
      var newHead := candidates[answers.head.value];
      assert newHead in candidates;
      chosen := Some(newHead);
      assert IsHeadPick(snapshot.refs, newHead) by {
        assert PicksFrom(candidates, answers.head.value, newHead);
      }
      outcome := NameBranch(newHead, p, start);
      if outcome == Finished {
        snapshot.head := Some(newHead);
      }
    }

    /** The branch at the picked place among the candidates. */
    ghost predicate IsHeadPick(refs: map<string, RefSnapshot>, ref: string) {
      answers.head.Some? && exists list :: ListsCandidates(refs, list) && PicksFrom(list, answers.head.value, ref)
    }

    predicate PicksFrom(list: seq<string>, pick: nat, ref: string) {
      pick < |list| && list[pick] == ref
    }

    lemma PickIsCandidate(refs: map<string, RefSnapshot>, ref: string)
      requires IsHeadPick(refs, ref)
      ensures IsCandidate(refs, ref)
    {
      var list :| ListsCandidates(refs, list) && PicksFrom(list, answers.head.value, ref);
      assert ref in list;
    }

    /** A branch is offered, and the answer picks one of them. */
    ghost predicate HeadPickInRange(refs: map<string, RefSnapshot>) {
      answers.head.Some? && answers.head.value < |CandidateSet(refs)|
    }

    /**
     * The requests from `i` on: one listing of the branch, and HEAD exactly when it shows
     * branch data. Without any the snapshot is stale, for a branch deleted when nothing at all is listed.
     */
    ghost predicate NamesAsListed(log: seq<Event>, i: nat, name: string, outcome: Outcome) {
      && i < |log| <= i + 2 && log[i].request.Listed? && log[i].request.prefix == RefListingPrefix(prefix, name)
      && var listing := log[i].request.listing;
      && (|log| == i + 2 <==> listing.Ok? && HasBranchData(listing.value))
      && (|log| == i + 2 ==>
           log[i + 1].request.Put? && log[i + 1].request.key == HeadKey(prefix) && log[i + 1].request.text == name)
      && outcome == if listing.Err? then Failed(StoreFailed)
                    else if !HasBranchData(listing.value)
                    then Failed(StaleSnapshot(name, if listing.value == [] then DeletedMeanwhile else ResidueOnly))
                    else if log[i + 1].request.put.Ok? then Finished else Failed(StoreFailed)
    }

    /** The end of `fix_head`: list the chosen branch again, and name it only if branch data is still there. */
    method NameBranch(name: string, ghost p: Plan, ghost start: seq<Event>) returns (outcome: Outcome)
      requires store.Valid() && Follows(p) && Disciplined(p, start, store.log) && StartsWith(name, "refs/heads/")
      modifies store
      ensures store.Valid() && Disciplined(p, start, store.log) && Extends(old(store.log), store.log)
      ensures NamesAsListed(store.log, |old(store.log)|, name, outcome)
      ensures outcome == Failed(StoreFailed) ==> !FaultFree(old(store.log), store.log)
      ensures store.quiet ==> forall k :: k != HeadKey(prefix) ==> KeptAt(old(store.bucket), store.bucket, k)
      ensures store.quiet && IsStaleSnapshot(outcome) ==>
                store.bucket == old(store.bucket) && !HasDataAt(prefix, hidden, store.bucket, name)
      ensures outcome == Finished && store.quiet ==> HasBody(store.bucket, HeadKey(prefix), Utf8(name))
    {
      ghost var log0 := store.log;
      var listed := store.List(RefListingPrefix(prefix, name));
      HarmlessStep(p, start, log0, store.log);
      if listed.Err? {
        return Failed(StoreFailed);
      }
      if !HasBranchData(listed.value) {
        if HasDataAt(prefix, hidden, store.bucket, name) {
          DataIsListed(prefix, hidden, store.bucket, name, listed.value);
        }
        var reason := if listed.value != [] then ResidueOnly else DeletedMeanwhile;
        return Failed(StaleSnapshot(name, reason));
      }
      ghost var log1 := store.log;
      var put := store.PutBytes(HeadKey(prefix), name);
      assert store.log[|log0|] == log1[|log0|];
      NamingStep(p, start, log1, store.log);
      ExtendsFurther(log0, log1, store.log);
      outcome := if put.Ok? then Finished else Failed(StoreFailed);
    }

    /** The plan of a run, from what its snapshot shows. */
    ghost function PlanFor(refs: map<string, RefSnapshot>): Plan {
      Plan(prefix, !deleteBundle, LockTtl(), answers.suffix, answers.confirm,
           map ref | ref in refs :: ShasOf(refs[ref].bundles),
           map ref |
             ref in refs && |refs[ref].bundles| > 1 && ref in answers.keep && answers.keep[ref] < |refs[ref].bundles|
             :: refs[ref].bundles[answers.keep[ref]].sha)
    }

    lemma RefIsRight(refs: map<string, RefSnapshot>, objects: seq<ObjectMeta>, bucket: Bucket, ref: string)
      requires IsListing(objects, ListPrefix(prefix), bucket) && RefsShow(refs, Items(prefix, hidden, objects))
      ensures WellFormed(prefix, ref, EntryOf(refs, ref).bundles)
      ensures forall sha :: sha in ShasOf(EntryOf(refs, ref).bundles) <==> HasBundle(prefix, hidden, bucket, ref, sha)
      ensures EntryOf(refs, ref).hasChain == HasChain(prefix, hidden, bucket, ref)
    {
      var items := Items(prefix, hidden, objects);
      var bundles := BundlesOf(items, ref);
      assert RefShows(EntryOf(refs, ref), items, ref);
      ChainIsOnBucket(prefix, hidden, bucket, objects, ref);
      forall sha ensures sha in ShasOf(bundles) <==> HasBundle(prefix, hidden, bucket, ref, sha) {
        BundlesAreOnBucket(prefix, hidden, bucket, objects, ref, sha);
      }
      forall i | 0 <= i < |bundles|
        ensures IsValidBundleStem(bundles[i].sha) && bundles[i].key == BundleKey(prefix, ref, bundles[i].sha)
      {
        BundleIsItem(items, ref, bundles[i]);
        ShownIsOnBucket(prefix, hidden, bucket, objects, ref, bundles[i]);
      }
      forall i, j | 0 <= i < j < |bundles| ensures bundles[i].sha != bundles[j].sha {
        DistinctShas(prefix, hidden, objects, ref, i, j);
      }
    }

    lemma PlanIsRight(refs: map<string, RefSnapshot>, objects: seq<ObjectMeta>, bucket: Bucket)
      requires IsListing(objects, ListPrefix(prefix), bucket) && RefsShow(refs, Items(prefix, hidden, objects))
      ensures ValidPlan(PlanFor(refs)) && PlanOf(PlanFor(refs), hidden, bucket)
      ensures forall ref :: ref in refs ==>
                WellFormed(prefix, ref, refs[ref].bundles) && PlansRef(PlanFor(refs), ref, refs[ref].bundles)
    {
      PlanIsOfBucket(refs, objects, bucket);
      forall ref | ref in refs
        ensures WellFormed(prefix, ref, refs[ref].bundles) && PlansRef(PlanFor(refs), ref, refs[ref].bundles)
      {
        RefIsRight(refs, objects, bucket, ref);
      }
      PlanIsValid(refs);
    }

    lemma PlanIsValid(refs: map<string, RefSnapshot>)
      requires forall ref :: ref in refs ==> WellFormed(prefix, ref, refs[ref].bundles)
      ensures ValidPlan(PlanFor(refs))
    {
    }

    lemma PlanIsOfBucket(refs: map<string, RefSnapshot>, objects: seq<ObjectMeta>, bucket: Bucket)
      requires IsListing(objects, ListPrefix(prefix), bucket) && RefsShow(refs, Items(prefix, hidden, objects))
      ensures PlanOf(PlanFor(refs), hidden, bucket)
    {
      var p := PlanFor(refs);
      forall ref, sha ensures HasBundle(p.prefix, hidden, bucket, ref, sha) <==> ref in p.shown && sha in p.shown[ref] {
        RefIsRight(refs, objects, bucket, ref);
      }
      forall ref | HasDataAt(p.prefix, hidden, bucket, ref) ensures ref in p.shown {
        SnapshotData(refs, objects, bucket, ref);
      }
    }

    /** The refs of the list have no loser left. */
    ghost predicate LosersGone(p: Plan, list: seq<string>, bucket: Bucket) {
      forall ref, sha :: ref in list && IsLoser(p, ref, sha) ==> BundleKey(prefix, ref, sha) !in bucket
    }

    /** What going through these refs does to a quiet bucket. */
    ghost predicate WentThrough(p: Plan, list: seq<string>, start: Bucket, now: Bucket) {
      && (forall k :: !IsMoved(p, k) ==> KeptAt(start, now, k))
      && (AllConfirmed(p) && FreshSuffixes(p) ==> LosersGone(p, list, now))
    }

    /** The fixing loop of `run_into` over the refs with several bundles. */
    method FixAll(snapshot: RepoSnapshot, list: seq<string>, ghost p: Plan, ghost start: seq<Event>)
      returns (outcome: Outcome)
      requires store.Valid() && Follows(p) && ValidPlan(p) && Disciplined(p, start, store.log)
      requires forall i, j :: 0 <= i < j < |list| ==> list[i] != list[j]
      requires forall i :: 0 <= i < |list| ==> CanFix(p, snapshot.refs, list[i])
      modifies store, snapshot`refs
      ensures store.Valid() && Disciplined(p, start, store.log) && Extends(old(store.log), store.log)
      ensures outcome == Finished ==> AllAnswered(p, list) && LosersEvicted(p, list, store.log, |start|)
      ensures AllAnswered(p, list) ==> outcome in {Finished, Failed(StoreFailed)} || IsStaleSnapshot(outcome)
      ensures outcome == Failed(StoreFailed) ==> !FaultFree(old(store.log), store.log)
      ensures store.quiet && outcome == Finished ==> WentThrough(p, list, old(store.bucket), store.bucket)
      ensures store.quiet && FreshSuffixes(p) && KeepersThere(p, old(store.bucket)) ==> !IsStaleSnapshot(outcome)
      ensures SameData(old(snapshot.refs), snapshot.refs)
      ensures list == [] ==> outcome == Finished && store.log == old(store.log) && store.bucket == old(store.bucket)
    {
      outcome := Finished;
      for i := 0 to |list|
        invariant outcome == Finished && store.Valid() && Disciplined(p, start, store.log)
                    && Extends(old(store.log), store.log)
        invariant AllAnswered(p, list[..i]) && LosersEvicted(p, list[..i], store.log, |start|)
        invariant forall j :: i <= j < |list| ==> CanFix(p, snapshot.refs, list[j])
        invariant SameData(old(snapshot.refs), snapshot.refs)
        invariant store.quiet ==> WentThrough(p, list[..i], old(store.bucket), store.bucket)
        invariant i == 0 ==> store.log == old(store.log) && store.bucket == old(store.bucket)
      {
        ghost var before, was, log := store.bucket, snapshot.refs, store.log;
        KeeperStays(p, list[i], list[..i], old(store.bucket), before);
        outcome := FixMultipleBundles(snapshot, list[i], p, start);
        ExtendsFurther(old(store.log), log, store.log);
        ThinnedKeepsRest(p, was, snapshot.refs, list, i);
        if outcome != Finished {
          return;
        }
        MoreEvicted(p, list, i, log, store.log, |start|);
        if store.quiet {
          WentFurther(p, list, i, old(store.bucket), before, store.bucket);
        }
      }
      assert list[..|list|] == list;
    }

    /** Each of these refs got a pick in range and an answer. */
    ghost predicate AllAnswered(p: Plan, list: seq<string>) {
      forall ref :: ref in list ==> ref in p.keepers && ref in p.confirm
    }

    /** Every loser of a confirmed ref of the list was deleted or found gone. */
    ghost predicate LosersEvicted(p: Plan, list: seq<string>, log: seq<Event>, from: nat) {
      forall ref, sha :: ref in list && SaidYes(p, ref) && IsLoser(p, ref, sha) ==> Evicted(p, log, from, ref, sha)
    }

    lemma MoreEvicted(p: Plan, list: seq<string>, i: nat, log: seq<Event>, log': seq<Event>, from: nat)
      requires i < |list| && Extends(log, log') && LosersEvicted(p, list[..i], log, from)
      requires SaidYes(p, list[i]) ==> forall sha :: IsLoser(p, list[i], sha) ==> Evicted(p, log', from, list[i], sha)
      ensures LosersEvicted(p, list[..i + 1], log', from)
    {
      forall ref, sha | ref in list[..i + 1] && SaidYes(p, ref) && IsLoser(p, ref, sha)
        ensures Evicted(p, log', from, ref, sha)
      {
        if ref != list[i] {
          assert ref in list[..i];
          EvictedStays(p, log, log', from, ref, sha);
        }
      }
    }

    /** A ref of the snapshot with several bundles that the plan is right about. */
    ghost predicate CanFix(p: Plan, refs: map<string, RefSnapshot>, ref: string) {
      && ref in refs && |refs[ref].bundles| > 1
      && WellFormed(prefix, ref, refs[ref].bundles) && PlansRef(p, ref, refs[ref].bundles)
    }

    ghost predicate KeepersThere(p: Plan, bucket: Bucket) {
      forall ref :: ref in p.keepers ==> KeeperKey(p, ref) in bucket
    }

    lemma KeeperStays(p: Plan, ref: string, list: seq<string>, start: Bucket, now: Bucket)
      requires ValidPlan(p)
      ensures FreshSuffixes(p) && WentThrough(p, list, start, now) && KeepersThere(p, start) && ref in p.keepers ==>
                KeeperKey(p, ref) in now
    {
      if FreshSuffixes(p) && WentThrough(p, list, start, now) && KeepersThere(p, start) && ref in p.keepers {
        KeeperIsNotMoved(p, ref);
        assert KeptAt(start, now, KeeperKey(p, ref));
      }
    }

    lemma ThinnedKeepsRest(p: Plan, was: map<string, RefSnapshot>, refs: map<string, RefSnapshot>, list: seq<string>,
                           i: nat)
      requires i < |list| && OnlyThinned(was, refs, list[i])
                 && forall m, j :: 0 <= m < j < |list| ==> list[m] != list[j]
      ensures SameData(was, refs)
      ensures forall j :: i < j < |list| && CanFix(p, was, list[j]) ==> CanFix(p, refs, list[j])
    {
    }

    lemma WentFurther(p: Plan, list: seq<string>, i: nat, start: Bucket, before: Bucket, after: Bucket)
      requires i < |list| && ValidPlan(p) && Follows(p) && WentThrough(p, list[..i], start, before)
      requires AllConfirmed(p) ==> forall sha :: IsLoser(p, list[i], sha) ==> BundleKey(prefix, list[i], sha) !in after
      requires OnlyMoved(p, list[i], before, after)
      ensures WentThrough(p, list[..i + 1], start, after)
    {
      forall k | !IsMoved(p, k) ensures KeptAt(start, after, k) {
        assert !IsMovedFor(p, list[i], k);
        assert KeptAt(start, before, k) && KeptAt(before, after, k);
      }
      if AllConfirmed(p) && FreshSuffixes(p) {
        forall ref, sha | ref in list[..i + 1] && IsLoser(p, ref, sha) ensures BundleKey(prefix, ref, sha) !in after {
          if ref != list[i] {
            assert ref in list[..i];
            OtherLoserIsNotMoved(p, ref, sha, list[i]);
            assert KeptAt(before, after, BundleKey(prefix, ref, sha));
          }
        }
      }
    }

    lemma OtherLoserIsNotMoved(p: Plan, ref: string, sha: string, other: string)
      requires ValidPlan(p) && FreshSuffixes(p) && Follows(p) && IsLoser(p, ref, sha) && ref != other
      ensures !IsMovedFor(p, other, BundleKey(prefix, ref, sha))
    {
      forall s | IsLoser(p, other, s) ensures !Moves(p, other, s, BundleKey(prefix, ref, sha)) {
        LosersDoNotMeet(p, ref, sha, other, s);
      }
    }

    /** The first request since `from` is the listing of the repository, with these objects or a failure. */
    ghost predicate ListsFirst(log: seq<Event>, from: nat, objects: Reply<seq<ObjectMeta>>) {
      from < |log| && log[from].request == Listed(ListPrefix(prefix), objects)
    }

    /** The first part of `run_into`: one listing, and the snapshot it gives. */
    method Analyse() returns (r: Reply<Done>, objects: Reply<seq<ObjectMeta>>, snapshot: RepoSnapshot, ghost at: Bucket)
      requires store.Valid()
      modifies store
      ensures store.Valid() && OnlyRead(old(store.log), store.log) && fresh(snapshot)
      ensures ListsFirst(store.log, |old(store.log)|, objects)
      ensures store.quiet ==> store.log[|old(store.log)|].before == old(store.bucket)
      ensures store.quiet ==> store.bucket == old(store.bucket) && at == old(store.bucket)
      ensures store.quiet && r.Err? ==> !FaultFree(old(store.log), store.log)
      ensures objects.Ok? ==> IsListing(objects.value, ListPrefix(prefix), at)
      ensures r.Ok? ==> objects.Ok? && RefsShow(snapshot.refs, Items(prefix, hidden, objects.value))
      ensures r.Ok? && store.quiet ==> snapshot.head == HeadIn(prefix, hidden, objects.value, at)
    {
      ghost var was := store.log;
      objects := store.List(ListPrefix(prefix));
      at := store.bucket;
      if objects.Err? {
        snapshot := new RepoSnapshot();
        r := Err(objects.error);
        return;
      }
      ghost var log := store.log;
      r, snapshot := AnalyzeObjects(store, prefix, hidden, objects.value);
      ExtendsFurther(was, log, store.log);
      AllListed(objects.value, ListPrefix(prefix), at);
      assert forall i :: 0 <= i < |log| ==> store.log[i] == store.log[..|log|][i];
    }

    /**
     * The HEAD step of `run_into`: untouched when valid. In a quiet bucket it leaves HEAD
     * settled, and never finds the snapshot stale.
     */
    method SettleHead(snapshot: RepoSnapshot, ghost p: Plan, ghost log0: seq<Event>)
      returns (outcome: Outcome, ghost chosen: Option<string>)
      requires store.Valid() && Follows(p) && Disciplined(p, log0, store.log)
      modifies store, snapshot`head
      ensures store.Valid() && Disciplined(p, log0, store.log) && Extends(old(store.log), store.log)
      ensures store.quiet ==> SameRefs(prefix, old(store.bucket), store.bucket)
      ensures store.quiet ==> forall k :: k != HeadKey(prefix) ==> KeptAt(old(store.bucket), store.bucket, k)
      ensures HeadIsFine(old(snapshot.head), snapshot.refs) ==>
                outcome == Finished && chosen == None && store.bucket == old(store.bucket)
                    && store.log == old(store.log)
      ensures store.quiet && outcome == Finished ==>
                HeadSet(snapshot.refs, old(snapshot.head), chosen, old(store.bucket), store.bucket)
      ensures HeadPickInRange(snapshot.refs) ==> outcome in {Finished, Failed(StoreFailed)} || IsStaleSnapshot(outcome)
      ensures outcome == Failed(StoreFailed) ==> !FaultFree(old(store.log), store.log)
      ensures store.quiet && CandidatesHaveData(snapshot.refs, old(store.bucket)) ==> !IsStaleSnapshot(outcome)
    {
      if snapshot.IsHeadValid() {
        return Finished, None;
      }
      outcome, chosen := FixHead(snapshot, p, log0);
    }

    /** HEAD is valid, or there is no branch to name. */
    predicate HeadIsFine(head: Option<string>, refs: map<string, RefSnapshot>) {
      HeadValid(head, refs) || NoCandidates(refs)
    }

    ghost predicate CandidatesHaveData(refs: map<string, RefSnapshot>, bucket: Bucket) {
      forall ref :: IsCandidate(refs, ref) ==> HasDataAt(prefix, hidden, bucket, ref)
    }

    /** The snapshot and the bucket agree on which refs have data. */
    lemma SnapshotData(refs: map<string, RefSnapshot>, objects: seq<ObjectMeta>, bucket: Bucket, ref: string)
      requires IsListing(objects, ListPrefix(prefix), bucket) && RefsShow(refs, Items(prefix, hidden, objects))
      ensures EntryOf(refs, ref).HasBranchData() <==> HasDataAt(prefix, hidden, bucket, ref)
    {
      RefIsRight(refs, objects, bucket, ref);
      var bundles := EntryOf(refs, ref).bundles;
      if bundles != [] {
        assert bundles[0].sha in ShasOf(bundles);
      }
    }

    /** The snapshot is the bucket's own. */
    ghost predicate Shows(refs: map<string, RefSnapshot>, head: Option<string>, objects: seq<ObjectMeta>,
                          bucket: Bucket)
    {
      && IsListing(objects, ListPrefix(prefix), bucket) && RefsShow(refs, Items(prefix, hidden, objects))
      && head == HeadIn(prefix, hidden, objects, bucket)
    }

    lemma HeadValidIff(head: Option<string>, refs: map<string, RefSnapshot>, objects: seq<ObjectMeta>, bucket: Bucket)
      requires IsListing(objects, ListPrefix(prefix), bucket) && RefsShow(refs, Items(prefix, hidden, objects))
      requires head == HeadIn(prefix, hidden, objects, bucket) && HeadKey(prefix) !in hidden
      ensures HeadValid(head, refs) <==> HeadNamesData(prefix, hidden, bucket)
      ensures NoCandidates(refs) <==> NoBranchToName(prefix, hidden, bucket)
    {
      HeadKeyIs(prefix, HeadKey(prefix));
      assert HeadKey(prefix) in bucket <==> Lists(objects, HeadKey(prefix));
      if head.Some? {
        SnapshotData(refs, objects, bucket, head.value);
      }
      forall ref
        ensures IsCandidate(refs, ref) <==> StartsWith(ref, "refs/heads/") && HasDataAt(prefix, hidden, bucket, ref)
      {
        SnapshotData(refs, objects, bucket, ref);
      }
      if NoCandidates(refs) {
        forall ref | StartsWith(ref, "refs/heads/") ensures !HasDataAt(prefix, hidden, bucket, ref) {
          assert !IsCandidate(refs, ref);
        }
      }
    }

    /** Branch names that HEAD can hold. */
    ghost predicate CleanBranches(bucket: Bucket) {
      forall ref :: StartsWith(ref, "refs/heads/") && HasDataAt(prefix, hidden, bucket, ref) ==>
          !HasOuterWhitespace(ref)
    }

    /** What the fixes of a finished run do to a quiet bucket, step by step. */
    ghost predicate FixesMade(refs: map<string, RefSnapshot>, head: Option<string>, list: seq<string>,
                              chosen: Option<string>, start: Bucket, evicted: Bucket, headed: Bucket)
    {
      && SeveralBundles(refs, list)
      && AllAnswered(PlanFor(refs), list)
      && WentThrough(PlanFor(refs), list, start, evicted)
      && HeadSet(refs, head, chosen, evicted, headed)
    }

    /** The HEAD step: nothing when HEAD is fine, else the picked branch is named. */
    ghost predicate HeadSet(refs: map<string, RefSnapshot>, head: Option<string>, chosen: Option<string>,
                            before: Bucket, after: Bucket)
    {
      && SameRefs(prefix, before, after)
      && if HeadIsFine(head, refs) then chosen == None && after == before
         else chosen.Some? && IsHeadPick(refs, chosen.value) && HasBody(after, HeadKey(prefix), Utf8(chosen.value))
    }

    lemma SameOffersSameHead(was: map<string, RefSnapshot>, refs: map<string, RefSnapshot>, head: Option<string>,
                             chosen: Option<string>, before: Bucket, after: Bucket)
      requires SameOffers(was, refs, head) && HeadSet(refs, head, chosen, before, after)
      ensures HeadSet(was, head, chosen, before, after)
    {
      if !HeadIsFine(head, refs) {
        var list :| ListsCandidates(refs, list) && PicksFrom(list, answers.head.value, chosen.value);
        assert ListsCandidates(was, list);
      }
    }

    /** They add up to a repaired bucket. */
    lemma RunConcludes(refs: map<string, RefSnapshot>, objects: seq<ObjectMeta>, head: Option<string>,
                       list: seq<string>, chosen: Option<string>, start: Bucket, evicted: Bucket, headed: Bucket,
                       end: Bucket)
      requires Shows(refs, head, objects, start) && HeadKey(prefix) !in hidden
      requires FixesMade(refs, head, list, chosen, start, evicted, headed)
      requires AllConfirmed(PlanFor(refs)) && FreshSuffixes(PlanFor(refs)) && CleanBranches(start)
      requires forall k :: !IsLockKey(k) ==> KeptAt(headed, end, k)
      ensures Repaired(prefix, hidden, end)
    {
      var p := PlanFor(refs);
      PlanIsRight(refs, objects, start);
      HeadIsSettled(refs, objects, head, list, chosen, start, evicted, headed);
      EveryoneChosen(refs, list);
      LosersAreGone(refs, list, start, evicted);
      HeadIsNoLock(prefix);
      RunRepairs(p, hidden, start, evicted, headed, end, chosen);
    }

    lemma HeadIsSettled(refs: map<string, RefSnapshot>, objects: seq<ObjectMeta>, head: Option<string>,
                        list: seq<string>, chosen: Option<string>, start: Bucket, evicted: Bucket, headed: Bucket)
      requires Shows(refs, head, objects, start) && HeadKey(prefix) !in hidden && CleanBranches(start)
      requires FixesMade(refs, head, list, chosen, start, evicted, headed)
      ensures HeadSettled(prefix, hidden, start, evicted, headed, chosen)
    {
      HeadValidIff(head, refs, objects, start);
      if chosen.Some? {
        PickIsCandidate(refs, chosen.value);
        SnapshotData(refs, objects, start, chosen.value);
      }
    }

    /** The branches with data on the bucket, in the order of their names. */
    ghost predicate ListsBranches(list: seq<string>, bucket: Bucket) {
      && IsSorted(list)
      && forall ref :: ref in list <==> StartsWith(ref, "refs/heads/") && HasDataAt(prefix, hidden, bucket, ref)
    }

    predicate NamesPick(list: seq<string>, pick: nat, bucket: Bucket) {
      pick < |list| && HasBody(bucket, HeadKey(prefix), Utf8(list[pick]))
    }

    /** HEAD is left alone when it names data or no branch has any; otherwise it names the picked one. */
    ghost predicate HeadEnds(start: Bucket, end: Bucket) {
      if HeadNamesData(prefix, hidden, start) || NoBranchToName(prefix, hidden, start)
      then KeptAt(start, end, HeadKey(prefix))
      else answers.head.Some? && exists list :: ListsBranches(list, start) && NamesPick(list, answers.head.value, end)
    }

    lemma HeadEndsAsPicked(refs: map<string, RefSnapshot>, objects: seq<ObjectMeta>, head: Option<string>,
                           list: seq<string>, chosen: Option<string>, start: Bucket, evicted: Bucket, headed: Bucket,
                           end: Bucket)
      requires Shows(refs, head, objects, start) && HeadKey(prefix) !in hidden
      requires FixesMade(refs, head, list, chosen, start, evicted, headed)
      requires forall k :: !IsLockKey(k) ==> KeptAt(headed, end, k)
      ensures HeadEnds(start, end)
    {
      HeadIsNoLock(prefix);
      HeadValidIff(head, refs, objects, start);
      if HeadIsFine(head, refs) {
        assert KeptAt(start, evicted, HeadKey(prefix));
      } else {
        var names :| ListsCandidates(refs, names) && PicksFrom(names, answers.head.value, chosen.value);
        forall ref
          ensures IsCandidate(refs, ref) <==> StartsWith(ref, "refs/heads/") && HasDataAt(prefix, hidden, start, ref)
        {
          SnapshotData(refs, objects, start, ref);
        }
        assert ListsBranches(names, start) && NamesPick(names, answers.head.value, end);
      }
    }

    lemma LosersAreGone(refs: map<string, RefSnapshot>, list: seq<string>, start: Bucket, evicted: Bucket)
      requires SeveralBundles(refs, list) && WentThrough(PlanFor(refs), list, start, evicted)
      requires AllConfirmed(PlanFor(refs)) && FreshSuffixes(PlanFor(refs))
      ensures PlanDone(PlanFor(refs), start, evicted)
    {
    }

    lemma EveryoneChosen(refs: map<string, RefSnapshot>, list: seq<string>)
      requires SeveralBundles(refs, list)
      requires AllAnswered(PlanFor(refs), list)
      ensures AllChosen(PlanFor(refs))
    {
      var p := PlanFor(refs);
      forall ref, sha, sha' | ref in p.shown && sha in p.shown[ref] && sha' in p.shown[ref] && sha != sha'
        ensures ref in p.keepers
      {
        var bundles := refs[ref].bundles;
        var i :| 0 <= i < |bundles| && bundles[i].sha == sha;
        var j :| 0 <= j < |bundles| && bundles[j].sha == sha';
        assert ref in list;
      }
    }

    /** In a repaired bucket a run has no ref to thin out and no HEAD to set. */
    lemma NothingToFix(refs: map<string, RefSnapshot>, objects: seq<ObjectMeta>, head: Option<string>,
                       list: seq<string>, bucket: Bucket)
      requires IsListing(objects, ListPrefix(prefix), bucket) && RefsShow(refs, Items(prefix, hidden, objects))
      requires head == HeadIn(prefix, hidden, objects, bucket) && HeadKey(prefix) !in hidden
      requires SeveralBundles(refs, list)
      requires Repaired(prefix, hidden, bucket)
      ensures list == [] && HeadIsFine(head, refs)
    {
      HeadValidIff(head, refs, objects, bucket);
      if list != [] {
        assert list[0] in list;
        SeveralAreOnBucket(refs, objects, bucket, list[0]);
      }
    }

    lemma SeveralAreOnBucket(refs: map<string, RefSnapshot>, objects: seq<ObjectMeta>, bucket: Bucket, ref: string)
      requires IsListing(objects, ListPrefix(prefix), bucket) && RefsShow(refs, Items(prefix, hidden, objects))
      requires |EntryOf(refs, ref).bundles| > 1
      ensures !OneBundleEach(prefix, hidden, bucket)
    {
      RefIsRight(refs, objects, bucket, ref);
      var bundles := EntryOf(refs, ref).bundles;
      assert bundles[0].sha in ShasOf(bundles) && bundles[1].sha in ShasOf(bundles);
    }

    lemma KeepersOnBucket(p: Plan, bucket: Bucket)
      requires Follows(p) && ValidPlan(p) && PlanOf(p, hidden, bucket)
      ensures KeepersThere(p, bucket)
    {
      forall ref | ref in p.keepers ensures KeeperKey(p, ref) in bucket {
        assert HasBundle(p.prefix, hidden, bucket, ref, p.keepers[ref]);
      }
    }

    /** Thinning out changes neither HEAD's validity nor the candidates, and each keeps its data. */
    lemma ThinningKeepsCandidates(refs: map<string, RefSnapshot>, refs': map<string, RefSnapshot>, head: Option<string>)
      requires SameData(refs, refs')
      ensures HeadValid(head, refs') <==> HeadValid(head, refs)
      ensures forall ref :: IsCandidate(refs', ref) <==> IsCandidate(refs, ref)
      ensures NoCandidates(refs') <==> NoCandidates(refs)
      ensures CandidateSet(refs') == CandidateSet(refs)
    {
      assert forall ref :: IsCandidate(refs', ref) <==> IsCandidate(refs, ref);
    }

    lemma CandidatesKeepData(refs: map<string, RefSnapshot>, objects: seq<ObjectMeta>, list: seq<string>,
                             start: Bucket, evicted: Bucket)
      requires IsListing(objects, ListPrefix(prefix), start) && RefsShow(refs, Items(prefix, hidden, objects))
      requires FreshSuffixes(PlanFor(refs)) && WentThrough(PlanFor(refs), list, start, evicted)
      ensures CandidatesHaveData(refs, evicted)
    {
      PlanIsRight(refs, objects, start);
      forall ref | IsCandidate(refs, ref) ensures HasDataAt(prefix, hidden, evicted, ref) {
        SnapshotData(refs, objects, start, ref);
        PlanKeepsData(PlanFor(refs), hidden, start, evicted, ref);
      }
    }

    /** Every ref with several bundles gets a pick in range and an answer, and HEAD a pick in range if it needs one. */
    ghost predicate AnswersFit(p: Plan, refs: map<string, RefSnapshot>, head: Option<string>) {
      && (forall ref :: ref in refs && |refs[ref].bundles| > 1 ==> ref in p.keepers && ref in p.confirm)
      && (HeadIsFine(head, refs) || HeadPickInRange(refs))
    }

    /** HEAD needs repair or not, and the same branches are offered. */
    ghost predicate SameOffers(was: map<string, RefSnapshot>, refs: map<string, RefSnapshot>, head: Option<string>) {
      && (HeadIsFine(head, refs) <==> HeadIsFine(head, was)) && CandidateSet(refs) == CandidateSet(was)
      && forall ref :: IsCandidate(refs, ref) <==> IsCandidate(was, ref)
    }

    /** The first fix of `run_into`: thin out every ref with several bundles. */
    method FixRefs(objects: seq<ObjectMeta>, snapshot: RepoSnapshot, ghost p: Plan, ghost log0: seq<Event>)
      returns (outcome: Outcome, ghost list: seq<string>)
      requires store.Valid() && HeadKey(prefix) !in hidden && p == PlanFor(snapshot.refs) && ValidPlan(p)
      requires Disciplined(p, log0, store.log)
      requires forall ref :: ref in snapshot.refs ==>
                 WellFormed(prefix, ref, snapshot.refs[ref].bundles) && PlansRef(p, ref, snapshot.refs[ref].bundles)
      requires store.quiet ==> Shows(snapshot.refs, snapshot.head, objects, store.bucket)
      modifies store, snapshot`refs
      ensures store.Valid() && Disciplined(p, log0, store.log) && Extends(old(store.log), store.log)
      ensures SeveralBundles(old(snapshot.refs), list) && SameOffers(old(snapshot.refs), snapshot.refs, snapshot.head)
      ensures outcome == Finished ==> AllAnswered(p, list) && LosersEvicted(p, list, store.log, |log0|)
      ensures outcome == Failed(StoreFailed) ==> !FaultFree(old(store.log), store.log)
      ensures AllAnswered(p, list) ==> outcome in {Finished, Failed(StoreFailed)} || IsStaleSnapshot(outcome)
      ensures store.quiet && outcome == Finished ==> WentThrough(p, list, old(store.bucket), store.bucket)
      ensures store.quiet && FreshSuffixes(p) ==>
                !IsStaleSnapshot(outcome) && (outcome == Finished ==> CandidatesHaveData(snapshot.refs, store.bucket))
      ensures store.quiet && Repaired(prefix, hidden, old(store.bucket)) ==>
                HeadIsFine(snapshot.head, snapshot.refs) && outcome == Finished && store.bucket == old(store.bucket)
    {
      ghost var start, refs := store.bucket, snapshot.refs;
      var dups := DuplicatedRefs(snapshot.refs);
      list := dups;
      if store.quiet {
        BeforeFixing(refs, objects, snapshot.head, list, start);
      }
      outcome := FixAll(snapshot, dups, p, log0);
      ThinningKeepsCandidates(refs, snapshot.refs, snapshot.head);
      if store.quiet && FreshSuffixes(p) && outcome == Finished {
        CandidatesKeepData(refs, objects, list, start, store.bucket);
      }
    }

    /** The two fixes of `run_into`. */
    method FixRefsAndHead(objects: seq<ObjectMeta>, snapshot: RepoSnapshot, ghost p: Plan, ghost log0: seq<Event>)
      returns (outcome: Outcome, ghost list: seq<string>, ghost chosen: Option<string>, ghost evicted: Bucket)
      requires store.Valid() && HeadKey(prefix) !in hidden && p == PlanFor(snapshot.refs) && ValidPlan(p)
      requires Disciplined(p, log0, store.log)
      requires forall ref :: ref in snapshot.refs ==>
                 WellFormed(prefix, ref, snapshot.refs[ref].bundles) && PlansRef(p, ref, snapshot.refs[ref].bundles)
      requires store.quiet ==> Shows(snapshot.refs, snapshot.head, objects, store.bucket)
      modifies store, snapshot
      ensures store.Valid() && Disciplined(p, log0, store.log) && Extends(old(store.log), store.log)
      ensures SeveralBundles(old(snapshot.refs), list)
      ensures outcome == Finished ==> AllAnswered(p, list) && LosersEvicted(p, list, store.log, |log0|)
      ensures outcome == Failed(StoreFailed) ==> !FaultFree(old(store.log), store.log)
      ensures AnswersFit(p, old(snapshot.refs), old(snapshot.head)) ==>
                outcome in {Finished, Failed(StoreFailed)} || IsStaleSnapshot(outcome)
      ensures store.quiet && outcome == Finished ==>
                FixesMade(old(snapshot.refs), old(snapshot.head), list, chosen, old(store.bucket), evicted,
                    store.bucket)
      ensures store.quiet && FreshSuffixes(p) ==> !IsStaleSnapshot(outcome)
      ensures store.quiet && Repaired(prefix, hidden, old(store.bucket)) ==>
                store.bucket == old(store.bucket) && outcome == Finished
    {
      outcome, list := FixRefs(objects, snapshot, p, log0);
      chosen, evicted := None, store.bucket;
      if outcome == Finished {
        ghost var log, head := store.log, snapshot.head;
        outcome, chosen := SettleHead(snapshot, p, log0);
        if store.quiet && outcome == Finished {
          SameOffersSameHead(old(snapshot.refs), snapshot.refs, head, chosen, evicted, store.bucket);
        }
        ExtendsFurther(old(store.log), log, store.log);
        StillEvicted(p, list, log, store.log, |log0|);
      }
    }

    lemma StillEvicted(p: Plan, list: seq<string>, log: seq<Event>, log': seq<Event>, from: nat)
      requires Extends(log, log') && LosersEvicted(p, list, log, from)
      ensures LosersEvicted(p, list, log', from)
    {
      forall ref, sha | ref in list && SaidYes(p, ref) && IsLoser(p, ref, sha)
        ensures Evicted(p, log', from, ref, sha)
      {
        EvictedStays(p, log, log', from, ref, sha);
      }
    }

    lemma BeforeFixing(refs: map<string, RefSnapshot>, objects: seq<ObjectMeta>, head: Option<string>,
                       list: seq<string>, start: Bucket)
      requires Shows(refs, head, objects, start) && HeadKey(prefix) !in hidden
      requires SeveralBundles(refs, list)
      ensures KeepersThere(PlanFor(refs), start)
      ensures Repaired(prefix, hidden, start) ==> list == [] && HeadIsFine(head, refs)
    {
      PlanIsRight(refs, objects, start);
      KeepersOnBucket(PlanFor(refs), start);
      if Repaired(prefix, hidden, start) {
        NothingToFix(refs, objects, head, list, start);
      }
    }

    /**
     * With the option set, the last requests of the log, after `from`, re-check every stale lock
     * of the listing, and delete those that are still stale and nothing else.
     */
    ghost predicate LocksHandled(log: seq<Event>, from: nat, objects: seq<ObjectMeta>, now: int) {
      deleteStaleLocks ==>
        exists was, deleted, failed ::
          && from <= |was| && OnlyRemovesStaleLocks(was, log, ttl)
          && TallyOf(log, |was|) == Tally(|Scan(now, objects, ttl)|, deleted, failed)
          && forall lock :: lock in Scan(now, objects, ttl) ==> Rechecked(log, |was|, lock.key, ttl)
    }

    /** The last step of `run_into`. */
    method SweepLocks(objects: seq<ObjectMeta>, ghost p: Plan, ghost log0: seq<Event>, now: int)
      requires store.Valid() && Follows(p) && Disciplined(p, log0, store.log)
      modifies store
      ensures store.Valid() && Disciplined(p, log0, store.log) && Extends(old(store.log), store.log)
      ensures LocksHandled(store.log, |log0|, objects, now)
      ensures !deleteStaleLocks ==> store.log == old(store.log) && store.bucket == old(store.bucket)
      ensures store.quiet ==> forall k :: !IsLockKey(k) ==> KeptAt(old(store.bucket), store.bucket, k)
    {
      ghost var log := store.log;
      var _, _, _, _ := HandleStaleLocks(store, objects, ttl, deleteStaleLocks, now);
      LockRemovalsAreDisciplined(p, log0, log, store.log);
    }

    /** The rest of `run_into`, once the snapshot is taken. */
    method FixAndSweep(objects: seq<ObjectMeta>, snapshot: RepoSnapshot, ghost p: Plan, ghost log0: seq<Event>,
                       now: int) returns (outcome: Outcome)
      requires store.Valid() && HeadKey(prefix) !in hidden && p == PlanFor(snapshot.refs) && ValidPlan(p)
      requires Disciplined(p, log0, store.log)
      requires forall ref :: ref in snapshot.refs ==>
                 WellFormed(prefix, ref, snapshot.refs[ref].bundles) && PlansRef(p, ref, snapshot.refs[ref].bundles)
      requires store.quiet ==> Shows(snapshot.refs, snapshot.head, objects, store.bucket)
      modifies store, snapshot
      ensures store.Valid() && Disciplined(p, log0, store.log) && Extends(old(store.log), store.log)
      ensures outcome == Finished ==>
                FixedAll(p, store.log, |log0|) && LocksHandled(store.log, |log0|, objects, now)
      ensures outcome == Failed(StoreFailed) ==> !FaultFree(old(store.log), store.log)
      ensures AnswersFit(p, old(snapshot.refs), old(snapshot.head)) ==>
                outcome in {Finished, Failed(StoreFailed)} || IsStaleSnapshot(outcome)
      ensures store.quiet && outcome == Finished && FreshSuffixes(p) && AllConfirmed(p)
                && CleanBranches(old(store.bucket)) ==>
                Repaired(prefix, hidden, store.bucket)
      ensures store.quiet && outcome == Finished ==> HeadEnds(old(store.bucket), store.bucket)
      ensures store.quiet && FreshSuffixes(p) ==> !IsStaleSnapshot(outcome)
      ensures store.quiet && Repaired(prefix, hidden, old(store.bucket)) ==>
                outcome == Finished && forall k :: !IsLockKey(k) ==> KeptAt(old(store.bucket), store.bucket, k)
    {
      ghost var start, refs, head := store.bucket, snapshot.refs, snapshot.head;
      ghost var list, chosen, evicted;
      outcome, list, chosen, evicted := FixRefsAndHead(objects, snapshot, p, log0);
      if outcome != Finished {
        return;
      }
      ghost var headed, log1 := store.bucket, store.log;
      SweepLocks(objects, p, log0, now);
      ExtendsFurther(old(store.log), log1, store.log);
      StillEvicted(p, list, log1, store.log, |log0|);
      EverythingFixed(refs, list, store.log, |log0|);
      if store.quiet {
        HeadEndsAsPicked(refs, objects, head, list, chosen, start, evicted, headed, store.bucket);
      }
      if store.quiet && FreshSuffixes(p) && AllConfirmed(p) && CleanBranches(start) {
        RunConcludes(refs, objects, head, list, chosen, start, evicted, headed, store.bucket);
      }
    }

    /** Every ref with several bundles was answered for, and every loser of a confirmed one is evicted. */
    ghost predicate FixedAll(p: Plan, log: seq<Event>, from: nat) {
      && AllChosen(p)
      && (forall ref :: ref in p.keepers ==> ref in p.confirm)
      && forall ref, sha :: SaidYes(p, ref) && IsLoser(p, ref, sha) ==> Evicted(p, log, from, ref, sha)
    }

    lemma EverythingFixed(refs: map<string, RefSnapshot>, list: seq<string>, log: seq<Event>, from: nat)
      requires SeveralBundles(refs, list) && AllAnswered(PlanFor(refs), list)
                 && LosersEvicted(PlanFor(refs), list, log, from)
      ensures FixedAll(PlanFor(refs), log, from)
    {
      EveryoneChosen(refs, list);
    }

    // ---------------------------------------------------------------
    // The run.
    // ---------------------------------------------------------------

    /** The plan that a listing and the answers make: nothing else goes into it. */
    ghost predicate PlannedFrom(p: Plan, objects: seq<ObjectMeta>) {
      var items := Items(prefix, hidden, objects);
      && Follows(p)
      && (forall ref :: ref in p.shown <==> Mentioned(items, ref))
      && (forall ref :: ref in p.shown ==> p.shown[ref] == ShasOf(BundlesOf(items, ref)))
      && (forall ref :: ref in p.keepers <==> IsPicked(ref, BundlesOf(items, ref)))
      && (forall ref :: ref in p.keepers ==> p.keepers[ref] == BundlesOf(items, ref)[answers.keep[ref]].sha)
    }

    ghost predicate Mentioned(items: seq<Item>, ref: string) {
      exists item :: item in items && GivesEntry(Some(item), ref)
    }

    /** One of several bundles, and the pick is in range. */
    predicate IsPicked(ref: string, bundles: seq<BundleEntry>) {
      |bundles| > 1 && ref in answers.keep && answers.keep[ref] < |bundles|
    }

    lemma PlansAgree(p: Plan, q: Plan, objects: seq<ObjectMeta>)
      requires PlannedFrom(p, objects) && PlannedFrom(q, objects)
      ensures p == q
    {
      assert p.shown.Keys == q.shown.Keys && p.shown == q.shown;
      assert p.keepers.Keys == q.keepers.Keys && p.keepers == q.keepers;
    }

    lemma EntryIsSaid(refs: map<string, RefSnapshot>, items: seq<Item>, ref: string)
      requires RefsShow(refs, items)
      ensures ref in refs <==> Mentioned(items, ref)
      ensures EntryOf(refs, ref).bundles == BundlesOf(items, ref)
    {
      assert RefShows(EntryOf(refs, ref), items, ref);
      if ref in refs {
        var item := WhatGivesEntry(refs, items, ref);
      }
      if item :| item in items && GivesEntry(Some(item), ref) {
        ItemGivesEntry(refs, items, ref, item);
      }
    }

    lemma PlanIsPlanned(refs: map<string, RefSnapshot>, objects: seq<ObjectMeta>)
      requires RefsShow(refs, Items(prefix, hidden, objects))
      ensures PlannedFrom(PlanFor(refs), objects)
    {
      var items, p := Items(prefix, hidden, objects), PlanFor(refs);
      forall ref
        ensures ref in p.shown <==> Mentioned(items, ref)
        ensures ref in p.shown ==> p.shown[ref] == ShasOf(BundlesOf(items, ref))
        ensures ref in p.keepers <==> IsPicked(ref, BundlesOf(items, ref))
        ensures ref in p.keepers ==> p.keepers[ref] == BundlesOf(items, ref)[answers.keep[ref]].sha
      {
        EntryIsSaid(refs, items, ref);
      }
    }

    /** In whatever order the bucket is listed: every fix has a pick in range, a yes and fresh quarantine names. */
    ghost predicate FixesAgreed(bucket: Bucket) {
      forall objects, p :: IsListing(objects, ListPrefix(prefix), bucket) && PlannedFrom(p, objects)
                           ==> AllChosen(p) && AllConfirmed(p) && FreshSuffixes(p)
    }

    ghost predicate BranchesWithData(branches: set<string>, bucket: Bucket) {
      forall ref :: ref in branches <==> StartsWith(ref, "refs/heads/") && HasDataAt(prefix, hidden, bucket, ref)
    }

    /** HEAD needs no repair, or the pick names one of the branches with data. */
    ghost predicate HeadAgreed(bucket: Bucket) {
      || HeadNamesData(prefix, hidden, bucket)
      || forall branches: set<string> :: BranchesWithData(branches, bucket) && branches != {}
                                         ==> answers.head.Some? && answers.head.value < |branches|
    }

    /** What a run needs of its bucket, its answers and its suffixes, before it starts. */
    ghost predicate WellAnswered(bucket: Bucket) {
      FixesAgreed(bucket) && HeadAgreed(bucket) && CleanBranches(bucket)
    }

    lemma SeveralAreShown(refs: map<string, RefSnapshot>, ref: string)
      requires ref in refs && |refs[ref].bundles| > 1 && WellFormed(prefix, ref, refs[ref].bundles)
                 && AllChosen(PlanFor(refs))
      ensures ref in PlanFor(refs).keepers
    {
      var p, bundles := PlanFor(refs), refs[ref].bundles;
      assert p.shown[ref] == ShasOf(bundles);
      assert bundles[0].sha in ShasOf(bundles) && bundles[1].sha in ShasOf(bundles);
    }

    lemma AgreedFixesFit(refs: map<string, RefSnapshot>, objects: seq<ObjectMeta>, bucket: Bucket)
      requires IsListing(objects, ListPrefix(prefix), bucket) && RefsShow(refs, Items(prefix, hidden, objects))
                 && FixesAgreed(bucket)
      ensures FreshSuffixes(PlanFor(refs)) && AllConfirmed(PlanFor(refs))
      ensures forall ref :: ref in refs && |refs[ref].bundles| > 1 ==> ref in PlanFor(refs).keepers
    {
      PlanIsPlanned(refs, objects);
      forall ref | ref in refs && |refs[ref].bundles| > 1 ensures ref in PlanFor(refs).keepers {
        RefIsRight(refs, objects, bucket, ref);
        SeveralAreShown(refs, ref);
      }
    }

    lemma AgreedAnswersFit(refs: map<string, RefSnapshot>, objects: seq<ObjectMeta>, head: Option<string>,
                           bucket: Bucket)
      requires Shows(refs, head, objects, bucket) && HeadKey(prefix) !in hidden && WellAnswered(bucket)
      ensures AnswersFit(PlanFor(refs), refs, head) && FreshSuffixes(PlanFor(refs)) && AllConfirmed(PlanFor(refs))
    {
      AgreedFixesFit(refs, objects, bucket);
      HeadValidIff(head, refs, objects, bucket);
      CandidatesAreBranches(refs, objects, bucket);
    }

    lemma CandidatesAreBranches(refs: map<string, RefSnapshot>, objects: seq<ObjectMeta>, bucket: Bucket)
      requires IsListing(objects, ListPrefix(prefix), bucket) && RefsShow(refs, Items(prefix, hidden, objects))
      ensures BranchesWithData(CandidateSet(refs), bucket) && (CandidateSet(refs) == {} ==> NoCandidates(refs))
    {
      forall ref
        ensures ref in CandidateSet(refs) <==> StartsWith(ref, "refs/heads/") && HasDataAt(prefix, hidden, bucket, ref)
      {
        SnapshotData(refs, objects, bucket, ref);
      }
      forall ref | IsCandidate(refs, ref) ensures ref in CandidateSet(refs) {
      }
    }

    /**
     * `run_into`, reports aside. The plan is that of the listing the run begins with. Whatever
     * others do, every request keeps to it, and a finished run has gone through all of it. In a quiet bucket, a well
     * answered run that meets no fault finishes and leaves the bucket repaired; no run with fresh
     * suffixes finds its snapshot stale; and a run on a repaired bucket finishes, if no request
     * fails, and touches nothing but stale locks.
     */
    method RunInto(now: int) returns (outcome: Outcome, ghost objects: Reply<seq<ObjectMeta>>, ghost p: Plan)
      requires store.Valid() && HeadKey(prefix) !in hidden
      modifies store
      ensures store.Valid() && Extends(old(store.log), store.log) && ListsFirst(store.log, |old(store.log)|, objects)
      ensures PlannedFrom(p, if objects.Ok? then objects.value else []) && ValidPlan(p)
      ensures Disciplined(p, old(store.log), store.log)
      ensures !deleteStaleLocks ==> LocksLeftAlone(store.log, |old(store.log)|)
      ensures !deleteStaleLocks && store.quiet ==>
                forall k :: IsLockKey(k) ==> KeptAt(old(store.bucket), store.bucket, k)
      ensures outcome == Finished ==>
                && objects.Ok? && FixedAll(p, store.log, |old(store.log)|)
                && LocksHandled(store.log, |old(store.log)|, objects.value, now)
      ensures store.quiet && outcome == Failed(StoreFailed) ==> !FaultFree(old(store.log), store.log)
      ensures store.quiet && WellAnswered(old(store.bucket)) && FaultFree(old(store.log), store.log) ==>
                outcome == Finished && Repaired(prefix, hidden, store.bucket)
      ensures store.quiet && outcome == Finished && FreshSuffixes(p) && AllConfirmed(p)
                && CleanBranches(old(store.bucket)) ==>
                Repaired(prefix, hidden, store.bucket)
      ensures store.quiet && outcome == Finished ==> HeadEnds(old(store.bucket), store.bucket)
      ensures store.quiet && FreshSuffixes(p) ==> !IsStaleSnapshot(outcome)
      ensures store.quiet && Repaired(prefix, hidden, old(store.bucket)) ==>
                && (FaultFree(old(store.log), store.log) ==> outcome == Finished)
                && forall k :: !IsLockKey(k) ==> KeptAt(old(store.bucket), store.bucket, k)
    {
      ghost var log0 := store.log;
      var r, listed, snapshot; ghost var at;
      r, listed, snapshot, at := Analyse();
      objects := listed;
      ghost var log := store.log;
      if r.Err? {
        p := PlanOfListing(if listed.Ok? then listed.value else [], if listed.Ok? then at else map[]);
        ReadsAreHarmless(p, log0, store.log);
        LocksStay(p, log0);
        return Failed(StoreFailed), objects, p;
      }
      ghost var refs, head := snapshot.refs, snapshot.head;
      p := PlanFor(refs);
      ReadsAreHarmless(p, log0, store.log);
      PlanIsRight(refs, listed.value, at);
      PlanIsPlanned(refs, listed.value);
      if store.quiet && WellAnswered(at) {
        AgreedAnswersFit(refs, listed.value, head, at);
      }
      outcome := FixAndSweep(listed.value, snapshot, p, log0, now);
      ExtendsFurther(log0, log, store.log);
      assert store.log[|log0|] == log[|log0|];
      LocksStay(p, log0);
    }

    /** No request from `from` on wrote or deleted a lock. */
    ghost predicate LocksLeftAlone(log: seq<Event>, from: nat) {
      forall i: nat, k :: from <= i < |log| && IsLockKey(k) ==> !Touches(log[i].request, k)
    }

    /** Without the option no lock is touched, and in a quiet bucket every one stays. */
    lemma LocksStay(p: Plan, log0: seq<Event>)
      requires store.Valid() && Follows(p) && ValidPlan(p) && Disciplined(p, log0, store.log) && |log0| < |store.log|
      ensures !deleteStaleLocks ==> LocksLeftAlone(store.log, |log0|)
      ensures !deleteStaleLocks && store.quiet ==>
                forall k :: IsLockKey(k) ==> KeptAt(store.log[|log0|].before, store.bucket, k)
    {
      forall i: nat, k | !deleteStaleLocks && |log0| <= i < |store.log| && IsLockKey(k)
        ensures !Touches(store.log[i].request, k)
      {
        LocksAreLeft(p, log0, store.log, i, k);
      }
      forall k | !deleteStaleLocks && store.quiet && IsLockKey(k)
        ensures KeptAt(store.log[|log0|].before, store.bucket, k)
      {
        UntouchedIsKept(store.quiet, store.mine, store.log, |log0|, |store.log| - 1, k);
      }
    }

    /** Every listing has a plan, even when the run stops before it is needed. */
    lemma PlanOfListing(objects: seq<ObjectMeta>, bucket: Bucket) returns (p: Plan)
      requires objects == [] || IsListing(objects, ListPrefix(prefix), bucket)
      ensures PlannedFrom(p, objects) && ValidPlan(p)
    {
      var refs := Shown(Items(prefix, hidden, objects));
      p := PlanFor(refs);
      PlanIsPlanned(refs, objects);
      if objects == [] {
        assert refs == map[];
      } else {
        PlanIsRight(refs, objects, bucket);
      }
    }
  }

  /** The entries that some items make. */
  ghost function Shown(items: seq<Item>): (refs: map<string, RefSnapshot>)
    ensures RefsShow(refs, items)
  {
    if items == [] then map[]
    else
      var init, item := items[..|items| - 1], items[|items| - 1];
      var refs := Shown(init);
      assert items == init + [item];
      if item.Malformed? then MalformedShows(refs, init, item); refs
      else EntryShows(refs, init, item); refs[item.ref := WithSaid(EntryOf(refs, item.ref), item, item.ref)]
  }

  /** The same refs, with data where there was data. */
  predicate SameData(was: map<string, RefSnapshot>, refs: map<string, RefSnapshot>) {
    refs.Keys == was.Keys && forall ref :: ref in refs ==> refs[ref].HasBranchData() == was[ref].HasBranchData()
  }

  /** A branch with data, which `fix_head` offers. */
  predicate IsCandidate(refs: map<string, RefSnapshot>, ref: string) {
    ref in refs && StartsWith(ref, "refs/heads/") && refs[ref].HasBranchData()
  }

  predicate NoCandidates(refs: map<string, RefSnapshot>) {
    forall ref :: ref in refs ==> !IsCandidate(refs, ref)
  }

  function CandidateSet(refs: map<string, RefSnapshot>): set<string> {
    set ref | ref in refs && IsCandidate(refs, ref)
  }

  /** The candidates in the order of their names. */
  ghost predicate ListsCandidates(refs: map<string, RefSnapshot>, list: seq<string>) {
    IsSorted(list) && forall ref :: ref in list <==> IsCandidate(refs, ref)
  }

  /** A sorted map is gone through from its least key to its greatest. */
  method TakeLeast(rest: set<string>) returns (ref: string)
    requires rest != {}
    ensures IsLeast(ref, rest)
  {
    ghost var least := LeastExists(rest);
    ref :| ref in rest && IsLeast(ref, rest);
  }

  /** The candidates. */
  method Candidates(refs: map<string, RefSnapshot>) returns (list: seq<string>)
    ensures ListsCandidates(refs, list)
    ensures |list| == |CandidateSet(refs)|
  {
    list := [];
    ghost var found: set<string> := {};
    var rest := refs.Keys;
    while rest != {}
      invariant rest <= refs.Keys && |list| == |found|
      invariant forall ref :: ref in list <==> IsCandidate(refs, ref) && ref !in rest
      invariant forall ref :: ref in found <==> IsCandidate(refs, ref) && ref !in rest
      invariant SortedBefore(list, rest)
    {
      var ref := TakeLeast(rest);
      OneMoreSorted(list, rest, ref);
      rest := rest - {ref};
      if StartsWith(ref, "refs/heads/") && refs[ref].HasBranchData() {
        list, found := list + [ref], found + {ref};
      }
    }
    assert found == CandidateSet(refs);
  }

  /** The list is sorted, and all of it before the rest. */
  ghost predicate SortedBefore(list: seq<string>, rest: set<string>) {
    IsSorted(list) && forall i, other :: 0 <= i < |list| && other in rest ==> Before(list[i], other)
  }

  lemma OneMoreSorted(list: seq<string>, rest: set<string>, ref: string)
    requires SortedBefore(list, rest) && IsLeast(ref, rest)
    ensures SortedBefore(list, rest - {ref}) && SortedBefore(list + [ref], rest - {ref})
  {
  }

  /** The refs with more than one bundle, in the order of their names. */
  method DuplicatedRefs(refs: map<string, RefSnapshot>) returns (list: seq<string>)
    ensures SeveralBundles(refs, list) && IsSorted(list)
    ensures forall i, j :: 0 <= i < j < |list| ==> list[i] != list[j]
  {
    list := [];
    var rest := refs.Keys;
    while rest != {}
      invariant rest <= refs.Keys
      invariant forall ref :: ref in list <==> ref in refs && |refs[ref].bundles| > 1 && ref !in rest
      invariant forall i, j :: 0 <= i < j < |list| ==> list[i] != list[j]
      invariant SortedBefore(list, rest)
    {
      var ref := TakeLeast(rest);
      OneMoreSorted(list, rest, ref);
      rest := rest - {ref};
      if |refs[ref].bundles| > 1 {
        list := list + [ref];
      }
    }
  }

  /** Only this ref's bundles were thinned out, to the kept ones. */
  ghost predicate OnlyThinned(was: map<string, RefSnapshot>, refs: map<string, RefSnapshot>, ref: string) {
    && refs.Keys == was.Keys
    && (forall r :: r in was && r != ref ==> refs[r] == was[r])
    && (ref in was ==>
          && refs[ref] == was[ref].(bundles := refs[ref].bundles)
          && (was[ref].bundles == [] <==> refs[ref].bundles == []))
  }

  predicate IsStaleSnapshot(outcome: Outcome) {
    outcome.Failed? && outcome.error.StaleSnapshot?
  }
}
