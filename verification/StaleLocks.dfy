// Finding and removing stale locks (src/manage/doctor.rs). Times and durations are integers
// in one unit.
module StaleLocks {
  import opened Keys
  import opened Store

  /** Older than the TTL; a lock stamped in the future only at TTL zero. */
  predicate IsStale(now: int, lastModified: int, ttl: nat) {
    var rawAge := now - lastModified;
    if rawAge < 0 then ttl == 0 else rawAge > ttl
  }

  lemma StaleIff(now: int, lastModified: int, ttl: nat)
    ensures IsStale(now, lastModified, ttl) <==> now > lastModified + ttl || (ttl == 0 && now < lastModified)
  {
  }

  datatype StaleLock = StaleLock(key: string, age: nat)

  /** `scan_stale_locks_at`. */
  function Scan(now: int, objects: seq<ObjectMeta>, ttl: nat): seq<StaleLock> {
    if objects == [] then []
    else
      var rest := Scan(now, objects[..|objects| - 1], ttl);
      var last := objects[|objects| - 1];
      var rawAge := now - last.lastModified;
      if !IsLockKey(last.key) then rest
      else if rawAge < 0 then if ttl == 0 then rest + [StaleLock(last.key, 0)] else rest
      else if rawAge > ttl then rest + [StaleLock(last.key, rawAge)] else rest
  }

  /** The locks an operator means by "older than": flagged, with their age. */
  predicate Flags(now: int, o: ObjectMeta, ttl: nat, lock: StaleLock) {
    && IsLockKey(o.key) && lock.key == o.key
    && ((now > o.lastModified + ttl && lock.age == now - o.lastModified)
        || (ttl == 0 && now < o.lastModified && lock.age == 0))
  }

  lemma {:induction false} ScanFlags(now: int, objects: seq<ObjectMeta>, ttl: nat, lock: StaleLock)
    ensures lock in Scan(now, objects, ttl) <==> exists i :: 0 <= i < |objects| && Flags(now, objects[i], ttl, lock)
  {
    if objects != [] {
      var n := |objects| - 1;
      ScanFlags(now, objects[..n], ttl, lock);
      assert forall i :: 0 <= i < n ==> objects[..n][i] == objects[i];
      assert lock in Scan(now, objects, ttl) <==>
               lock in Scan(now, objects[..n], ttl) || Flags(now, objects[n], ttl, lock);
    }
  }

  /** A longer TTL flags no lock a shorter one does not, TTL zero and future stamps included. */
  lemma {:induction false} ScanIsAntitone(now: int, objects: seq<ObjectMeta>, shorter: nat, longer: nat,
                                          lock: StaleLock)
    requires shorter <= longer && lock in Scan(now, objects, longer)
    ensures lock in Scan(now, objects, shorter)
  {
    ScanFlags(now, objects, longer, lock);
    ScanFlags(now, objects, shorter, lock);
    var i :| 0 <= i < |objects| && Flags(now, objects[i], longer, lock);
    assert Flags(now, objects[i], shorter, lock);
  }

  predicate Reports(scan: seq<StaleLock>, key: string) {
    exists j :: 0 <= j < |scan| && scan[j].key == key
  }

  /** A listed lock is reported exactly when it is older than the TTL, or stamped in the future at TTL zero. */
  lemma ReportedIffStale(now: int, objects: seq<ObjectMeta>, ttl: nat, i: nat)
    requires DistinctKeys(objects) && i < |objects|
    ensures Reports(Scan(now, objects, ttl), objects[i].key) <==>
              && IsLockKey(objects[i].key)
              && (now > objects[i].lastModified + ttl || (ttl == 0 && now < objects[i].lastModified))
  {
    var scan, o := Scan(now, objects, ttl), objects[i];
    if j :| 0 <= j < |scan| && scan[j].key == o.key {
      ScanFlags(now, objects, ttl, scan[j]);
      var m :| 0 <= m < |objects| && Flags(now, objects[m], ttl, scan[j]);
      assert m == i;
    }
    if IsLockKey(o.key) && IsStale(now, o.lastModified, ttl) {
      var lock := StaleLock(o.key, if now < o.lastModified then 0 else now - o.lastModified);
      assert Flags(now, objects[i], ttl, lock);
      ScanFlags(now, objects, ttl, lock);
      var j :| 0 <= j < |scan| && scan[j] == lock;
    }
  }

  /**
   * TTL zero is documented to treat every lock as stale. It does exactly when no listed lock
   * carries the instant of the scan: the comparison is strict.
   */
  lemma ZeroTtlFlagsAllIff(now: int, objects: seq<ObjectMeta>)
    requires DistinctKeys(objects)
    ensures (forall i :: 0 <= i < |objects| && IsLockKey(objects[i].key) ==>
              Reports(Scan(now, objects, 0), objects[i].key))
            <==> (forall i :: 0 <= i < |objects| && IsLockKey(objects[i].key) ==> objects[i].lastModified != now)
  {
    forall i | 0 <= i < |objects| && IsLockKey(objects[i].key)
      ensures Reports(Scan(now, objects, 0), objects[i].key) <==> objects[i].lastModified != now
    {
      ReportedIffStale(now, objects, 0, i);
    }
  }

  /** The instant-of-the-scan lock that even TTL zero leaves alone. */
  lemma ZeroTtlSparesFreshLock(now: int)
    ensures Scan(now, [ObjectMeta("r/LOCK#.lock", now)], 0) == []
  {
    assert [ObjectMeta("r/LOCK#.lock", now)][..0] == [];
  }

  /**
   * With a clock that does not run back, a reported lock is refused at its re-check only when
   * its timestamp is newer than the listed one; at TTL zero also when the re-check falls on
   * the very instant of a stamp that was still in the future at the scan.
   */
  lemma RefusalMeansNewTimestamp(scanned: int, objects: seq<ObjectMeta>, ttl: nat, i: nat, rechecked: int, found: int)
    requires DistinctKeys(objects) && i < |objects| && Reports(Scan(scanned, objects, ttl), objects[i].key)
    requires scanned <= rechecked && !IsStale(rechecked, found, ttl)
    ensures found > objects[i].lastModified || (ttl == 0 && scanned < objects[i].lastModified && rechecked == found)
  {
    ReportedIffStale(scanned, objects, ttl, i);
  }

  // ---------------------------------------------------------------
  // Removal.
  // ---------------------------------------------------------------

  datatype DeleteOutcome = Removed | SkippedNotStale | SkippedDisappeared | SkippedHeadError | DeleteFailed

  /** The delete at `i` follows a HEAD of the same key that found it stale. */
  predicate RemovesStaleLock(log: seq<Event>, i: nat, ttl: nat) {
    && 2 <= i < |log| && log[i].request.Deleted? && IsLockKey(log[i].request.key)
    && log[i - 1].request.ClockRead?
    && log[i - 2].request.Headed? && log[i - 2].request.key == log[i].request.key && log[i - 2].request.head.Ok?
    && IsStale(log[i - 1].request.now, log[i - 2].request.head.value.lastModified, ttl)
  }

  /** Since `was`: reads, and deletes of locks found stale. */
  ghost predicate OnlyRemovesStaleLocks(was: seq<Event>, log: seq<Event>, ttl: nat) {
    && Extends(was, log)
    && forall i: nat {:trigger IsLockStep(log, i, ttl)} :: |was| <= i < |log| ==> IsLockStep(log, i, ttl)
  }

  predicate IsLockStep(log: seq<Event>, i: nat, ttl: nat) {
    i < |log| && (log[i].request.Headed? || log[i].request.ClockRead? || RemovesStaleLock(log, i, ttl))
  }

  lemma MoreLockSteps(was: seq<Event>, log: seq<Event>, log': seq<Event>, ttl: nat)
    requires OnlyRemovesStaleLocks(was, log, ttl) && OnlyRemovesStaleLocks(log, log', ttl)
    ensures OnlyRemovesStaleLocks(was, log', ttl)
  {
    assert forall i :: 0 <= i < |log| ==> log'[i] == log'[..|log|][i];
    forall i: nat | |was| <= i < |log'| ensures IsLockStep(log', i, ttl) {
      if i < |log| {
        assert IsLockStep(log, i, ttl);
      } else {
        assert IsLockStep(log', i, ttl);
      }
    }
  }

  /** The requests about one lock, from `i` to the end of the log, and what they came to. */
  predicate Handled(log: seq<Event>, i: nat, key: string, ttl: nat, now: int, outcome: DeleteOutcome) {
    && i < |log| && log[i].request.Headed? && log[i].request.key == key
    && var head := log[i].request.head;
    if head == Err(NotFound) then |log| == i + 1 && outcome == SkippedDisappeared
    else if head.Err? then |log| == i + 1 && outcome == SkippedHeadError
    else
      && i + 1 < |log| && log[i + 1].request == ClockRead(now)
      && if !IsStale(now, head.value.lastModified, ttl) then |log| == i + 2 && outcome == SkippedNotStale
         else
           && |log| == i + 3 && log[i + 2].request.Deleted? && log[i + 2].request.key == key
           && outcome == if log[i + 2].request.deleted.Ok? then Removed else DeleteFailed
  }

  /** `delete_stale_lock_if_still_stale`; `now` is the clock at the re-check. */
  method DeleteIfStillStale(store: ObjectStore, key: string, ttl: nat, now: int) returns (outcome: DeleteOutcome)
    requires store.Valid() && IsLockKey(key)
    modifies store
    ensures store.Valid() && OnlyRemovesStaleLocks(old(store.log), store.log, ttl)
    ensures Handled(store.log, |old(store.log)|, key, ttl, now, outcome)
    ensures forall k :: (store.quiet || k in store.mine) && k != key ==> KeptAt(old(store.bucket), store.bucket, k)
    ensures (store.quiet || key in store.mine) && outcome == Removed ==> key !in store.bucket
    ensures (store.quiet || key in store.mine) && outcome in {SkippedNotStale, SkippedDisappeared, SkippedHeadError}
            ==> KeptAt(old(store.bucket), store.bucket, key)
    ensures (store.quiet || key in store.mine) && outcome == SkippedNotStale
            ==> key in store.bucket && !IsStale(now, store.bucket[key].lastModified, ttl)
  {
    ghost var was := store.log;
    var head := store.Head(key);
    match head
    case Err(NotFound) => outcome := SkippedDisappeared; assert IsLockStep(store.log, |was|, ttl);
    case Err(OtherError) => outcome := SkippedHeadError; assert IsLockStep(store.log, |was|, ttl);
    case Ok(meta) =>
      ghost var headed := store.log;
      store.Tick(now);
      ghost var ticked := store.log;
      assert ticked[|was|] == headed[|was|] && ticked[..|was|] == was;
      if !IsStale(now, meta.lastModified, ttl) {
        outcome := SkippedNotStale;
        assert IsLockStep(ticked, |was|, ttl) && IsLockStep(ticked, |was| + 1, ttl);
        return;
      }
      var deleted := store.Delete(key);
      outcome := if deleted.Ok? then Removed else DeleteFailed;
      assert store.log[|was|] == ticked[|was|] && store.log[|was| + 1] == ticked[|was| + 1]
               && store.log[..|was|] == was;
      assert IsLockStep(store.log, |was|, ttl) && IsLockStep(store.log, |was| + 1, ttl)
               && IsLockStep(store.log, |was| + 2, ttl);
  }

  /** How many locks were looked at, how many deleted, and how many deletes failed. */
  datatype Tally = Tally(looked: nat, deleted: nat, failed: nat) {
    function After(request: Request): Tally {
      match request
      case Headed(_, _) => this.(looked := looked + 1)
      case Deleted(_, Ok(_)) => this.(deleted := this.deleted + 1)
      case Deleted(_, Err(_)) => this.(failed := failed + 1)
      case _ => this
    }
  }

  /** The tally of the log from `i` on. */
  function TallyOf(log: seq<Event>, i: nat): Tally
    requires i <= |log|
  {
    if |log| == i then Tally(0, 0, 0) else TallyOf(log[..|log| - 1], i).After(log[|log| - 1].request)
  }

  lemma AfterOne(log: seq<Event>, i: nat, n: nat)
    requires i <= n && |log| == n + 1
    ensures TallyOf(log, i) == TallyOf(log[..n], i).After(log[n].request)
  {
  }

  lemma AfterTwo(log: seq<Event>, i: nat, n: nat)
    requires i <= n && |log| == n + 2
    ensures TallyOf(log, i) == TallyOf(log[..n], i).After(log[n].request).After(log[n + 1].request)
  {
    AfterOne(log[..n + 1], i, n);
    assert log[..n + 1][..n] == log[..n];
  }

  lemma AfterThree(log: seq<Event>, i: nat, n: nat)
    requires i <= n && |log| == n + 3
    ensures TallyOf(log, i)
            == TallyOf(log[..n], i).After(log[n].request).After(log[n + 1].request).After(log[n + 2].request)
  {
    AfterTwo(log[..n + 2], i, n);
    assert log[..n + 2][..n] == log[..n];
  }

  /** One lock adds one to the looked at, and one more as its outcome says. */
  lemma TallyAfter(was: seq<Event>, log: seq<Event>, i: nat, key: string, ttl: nat, now: int, outcome: DeleteOutcome)
    requires i <= |was| && Extends(was, log) && Handled(log, |was|, key, ttl, now, outcome)
    ensures TallyOf(log, i) == AfterLock(TallyOf(was, i), outcome)
  {
    var n := |was|;
    if |log| == n + 1 {
      AfterOne(log, i, n);
    } else if |log| == n + 2 {
      AfterTwo(log, i, n);
    } else {
      AfterThree(log, i, n);
    }
  }

  function AfterLock(tally: Tally, outcome: DeleteOutcome): Tally {
    match outcome
    case Removed => Tally(tally.looked + 1, tally.deleted + 1, tally.failed)
    case DeleteFailed => Tally(tally.looked + 1, tally.deleted, tally.failed + 1)
    case _ => Tally(tally.looked + 1, tally.deleted, tally.failed)
  }

  /** Every key but a reported lock is as it was, unless others changed it. */
  ghost predicate SparesOthers(quiet: bool, mine: set<string>, stale: seq<StaleLock>, before: Bucket, after: Bucket) {
    forall k :: (quiet || k in mine) && !(IsLockKey(k) && Reports(stale, k)) ==> KeptAt(before, after, k)
  }

  lemma SparesStill(quiet: bool, mine: set<string>, stale: seq<StaleLock>, before: Bucket, mid: Bucket, after: Bucket,
                    n: nat)
    requires n < |stale| && IsLockKey(stale[n].key) && SparesOthers(quiet, mine, stale, before, mid)
    requires forall k :: (quiet || k in mine) && k != stale[n].key ==> KeptAt(mid, after, k)
    ensures SparesOthers(quiet, mine, stale, before, after)
  {
    assert Reports(stale, stale[n].key);
    forall k | (quiet || k in mine) && !(IsLockKey(k) && Reports(stale, k)) ensures KeptAt(before, after, k) {
      assert KeptAt(before, mid, k);
      assert k != stale[n].key;
      assert KeptAt(mid, after, k);
    }
  }

  /** The key was looked at at `i`, and deleted if it was found stale. */
  predicate RechecksAt(log: seq<Event>, i: nat, key: string, ttl: nat) {
    && i < |log| && log[i].request.Headed? && log[i].request.key == key
    && (log[i].request.head.Ok? ==>
         && i + 1 < |log| && log[i + 1].request.ClockRead?
         && (IsStale(log[i + 1].request.now, log[i].request.head.value.lastModified, ttl) ==>
              i + 2 < |log| && log[i + 2].request.Deleted? && log[i + 2].request.key == key))
  }

  /** The key was re-checked from `from` on, and deleted if it was still stale. */
  predicate Rechecked(log: seq<Event>, from: nat, key: string, ttl: nat) {
    exists i :: from <= i < |log| && RechecksAt(log, i, key, ttl)
  }

  lemma RechecksStay(was: seq<Event>, log: seq<Event>, from: nat, key: string, ttl: nat)
    requires Extends(was, log) && Rechecked(was, from, key, ttl)
    ensures Rechecked(log, from, key, ttl)
  {
    assert forall i :: 0 <= i < |was| ==> log[i] == log[..|was|][i];
    var i :| from <= i < |was| && RechecksAt(was, i, key, ttl);
    assert RechecksAt(log, i, key, ttl);
  }

  /** Where the loop stands: what was asked, what it came to, and what was left alone. */
  ghost predicate Handling(quiet: bool, mine: set<string>, stale: seq<StaleLock>, ttl: nat, start: seq<Event>,
                           log: seq<Event>, before: Bucket, now: Bucket, tally: Tally)
  {
    && OnlyRemovesStaleLocks(start, log, ttl) && TallyOf(log, |start|) == tally
    && SparesOthers(quiet, mine, stale, before, now)
    && forall m: nat :: m < tally.looked && m < |stale| ==> Rechecked(log, |start|, stale[m].key, ttl)
  }

  lemma HandlingStarts(quiet: bool, mine: set<string>, stale: seq<StaleLock>, ttl: nat, log: seq<Event>, now: Bucket)
    ensures Handling(quiet, mine, stale, ttl, log, log, now, now, Tally(0, 0, 0))
  {
  }

  /** One turn of the loop: re-check one reported lock, and delete it if it is still stale. */
  method HandleLock(store: ObjectStore, stale: seq<StaleLock>, n: nat, ttl: nat, now: int, ghost start: seq<Event>,
                    ghost before: Bucket, ghost tally: Tally) returns (outcome: DeleteOutcome)
    requires store.Valid() && n == tally.looked < |stale| && IsLockKey(stale[n].key)
    requires Handling(store.quiet, store.mine, stale, ttl, start, store.log, before, store.bucket, tally)
    modifies store
    ensures store.Valid()
    ensures Handling(store.quiet, store.mine, stale, ttl, start, store.log, before, store.bucket,
                     AfterLock(tally, outcome))
  {
    ghost var was, bucket := store.log, store.bucket;
    outcome := DeleteIfStillStale(store, stale[n].key, ttl, now);
    MoreLockSteps(start, was, store.log, ttl);
    TallyAfter(was, store.log, |start|, stale[n].key, ttl, now, outcome);
    SparesStill(store.quiet, store.mine, stale, before, bucket, store.bucket, n);
    assert RechecksAt(store.log, |was|, stale[n].key, ttl);
    forall m: nat | m < n ensures Rechecked(store.log, |start|, stale[m].key, ttl) {
      RechecksStay(was, store.log, |start|, stale[m].key, ttl);
    }
  }

  /** The same, counted. */
  method HandleNext(store: ObjectStore, stale: seq<StaleLock>, n: nat, ttl: nat, now: int, ghost start: seq<Event>,
                    ghost before: Bucket, counts: (nat, nat, nat)) returns (counts': (nat, nat, nat))
    requires store.Valid() && n == counts.0 + counts.1 + counts.2 < |stale| && IsLockKey(stale[n].key)
    requires Handling(store.quiet, store.mine, stale, ttl, start, store.log, before, store.bucket,
                      Tally(n, counts.0, counts.2))
    modifies store
    ensures store.Valid() && n + 1 == counts'.0 + counts'.1 + counts'.2
    ensures Handling(store.quiet, store.mine, stale, ttl, start, store.log, before, store.bucket,
                     Tally(n + 1, counts'.0, counts'.2))
  {
    var (deleted, skipped, failed) := counts;
    var outcome := HandleLock(store, stale, n, ttl, now, start, before, Tally(n, deleted, failed));
    match outcome
    case Removed => counts' := (deleted + 1, skipped, failed);
    case DeleteFailed => counts' := (deleted, skipped, failed + 1);
    case _ => counts' := (deleted, skipped + 1, failed);
  }

  lemma ReportedIsLock(now: int, objects: seq<ObjectMeta>, ttl: nat, n: nat)
    requires n < |Scan(now, objects, ttl)|
    ensures IsLockKey(Scan(now, objects, ttl)[n].key)
  {
    ScanFlags(now, objects, ttl, Scan(now, objects, ttl)[n]);
  }

  /**
   * `list_and_handle_stale_locks`: report the stale locks of the listing, and with the option
   * set re-check and delete each. Each reported lock is looked at once, and the counts are
   * those of the requests made.
   */
  method HandleStaleLocks(store: ObjectStore, objects: seq<ObjectMeta>, ttl: nat, deleteStaleLocks: bool, now: int)
    returns (stale: seq<StaleLock>, deleted: nat, skipped: nat, failed: nat)
    requires store.Valid()
    modifies store
    ensures store.Valid() && stale == Scan(now, objects, ttl)
    ensures Handling(store.quiet, store.mine, stale, ttl, old(store.log), store.log, old(store.bucket), store.bucket,
                     Tally(deleted + skipped + failed, deleted, failed))
    ensures deleted + skipped + failed == if deleteStaleLocks then |stale| else 0
    ensures !deleteStaleLocks ==> store.log == old(store.log) && store.bucket == old(store.bucket)
  {
    stale := Scan(now, objects, ttl);
    deleted, skipped, failed := 0, 0, 0;
    HandlingStarts(store.quiet, store.mine, stale, ttl, store.log, store.bucket);
    if stale == [] || !deleteStaleLocks {
      return;
    }
    for n := 0 to |stale|
      invariant store.Valid() && deleted + skipped + failed == n
      invariant Handling(store.quiet, store.mine, stale, ttl, old(store.log), store.log, old(store.bucket),
                         store.bucket, Tally(n, deleted, failed))
    {
      ReportedIsLock(now, objects, ttl, n);
      var recheck: int := *;
      var counts := HandleNext(store, stale, n, ttl, recheck, old(store.log), old(store.bucket),
                               (deleted, skipped, failed));
      deleted, skipped, failed := counts.0, counts.1, counts.2;
    }
  }
}
