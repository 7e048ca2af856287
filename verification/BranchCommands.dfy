// delete-branch, protect and unprotect against a shared bucket (src/manage/branch.rs).
module BranchCommands {
  import opened Base
  import opened Keys
  import opened Store
  import opened BranchSweep
  import opened BranchMoves
  import P = BranchProtocol

  datatype ManageError =
    | Protected | BranchNotFound | LockContended | StoreFailed
    | PartialDelete(undeleted: seq<string>, attempted: nat)

  datatype Outcome = Aborted | AlreadyGone | BranchDeleted | NowProtected | NowUnprotected | Failed(error: ManageError)

  predicate Swept(outcome: Outcome) {
    outcome == BranchDeleted || IsPartial(outcome)
  }

  predicate IsPartial(outcome: Outcome) {
    outcome.Failed? && outcome.error.PartialDelete?
  }

  /** What the sweep reports: the undeleted keys out of those it attempted. */
  function SweepOutcome(keys: seq<string>, replies: seq<Reply<Done>>): Outcome
    requires |keys| == |replies|
  {
    var undeleted := Undeleted(keys, replies);
    if undeleted == [] then BranchDeleted else Failed(PartialDelete(undeleted, |keys|))
  }

  /** One delete-branch: the bucket it found and left, what it was given, and whether no request met a fault. */
  datatype DeleteRun = DeleteRun(before: Bucket, after: Bucket, answer: bool, ttl: int, now: int, clean: bool,
                                 outcome: Outcome, deferred: Option<string>)

  /** The commands on one branch. Every request they make is an action of the protocol machine. */
  class ManageBranch {
    const store: ObjectStore
    const prefix: string
    const branch: string
    /** The manifests that parse, each with the commit it names as its baseline. */
    const baselines: map<Body, string>
    /** The refs at work on the bucket, this one among them. */
    ghost const refs: set<string>
    /** Where this client's requests begin in the log, and its place in the protocol after each. */
    ghost const from: nat
    ghost var path: seq<P.Client>

    function Ref(): string { "refs/heads/" + branch }
    function Dir(): string { RefListingPrefix(prefix, Ref()) }
    function Lock(): string { LockKey(prefix, Ref()) }
    function Marker(): string { ProtectedKey(prefix, Ref()) }
    function Chain(): string { ChainKey(prefix, Ref()) }

    ghost function Repo(): P.Repo { P.Repo(prefix, refs) }

    ghost predicate RefsAreRight() {
      Ref() in refs && forall ref :: ref in refs ==> StartsWith(ref, "refs/")
    }

    ghost predicate Valid()
      reads this, store
    {
      store.Valid() && RefsAreRight() && IsPath(Repo(), from, store.log, path)
    }

    /** This client's place in the protocol. */
    ghost function Client(): P.Client
      requires path != []
      reads this
    {
      path[|path| - 1]
    }

    constructor (store: ObjectStore, prefix: string, branch: string, baselines: map<Body, string>,
                 ghost refs: set<string>)
      requires store.Valid() && "refs/heads/" + branch in refs && forall ref :: ref in refs ==> StartsWith(ref, "refs/")
      ensures this.store == store && this.prefix == prefix && this.branch == branch && this.baselines == baselines
      ensures this.refs == refs && from == |store.log| && Valid() && Client() == P.Idle
    {
      this.store, this.prefix, this.branch, this.baselines := store, prefix, branch, baselines;
      this.refs, from, path := refs, |store.log|, [P.Idle];
    }

    /** The request just made takes the client to `c'`. */
    ghost method Act(was: seq<Event>, c': P.Client)
      requires store.Valid() && RefsAreRight() && IsPath(Repo(), from, was, path)
      requires |store.log| == |was| + 1 && store.log[..|was|] == was
      requires ActsOn(Repo(), Client(), store.log[|was|], c')
      modifies this`path
      ensures Valid() && path == old(path) + [c']
    {
      OneMoreAction(Repo(), from, was, store.log, path, c');
      path := path + [c'];
    }

    // ---------------------------------------------------------------
    // The lock.
    // ---------------------------------------------------------------

    /** Every key of ours but these is as it was when the method began. */
    twostate predicate KeepsAllBut(keys: set<string>)
      reads store
    {
      forall k :: Ours(store.quiet, store.mine, k) && k !in keys ==> KeptAt(old(store.bucket), store.bucket, k)
    }

    /** `delete_idempotent`: `d` is what the store answered. */
    method DeleteIdempotent(key: string) returns (r: Reply<Done>, ghost d: Reply<Done>)
      requires store.Valid()
      modifies store
      ensures store.Made(Deleted(key, d)) && KeepsAllBut({key})
      ensures r == if d == Err(OtherError) then Err(OtherError) else Ok(Done)
      ensures r.Ok? && Ours(store.quiet, store.mine, key) ==> key !in store.bucket
    {
      var deleted := store.Delete(key);
      d := deleted;
      r := match deleted case Err(OtherError) => Err(OtherError) case _ => Ok(Done);
    }

    /** The lock key is put if absent. */
    method TryPut(ghost op: P.Op) returns (r: Reply<bool>)
      requires Valid() && Client() == P.Idle
      modifies store, this`path
      ensures Valid() && Client() == AfterPut(op, Ref(), r, P.Busy(op, Ref(), P.Examining))
      ensures store.Made(PutNew(Lock(), r)) && KeepsAllBut({Lock()})
    {
      ghost var was := store.log;
      r := store.PutIfAbsent(Lock());
      FirstPutActs(Repo(), op, Ref(), store.log[|was|], r);
      Act(was, AfterPut(op, Ref(), r, P.Busy(op, Ref(), P.Examining)));
    }

    /**
     * `acquire_ref_lock`, with `acquire_lock` (src/protocol/push.rs): a lock that is there is
     * taken over only when it is older than the TTL, and then tried once more.
     */
    method AcquireRefLock(ttl: int, now: int, ghost op: P.Op) returns (r: Reply<bool>)
      requires Valid() && Client() == P.Idle
      modifies store, this`path
      ensures Valid() && Client() == if r.Ok? && r.value then P.Busy(op, Ref(), P.Working) else P.Idle
      ensures Extends(old(store.log), store.log) && KeepsAllBut({Lock()})
      ensures r.Err? ==> !FaultFree(old(store.log), store.log)
      ensures r.Ok? && r.value && Ours(store.quiet, store.mine, Lock()) ==> Lock() in store.bucket
      ensures |old(store.log)| < |store.log| && (r == Ok(true) ==> LockPutLast(store.log))
      ensures r != Ok(true) ==> NeverPut(store.log, |old(store.log)|)
      ensures r.Ok? && r.value && Ours(store.quiet, store.mine, Lock()) ==> LockIsFree(old(store.bucket), ttl, now)
      ensures r.Ok? && !r.value && Ours(store.quiet, store.mine, Lock()) ==> !LockIsFree(old(store.bucket), ttl, now)
    {
      ghost var was := store.log;
      r := TryPut(op);
      if r.Err? || r.value {
        return;
      }
      ghost var put := store.log;
      r := TakeOver(ttl, now, op);
      ExtendsFurther(was, put, store.log);
      NeverPutFurther(was, put, store.log);
    }

    /** The rest of `acquire_lock`, when the lock is there: take it over if it is stale. */
    method TakeOver(ttl: int, now: int, ghost op: P.Op) returns (r: Reply<bool>)
      requires Valid() && Client() == P.Busy(op, Ref(), P.Examining)
      modifies store, this`path
      ensures Valid() && Client() == if r.Ok? && r.value then P.Busy(op, Ref(), P.Working) else P.Idle
      ensures Extends(old(store.log), store.log) && KeepsAllBut({Lock()})
      ensures if r == Ok(true) then LockPutLast(store.log) else NeverPut(store.log, |old(store.log)|)
      ensures r.Err? ==> !FaultFree(old(store.log), store.log)
      ensures r.Ok? && Ours(store.quiet, store.mine, Lock()) ==> (r.value ==> Lock() in store.bucket)
      ensures r.Ok? && Ours(store.quiet, store.mine, Lock()) && Lock() in old(store.bucket) ==>
                r.value == (now - old(store.bucket)[Lock()].lastModified > ttl)
    {
      ghost var was := store.log;
      r := LockIsStale(ttl, now, op);
      if r.Err? || !r.value {
        return;
      }
      ghost var aged := store.log;
      r := Recover(op);
      ExtendsFurther(was, aged, store.log);
      NeverPutFurther(was, aged, store.log);
    }

    /** No request from `from` on created the lock. */
    ghost predicate NeverPut(log: seq<Event>, from: nat) {
      forall i :: from <= i < |log| ==> log[i].request != PutNew(Lock(), Ok(true))
    }

    lemma NeverPutFurther(was: seq<Event>, log: seq<Event>, log': seq<Event>)
      requires |was| <= |log| && Extends(log, log')
      ensures NeverPut(log', |was|) <==> NeverPut(log, |was|) && NeverPut(log', |log|)
    {
      assert forall i :: 0 <= i < |log| ==> log'[i] == log'[..|log|][i];
      if NeverPut(log', |was|) {
        forall i | |was| <= i < |log| ensures log[i].request != PutNew(Lock(), Ok(true)) {
          assert log'[i].request != PutNew(Lock(), Ok(true));
        }
      }
    }

    /** The last request deleted the lock, or tried to. */
    ghost predicate Released(log: seq<Event>) {
      log != [] && log[|log| - 1].request.Deleted? && log[|log| - 1].request.key == Lock()
    }

    /** The last request created the lock. */
    ghost predicate LockPutLast(log: seq<Event>) {
      log != [] && log[|log| - 1].request == PutNew(Lock(), Ok(true))
    }

    /** No lock key, or one older than the TTL. */
    predicate LockIsFree(bucket: Bucket, ttl: int, now: int) {
      Lock() in bucket ==> now - bucket[Lock()].lastModified > ttl
    }

    /** Whether the lock found is older than the TTL; one that is gone by now counts as contended. */
    method LockIsStale(ttl: int, now: int, ghost op: P.Op) returns (r: Reply<bool>)
      requires Valid() && Client() == P.Busy(op, Ref(), P.Examining)
      modifies store, this`path
      ensures Valid() && Client() == if r.Ok? && r.value then P.Busy(op, Ref(), P.Recovering) else P.Idle
      ensures Extends(old(store.log), store.log) && KeepsAllBut({}) && NeverPut(store.log, |old(store.log)|)
      ensures r.Err? ==> !FaultFree(old(store.log), store.log)
      ensures r.Ok? && Ours(store.quiet, store.mine, Lock()) && Lock() in old(store.bucket)
              ==> r.value == (now - old(store.bucket)[Lock()].lastModified > ttl)
    {
      ghost var was := store.log;
      var head := store.Head(Lock());
      r := match head
           case Err(NotFound) => Ok(false)
           case Err(OtherError) => Err(OtherError)
           case Ok(meta) => Ok(now - meta.lastModified > ttl);
      if r.Ok? && r.value {
        AgeActs(Repo(), op, Ref(), store.log[|was|]);
        Act(was, P.Busy(op, Ref(), P.Recovering));
      } else {
        GivingUpActs(Repo(), Client(), store.log[|was|]);
        Act(was, P.Idle);
      }
    }

    /** The lock key is put if absent, a second time. */
    method RetryPut(ghost op: P.Op) returns (r: Reply<bool>)
      requires Valid() && Client() == P.Busy(op, Ref(), P.Retrying)
      modifies store, this`path
      ensures Valid() && Client() == if r.Ok? && r.value then P.Busy(op, Ref(), P.Working) else P.Idle
      ensures store.Made(PutNew(Lock(), r)) && KeepsAllBut({Lock()})
    {
      ghost var was := store.log;
      r := store.PutIfAbsent(Lock());
      SecondPutActs(Repo(), op, Ref(), store.log[|was|], r);
      Act(was, AfterPut(op, Ref(), r, P.Idle));
    }

    /** Delete the stale lock and try once more. */
    method Recover(ghost op: P.Op) returns (r: Reply<bool>)
      requires Valid() && Client() == P.Busy(op, Ref(), P.Recovering)
      modifies store, this`path
      ensures Valid() && Client() == if r.Ok? && r.value then P.Busy(op, Ref(), P.Working) else P.Idle
      ensures Extends(old(store.log), store.log) && KeepsAllBut({Lock()})
      ensures r.Err? ==> !FaultFree(old(store.log), store.log)
      ensures r == Ok(true) ==> LockPutLast(store.log)
      ensures r != Ok(true) ==> NeverPut(store.log, |old(store.log)|)
      ensures r.Ok? && r.value && Ours(store.quiet, store.mine, Lock()) ==> Lock() in store.bucket
      ensures Ours(store.quiet, store.mine, Lock()) && r.Ok? ==> r.value
    {
      ghost var was := store.log;
      var gone; ghost var d;
      gone, d := DeleteIdempotent(Lock());
      RecoveryActs(Repo(), op, Ref(), store.log[|was|], d);
      Act(was, if d == Err(OtherError) then P.Idle else P.Busy(op, Ref(), P.Retrying));
      if gone.Err? {
        return Err(OtherError);
      }
      ghost var mid := store.log;
      r := RetryPut(op);
      ExtendsFurther(was, mid, store.log);
    }

    /** The client holds its lock, and its work has come to an end. */
    ghost predicate CanRelease()
      requires path != []
      reads this
    {
      var c := Client();
      c.Busy? && c.ref == Ref() && (c.phase.Working? || c.phase.Sweeping? || c.phase.Releasing?)
    }

    /** `release_or_warn`: one delete of the lock key; when it fails the lock is left to age out. */
    method ReleaseOrWarn()
      requires Valid() && CanRelease()
      modifies store, this`path
      ensures Valid() && Client() == P.Idle && KeepsAllBut({Lock()})
      ensures |store.log| == |old(store.log)| + 1 && Extends(old(store.log), store.log)
      ensures Released(store.log)
      ensures FaultFree(old(store.log), store.log) && Ours(store.quiet, store.mine, Lock()) ==> Lock() !in store.bucket
    {
      ghost var was := store.log;
      var r; ghost var d;
      r, d := DeleteIdempotent(Lock());
      ReleaseActs(Repo(), Client(), Ref(), store.log[|was|], d);
      Act(was, P.Idle);
    }

    // ---------------------------------------------------------------
    // The sweep.
    // ---------------------------------------------------------------

    /** delete-branch is sweeping, with these keys at least still to delete. */
    ghost predicate HasToSweep(listed: seq<ObjectMeta>, i: nat)
      requires path != []
      reads this
    {
      var c := Client();
      && c.Busy? && c.op == P.DeleteBranch && c.ref == Ref() && c.phase.Sweeping?
      && forall j :: i <= j < |listed| ==> listed[j].key in c.phase.rest
    }

    /** The sweep after the first `i` entries: what was reported, answered and done. */
    ghost predicate SweptTo(listed: seq<ObjectMeta>, i: nat, deferred: Option<string>, undeleted: seq<string>,
                            replies: seq<Reply<Done>>, was: seq<Event>, start: Bucket)
      requires i <= |listed|
      reads store
    {
      && |replies| == |SweptKeys(listed[..i], deferred)|
      && undeleted == Undeleted(SweptKeys(listed[..i], deferred), replies)
      && SweptSoFar(store.quiet, store.mine, was, store.log, start, store.bucket, SweptKeys(listed[..i], deferred),
           replies)
    }

    /** One delete of the sweep. */
    method SweepKey(listed: seq<ObjectMeta>, i: nat, ghost was: seq<Event>, ghost start: Bucket,
                    ghost keys: seq<string>, ghost replies: seq<Reply<Done>>)
      returns (r: Reply<Done>)
      requires Valid() && DistinctKeys(listed) && i < |listed| && HasToSweep(listed, i) && listed[i].key !in keys
      requires SweptSoFar(store.quiet, store.mine, was, store.log, start, store.bucket, keys, replies)
      modifies store, this`path
      ensures Valid() && HasToSweep(listed, i + 1)
      ensures SweptSoFar(store.quiet, store.mine, was, store.log, start, store.bucket, keys + [listed[i].key],
                replies + [r])
    {
      ghost var log, now := store.log, store.bucket;
      r := store.Delete(listed[i].key);
      SweepActs(Repo(), Ref(), Client().phase.rest, store.log[|log|], listed[i].key, r);
      Act(log, P.Busy(P.DeleteBranch, Ref(), P.Sweeping(Client().phase.rest - {listed[i].key})));
      SweepOneMore(store.quiet, store.mine, was, log, store.log, start, now, keys, replies, listed[i].key, r);
    }

    /** One turn of the delete loop. */
    method SweepNext(listed: seq<ObjectMeta>, i: nat, deferred: Option<string>, undeleted: seq<string>,
                     ghost replies: seq<Reply<Done>>, ghost was: seq<Event>, ghost start: Bucket)
      returns (undeleted': seq<string>, ghost replies': seq<Reply<Done>>)
      requires Valid() && DistinctKeys(listed) && i < |listed| && HasToSweep(listed, i)
      requires SweptTo(listed, i, deferred, undeleted, replies, was, start)
      modifies store, this`path
      ensures Valid() && HasToSweep(listed, i + 1)
      ensures SweptTo(listed, i + 1, deferred, undeleted', replies', was, start)
    {
      undeleted', replies' := undeleted, replies;
      NextSweptKey(listed, i, deferred);
      if deferred == Some(listed[i].key) {
        return;
      }
      ghost var keys := SweptKeys(listed[..i], deferred);
      var r := SweepKey(listed, i, was, start, keys, replies);
      UndeletedMore(keys, replies, listed[i].key, r);
      replies' := replies + [r];
      if r == Err(OtherError) {
        undeleted' := undeleted + [listed[i].key];
      }
    }

    /** The delete loop: collect failures, never stop at one. */
    method Sweep(listed: seq<ObjectMeta>, deferred: Option<string>)
      returns (undeleted: seq<string>, ghost replies: seq<Reply<Done>>)
      requires Valid() && DistinctKeys(listed) && HasToSweep(listed, 0)
      modifies store, this`path
      ensures Valid() && HasToSweep(listed, |listed|)
      ensures SweptTo(listed, |listed|, deferred, undeleted, replies, old(store.log), old(store.bucket))
    {
      undeleted, replies := [], [];
      SweptNothing(listed, deferred);
      for i := 0 to |listed|
        invariant Valid() && HasToSweep(listed, i)
        invariant SweptTo(listed, i, deferred, undeleted, replies, old(store.log), old(store.bucket))
      {
        undeleted, replies := SweepNext(listed, i, deferred, undeleted, replies, old(store.log), old(store.bucket));
      }
    }

    lemma SweptNothing(listed: seq<ObjectMeta>, deferred: Option<string>)
      ensures SweptTo(listed, 0, deferred, [], [], store.log, store.bucket)
    {
      assert listed[..0] == [];
    }

    /** The manifest read at `i` names a listed bundle as its baseline. */
    ghost predicate NamesBaseline(log: seq<Event>, i: nat, listed: seq<ObjectMeta>, baseline: string) {
      && i < |log| && Lists(listed, baseline)
      && log[i].request.Got? && log[i].request.key == Chain() && log[i].request.body.Ok?
      && log[i].request.body.value in baselines
      && baseline == BundleKey(prefix, Ref(), baselines[log[i].request.body.value])
    }

    /** A tombstone was written at `i`. */
    ghost predicate Tombstoned(log: seq<Event>, i: nat) {
      i < |log| && exists uuid, text :: log[i].request == Put(TombstoneKey(prefix, uuid), text, Ok(Done))
    }

    /** A tombstone could not be written at `i`. */
    ghost predicate TombstoneFailed(log: seq<Event>, i: nat) {
      i < |log| && exists uuid, text, e :: log[i].request == Put(TombstoneKey(prefix, uuid), text, Err(e))
    }

    /**
     * The manifest was fetched at `i`; the listed baseline it names is deferred when its
     * tombstone was written next, and there is none to defer, or it could not be, otherwise.
     */
    ghost predicate Defers(log: seq<Event>, i: nat, listed: seq<ObjectMeta>, deferred: Option<string>) {
      && i < |log| && log[i].request.Got? && log[i].request.key == Chain()
      && match deferred
         case Some(baseline) => NamesBaseline(log, i, listed, baseline) && Tombstoned(log, i + 1)
         case None => TombstoneFailed(log, i + 1) || forall baseline :: !NamesBaseline(log, i, listed, baseline)
    }

    lemma StillDefers(log: seq<Event>, log': seq<Event>, i: nat, listed: seq<ObjectMeta>, deferred: Option<string>)
      requires Defers(log, i, listed, deferred) && Extends(log, log')
      ensures Defers(log', i, listed, deferred)
    {
      assert log'[i] == log[i];
      assert i + 1 < |log| ==> log'[i + 1] == log[i + 1];
      if deferred.None? && !TombstoneFailed(log, i + 1) {
        forall baseline ensures !NamesBaseline(log', i, listed, baseline) {
          assert !NamesBaseline(log, i, listed, baseline);
        }
      }
    }

    /** The baseline bundle that the manifest on the bucket names, if it is listed. */
    ghost function BaselineIn(listed: seq<ObjectMeta>, bucket: Bucket): Option<string> {
      if Chain() in bucket && bucket[Chain()].body in baselines
           && Lists(listed, BundleKey(prefix, Ref(), baselines[bucket[Chain()].body]))
      then Some(BundleKey(prefix, Ref(), baselines[bucket[Chain()].body]))
      else None
    }

    /** That baseline is deferred, unless a request met a fault. */
    ghost predicate RightlyDefers(listed: seq<ObjectMeta>, bucket: Bucket, clean: bool, deferred: Option<string>) {
      deferred == BaselineIn(listed, bucket) || (deferred == None && !clean)
    }

    /** Every key of ours under the ref is as it was when the method began. */
    twostate predicate KeepsRef()
      reads store
    {
      forall k :: Ours(store.quiet, store.mine, k) && StartsWith(k, Dir()) ==>
          KeptAt(old(store.bucket), store.bucket, k)
    }

    /** The manifest is read: which listed bundle it names as its baseline. */
    method FindBaseline(listed: seq<ObjectMeta>) returns (bundle: Option<string>)
      requires Valid()
      modifies store, this`path
      ensures Valid() && Client() == old(Client()) && KeepsRef()
      ensures |store.log| == |old(store.log)| + 1 && Extends(old(store.log), store.log)
      ensures store.log[|old(store.log)|].request.Got? && store.log[|old(store.log)|].request.key == Chain()
      ensures bundle.Some? ==> NamesBaseline(store.log, |old(store.log)|, listed, bundle.value)
      ensures bundle.None? ==> forall b :: !NamesBaseline(store.log, |old(store.log)|, listed, b)
      ensures Ours(store.quiet, store.mine, Chain()) ==>
                RightlyDefers(listed, old(store.bucket), FaultFree(old(store.log), store.log), bundle)
    {
      ghost var was := store.log;
      var chain := store.GetBytes(Chain());
      ReadingActs(Repo(), Client(), store.log[|was|]);
      Act(was, Client());
      assert chain.Err? ==> chain.error.NotFound? || chain.error.OtherError?;
      assert chain == Err(OtherError) ==> Faulty(store.log[|was|].request) && !FaultFree(was, store.log);
      assert Ours(store.quiet, store.mine, Chain()) ==> KeptAt(old(store.bucket), store.log[|was|].before, Chain());
      if chain.Err? || chain.value !in baselines {
        return None;
      }
      var named := BundleKey(prefix, Ref(), baselines[chain.value]);
      return if Lists(listed, named) then Some(named) else None;
    }

    /** A tombstone is written; it lies in no ref's listing. */
    method WriteTombstone(uuid: string, json: string) returns (put: Reply<Done>)
      requires Valid()
      modifies store, this`path
      ensures Valid() && Client() == old(Client()) && KeepsRef()
      ensures |store.log| == |old(store.log)| + 1 && Extends(old(store.log), store.log)
      ensures store.log[|old(store.log)|].request == Put(TombstoneKey(prefix, uuid), json, put)
    {
      ghost var was := store.log;
      put := store.PutBytes(TombstoneKey(prefix, uuid), json);
      TombstoneActs(Repo(), Client(), store.log[|was|], uuid, json, put);
      TombstonesAreNotRefs(prefix, Ref(), uuid);
      Act(was, Client());
    }

    /**
     * `try_write_baseline_tombstone` (src/packchain/gc.rs): the baseline bundle that chain.json
     * names, if it is listed and its tombstone could be written.
     */
    method TryTombstoneBaseline(listed: seq<ObjectMeta>, uuid: string, json: string) returns (deferred: Option<string>)
      requires Valid()
      modifies store, this`path
      ensures Valid() && Client() == old(Client()) && KeepsRef() && Extends(old(store.log), store.log)
      ensures Defers(store.log, |old(store.log)|, listed, deferred)
      ensures forall i :: |old(store.log)| <= i < |store.log| ==> !store.log[i].request.Deleted?
      ensures Ours(store.quiet, store.mine, Chain()) ==>
                RightlyDefers(listed, old(store.bucket), FaultFree(old(store.log), store.log), deferred)
    {
      ghost var was := store.log;
      var bundle := FindBaseline(listed);
      if bundle.None? {
        return None;
      }
      ghost var got := store.log;
      var put := WriteTombstone(uuid, json);
      assert store.log[|was|] == got[|was|];
      ExtendsFurther(was, got, store.log);
      if put.Ok? {
        assert put.value == Done;
        deferred := bundle;
      } else {
        assert put == Err(put.error);
        deferred := None;
      }
    }

    /** `verify_no_orphan_protected_after_delete`: looks, and only warns. */
    method VerifyNoOrphan()
      requires Valid()
      modifies store, this`path
      ensures Valid() && Client() == old(Client()) && KeepsAllBut({})
      ensures |store.log| == |old(store.log)| + 1 && Extends(old(store.log), store.log)
      ensures store.log[|old(store.log)|].request.Headed?
    {
      ghost var was := store.log;
      var _ := store.Head(Marker());
      ReadingActs(Repo(), Client(), store.log[|was|]);
      Act(was, Client());
    }

    /** Tombstone and sweep. */
    method TombstoneAndSweep(listed: seq<ObjectMeta>, uuid: string, json: string)
      returns (deferred: Option<string>, undeleted: seq<string>, ghost replies: seq<Reply<Done>>, ghost swept: nat)
      requires Valid() && DistinctKeys(listed) && HasToSweep(listed, 0)
      modifies store, this`path
      ensures Valid() && HasToSweep(listed, |listed|) && Extends(old(store.log), store.log)
      ensures Defers(store.log, |old(store.log)|, listed, deferred)
      ensures Ours(store.quiet, store.mine, Chain()) ==>
                RightlyDefers(listed, old(store.bucket), FaultFree(old(store.log), store.log), deferred)
      ensures SweepDone(store.quiet, store.mine, Dir(), old(store.log), store.log, old(store.bucket), store.bucket,
                        SweptKeys(listed, deferred), replies, swept)
      ensures undeleted == Undeleted(SweptKeys(listed, deferred), replies)
    {
      deferred := TryTombstoneBaseline(listed, uuid, json);
      ghost var was, log, tombstoned := old(store.log), store.log, store.bucket;
      swept := |log|;
      undeleted, replies := Sweep(listed, deferred);
      assert listed[..|listed|] == listed;
      ghost var keys := SweptKeys(listed, deferred);
      ThenSwept(store.quiet, store.mine, Dir(), old(store.bucket), tombstoned, store.bucket, keys, undeleted);
      SweptAfter(was, log, store.log, keys, replies);
      StillDefers(log, store.log, |was|, listed, deferred);
    }

    /** The second half of `delete_under_lock`: tombstone, sweep, report. */
    method SweepAndReport(listed: seq<ObjectMeta>, uuid: string, json: string)
      returns (outcome: Outcome, ghost deferred: Option<string>, ghost replies: seq<Reply<Done>>, ghost swept: nat)
      requires Valid() && DistinctKeys(listed) && HasToSweep(listed, 0)
      modifies store, this`path
      ensures Valid() && CanRelease() && Extends(old(store.log), store.log)
      ensures Defers(store.log, |old(store.log)|, listed, deferred)
      ensures Ours(store.quiet, store.mine, Chain()) ==>
                RightlyDefers(listed, old(store.bucket), FaultFree(old(store.log), store.log), deferred)
      ensures SweepDone(store.quiet, store.mine, Dir(), old(store.log), store.log, old(store.bucket), store.bucket,
                        SweptKeys(listed, deferred), replies, swept)
      ensures outcome == SweepOutcome(SweptKeys(listed, deferred), replies)
      ensures IsPartial(outcome) ==> !FaultFree(old(store.log), store.log)
    {
      var spared, undeleted;
      spared, undeleted, replies, swept := TombstoneAndSweep(listed, uuid, json);
      deferred := spared;
      SweptKeysAre(listed, spared);
      var attempted := |listed| - (if spared.Some? then 1 else 0);
      if undeleted != [] {
        outcome := Failed(PartialDelete(undeleted, attempted));
        if FaultFree(old(store.log), store.log) {
          LeftByFault(old(store.log), store.log, SweptKeys(listed, deferred), replies, swept);
        }
        return;
      }
      ghost var was, log, now, keys := old(store.log), store.log, store.bucket, SweptKeys(listed, deferred);
      VerifyNoOrphan();
      DoneThenRead(store.quiet, store.mine, Dir(), was, log, store.log, old(store.bucket), now, store.bucket, keys,
          replies, swept);
      StillDefers(log, store.log, |was|, listed, deferred);
      outcome := BranchDeleted;
    }

    // ---------------------------------------------------------------
    // delete-branch.
    // ---------------------------------------------------------------

    /** The under-lock listing, without the lock; a listing to sweep starts the sweep, any other ends the work. */
    method ListForDelete() returns (r: Reply<seq<ObjectMeta>>)
      requires Valid() && Client() == P.Busy(P.DeleteBranch, Ref(), P.Working)
      modifies store, this`path
      ensures Valid() && CanRelease() && KeepsAllBut({})
      ensures |store.log| == |old(store.log)| + 1 && Extends(old(store.log), store.log)
      ensures ShowsWork(store.log, |old(store.log)|, r)
      ensures r.Err? ==> !FaultFree(old(store.log), store.log)
      ensures r.Ok? ==> IsListingWithout(r.value, Dir(), Lock(), store.bucket)
      ensures r.Ok? && r.value != [] && !EntriesHaveProtectedMarker(r.value) ==> HasToSweep(r.value, 0)
    {
      ghost var was := store.log;
      var entries := store.List(Dir());
      if entries.Ok? {
        r := Ok(WithoutKey(entries.value, Lock()));
        WithoutKeyIsListing(entries.value, Dir(), Lock(), store.bucket);
        if r.value != [] && !EntriesHaveProtectedMarker(r.value) {
          ShownIsListed(r.value, Dir(), Lock(), store.bucket);
          SweepStarts(Repo(), Ref(), store.log[|was|], r.value);
          Act(was, P.Busy(P.DeleteBranch, Ref(), P.Sweeping(KeySet(r.value))));
          return;
        }
      } else {
        r := Err(entries.error);
      }
      WorkEnds(Repo(), P.DeleteBranch, Ref(), store.log[|was|]);
      Act(was, P.Busy(P.DeleteBranch, Ref(), P.Releasing));
    }

    /** What a listing of the ref shows but for the lock. */
    ghost function ShownBy(listing: Reply<seq<ObjectMeta>>): Reply<seq<ObjectMeta>> {
      match listing
      case Ok(entries) => Ok(WithoutKey(entries, Lock()))
      case Err(e) => Err(e)
    }

    /** The request at `n` listed the ref, and this is what it showed. */
    ghost predicate ShowsWork(log: seq<Event>, n: nat, shown: Reply<seq<ObjectMeta>>) {
      n < |log| && log[n].request.Listed? && log[n].request.prefix == Dir() && shown == ShownBy(log[n].request.listing)
    }

    /** After `n` these keys were deleted, in this order and with these answers, and otherwise only the lock. */
    ghost predicate DeletesOnly(log: seq<Event>, n: nat, keys: seq<string>, replies: seq<Reply<Done>>) {
      exists at :: DeletesAt(log, n, keys, replies, at)
    }

    ghost predicate DeletesAt(log: seq<Event>, n: nat, keys: seq<string>, replies: seq<Reply<Done>>, at: nat) {
      && n < at && |replies| == |keys| && at + |keys| <= |log|
      && IsSweep(log[at..at + |keys|], keys, replies)
      && forall i :: n < i < |log| && log[i].request.Deleted? && log[i].request.key != Lock() ==> at <= i < at + |keys|
    }

    /**
     * The listing at `n` decided how the work ended: the keys deleted were those it showed,
     * without the lock and the deferred baseline, and the outcome is what the deletes answered.
     */
    ghost predicate WorksAsListed(log: seq<Event>, n: nat, outcome: Outcome, deferred: Option<string>) {
      && n < |log| && log[n].request.Listed? && log[n].request.prefix == Dir()
      && match ShownBy(log[n].request.listing)
         case Err(_) => outcome == Failed(StoreFailed) && deferred == None
         case Ok(listed) =>
           if listed == [] then outcome == AlreadyGone && deferred == None
           else if EntriesHaveProtectedMarker(listed) then outcome == Failed(Protected) && deferred == None
           else SweptAsShown(log, n, listed, outcome, deferred)
    }

    ghost predicate SweptAsShown(log: seq<Event>, n: nat, listed: seq<ObjectMeta>, outcome: Outcome,
                                 deferred: Option<string>)
    {
      && Defers(log, n + 1, listed, deferred)
      && exists replies :: Answers(log, n, SweptKeys(listed, deferred), replies, outcome)
    }

    /** The deletes after `n` were of these keys, and this is what their answers come to. */
    ghost predicate Answers(log: seq<Event>, n: nat, keys: seq<string>, replies: seq<Reply<Done>>, outcome: Outcome) {
      |replies| == |keys| && outcome == SweepOutcome(keys, replies) && DeletesOnly(log, n, keys, replies)
    }

    lemma SweptIsAsShown(was: seq<Event>, log: seq<Event>, log': seq<Event>, listed: seq<ObjectMeta>,
                         outcome: Outcome, deferred: Option<string>, replies: seq<Reply<Done>>, at: nat)
      requires |log| == |was| + 1 && Extends(log, log') && ShowsWork(log, |was|, Ok(listed))
      requires listed != [] && !EntriesHaveProtectedMarker(listed)
      requires Defers(log', |log|, listed, deferred)
      requires SweptOnce(log, log', SweptKeys(listed, deferred), replies, at)
      requires outcome == SweepOutcome(SweptKeys(listed, deferred), replies)
      ensures WorksAsListed(log', |was|, outcome, deferred)
    {
      assert log'[|was|] == log'[..|log|][|was|];
      assert ShowsWork(log', |was|, Ok(listed));
      assert DeletesAt(log', |was|, SweptKeys(listed, deferred), replies, at);
      assert Answers(log', |was|, SweptKeys(listed, deferred), replies, outcome);
    }

    lemma DeletedThenReleased(log: seq<Event>, log': seq<Event>, n: nat, keys: seq<string>, replies: seq<Reply<Done>>,
                              at: nat)
      requires DeletesAt(log, n, keys, replies, at) && Extends(log, log') && |log'| == |log| + 1
      requires Released(log')
      ensures DeletesAt(log', n, keys, replies, at)
    {
      assert forall i :: 0 <= i < |log| ==> log'[i] == log'[..|log|][i];
      assert log'[at..at + |keys|] == log[at..at + |keys|];
    }

    lemma SweptThenReleased(log: seq<Event>, log': seq<Event>, n: nat, listed: seq<ObjectMeta>, outcome: Outcome,
                            deferred: Option<string>)
      requires SweptAsShown(log, n, listed, outcome, deferred) && Extends(log, log') && |log'| == |log| + 1
      requires Released(log')
      ensures SweptAsShown(log', n, listed, outcome, deferred)
    {
      StillDefers(log, log', n + 1, listed, deferred);
      var keys := SweptKeys(listed, deferred);
      var replies :| Answers(log, n, keys, replies, outcome);
      var at :| DeletesAt(log, n, keys, replies, at);
      DeletedThenReleased(log, log', n, keys, replies, at);
      assert Answers(log', n, keys, replies, outcome);
    }

    /** The release deletes only the lock. */
    lemma WorkedThenReleased(log: seq<Event>, log': seq<Event>, n: nat, outcome: Outcome, deferred: Option<string>)
      requires WorksAsListed(log, n, outcome, deferred) && Extends(log, log') && |log'| == |log| + 1
      requires Released(log')
      ensures WorksAsListed(log', n, outcome, deferred)
    {
      assert log'[n] == log'[..|log|][n];
      var shown := ShownBy(log[n].request.listing);
      if shown.Ok? && shown.value != [] && !EntriesHaveProtectedMarker(shown.value) {
        SweptThenReleased(log, log', n, shown.value, outcome, deferred);
      }
    }

    /** The keys under the ref are swept if the outcome says so, and as they were if not. */
    ghost predicate SweptIfSo(at: Bucket, swept: Bucket, outcome: Outcome, keys: seq<string>,
                              replies: seq<Reply<Done>>)
      requires Swept(outcome) ==> |replies| == |keys|
    {
      forall k :: Ours(store.quiet, store.mine, k) && StartsWith(k, Dir()) ==>
        if Swept(outcome) then SweptAt(at, swept, keys, Undeleted(keys, replies), k) else KeptAt(at, swept, k)
    }

    /**
     * What `delete_under_lock` came to: the under-lock listing without the lock, taken from the
     * bucket `at`, decides whether it swept, and the answers to the deletes how.
     */
    ghost predicate WorkDid(at: Bucket, swept: Bucket, outcome: Outcome, listed: Option<seq<ObjectMeta>>,
                            deferred: Option<string>, replies: seq<Reply<Done>>)
    {
      && (listed.None? <==> outcome == Failed(StoreFailed))
      && (outcome in {AlreadyGone, Failed(Protected), Failed(StoreFailed)} || Swept(outcome))
      && var keys := if listed.Some? then SweptKeys(listed.value, deferred) else [];
      && (listed.Some? ==>
           && IsListingWithout(listed.value, Dir(), Lock(), at)
           && (outcome == AlreadyGone <==> listed.value == [])
           && (outcome == Failed(Protected) <==> EntriesHaveProtectedMarker(listed.value)))
      && (Swept(outcome) ==> |replies| == |keys| && outcome == SweepOutcome(keys, replies))
      && (deferred.Some? ==> Swept(outcome) && Lists(listed.value, deferred.value))
      && SweptIfSo(at, swept, outcome, keys, replies)
    }

    /** A failed, an empty and a protected listing end the work at once. */
    lemma EndsAtOnce(log: seq<Event>, n: nat, at: Bucket, shown: Reply<seq<ObjectMeta>>, outcome: Outcome)
      requires ShowsWork(log, n, shown) && (shown.Ok? ==> IsListingWithout(shown.value, Dir(), Lock(), at))
      requires match shown
               case Err(_) => outcome == Failed(StoreFailed)
               case Ok(listed) =>
                 if listed == [] then outcome == AlreadyGone
                 else outcome == Failed(Protected) && EntriesHaveProtectedMarker(listed)
      ensures WorkDid(at, at, outcome, if shown.Ok? then Some(shown.value) else None, None, [])
      ensures WorksAsListed(log, n, outcome, None)
    {
    }

    lemma SweptDid(at: Bucket, swept: Bucket, outcome: Outcome, listed: seq<ObjectMeta>, deferred: Option<string>,
                   replies: seq<Reply<Done>>, was: seq<Event>, log: seq<Event>, from: nat)
      requires IsListingWithout(listed, Dir(), Lock(), at) && listed != [] && !EntriesHaveProtectedMarker(listed)
      requires SweepDone(store.quiet, store.mine, Dir(), was, log, at, swept, SweptKeys(listed, deferred), replies,
                         from)
      requires outcome == SweepOutcome(SweptKeys(listed, deferred), replies)
      requires deferred.Some? ==> Lists(listed, deferred.value)
      ensures WorkDid(at, swept, outcome, Some(listed), deferred, replies)
    {
    }

    /** `delete_under_lock`. */
    method DeleteUnderLock(uuid: string, json: string)
      returns (outcome: Outcome, ghost listed: Option<seq<ObjectMeta>>, ghost at: Bucket,
               ghost deferred: Option<string>, ghost replies: seq<Reply<Done>>)
      requires Valid() && Client() == P.Busy(P.DeleteBranch, Ref(), P.Working)
      modifies store, this`path
      ensures Valid() && CanRelease() && Extends(old(store.log), store.log)
      ensures WorkDid(at, store.bucket, outcome, listed, deferred, replies)
      ensures WorksAsListed(store.log, |old(store.log)|, outcome, deferred)
      ensures deferred.Some? ==> EndsWith(deferred.value, ".bundle")
      ensures Swept(outcome) && Ours(store.quiet, store.mine, Chain()) ==>
                RightlyDefers(listed.value, at, FaultFree(old(store.log), store.log), deferred)
      ensures outcome == Failed(StoreFailed) || IsPartial(outcome) ==> !FaultFree(old(store.log), store.log)
      ensures forall k :: Ours(store.quiet, store.mine, k) ==> KeptAt(old(store.bucket), at, k)
    {
      listed, deferred, replies := None, None, [];
      ghost var was := store.log;
      var found := ListForDelete();
      at := store.bucket;
      if found.Err? {
        outcome := Failed(StoreFailed);
        EndsAtOnce(store.log, |was|, at, found, outcome);
        return;
      }
      listed := Some(found.value);
      if found.value == [] {
        outcome := AlreadyGone;
        EndsAtOnce(store.log, |was|, at, found, outcome);
        return;
      }
      if EntriesHaveProtectedMarker(found.value) {
        outcome := Failed(Protected);
        EndsAtOnce(store.log, |was|, at, found, outcome);
        return;
      }
      ghost var log, swept := store.log, 0;
      outcome, deferred, replies, swept := SweepAndReport(found.value, uuid, json);
      ExtendsFurther(was, log, store.log);
      SweptDid(at, store.bucket, outcome, found.value, deferred, replies, log, store.log, swept);
      SweptIsAsShown(was, log, store.log, found.value, outcome, deferred, replies, swept);
    }

    /** A key of ours under the ref, other than its lock. */
    ghost predicate OursUnderRef(k: string) {
      Ours(store.quiet, store.mine, k) && StartsWith(k, Dir()) && k != Lock()
    }

    /** A protection marker somewhere under the ref. */
    ghost predicate Guarded(bucket: Bucket) {
      exists k :: k in bucket && StartsWith(k, Dir()) && IsMarkerKey(k)
    }

    /** A listing refuses exactly when there is a marker to list. */
    lemma RefusedIffGuarded(listed: seq<ObjectMeta>, at: Bucket)
      requires IsListingWithout(listed, Dir(), Lock(), at)
      ensures EntriesHaveProtectedMarker(listed) <==> Guarded(at)
    {
      LockKeyIsLock(prefix, Ref());
      ShownIsListed(listed, Dir(), Lock(), at);
      if i :| 0 <= i < |listed| && IsMarkerKey(listed[i].key) {
        assert Lists(listed, listed[i].key);
      }
      if k :| k in at && StartsWith(k, Dir()) && IsMarkerKey(k) {
        assert Lists(listed, k);
      }
    }

    /** The baseline that the bucket's manifest names, if it is there: what an undisturbed delete-branch defers. */
    ghost function Baseline(bucket: Bucket): (deferred: Option<string>)
      ensures deferred.Some? ==> Chain() in bucket && deferred.value in bucket && StartsWith(deferred.value, Dir())
      ensures deferred.Some? ==> deferred.value != Chain() && deferred.value != Lock()
    {
      if Chain() in bucket && bucket[Chain()].body in baselines
           && BundleKey(prefix, Ref(), baselines[bucket[Chain()].body]) in bucket
      then
        BundleIsOther(baselines[bucket[Chain()].body]);
        Some(BundleKey(prefix, Ref(), baselines[bucket[Chain()].body]))
      else None
    }

    lemma BundleIsOther(sha: string)
      ensures BundleKey(prefix, Ref(), sha) != Chain() && BundleKey(prefix, Ref(), sha) != Lock()
      ensures StartsWith(BundleKey(prefix, Ref(), sha), Dir())
    {
      var key := BundleKey(prefix, Ref(), sha);
      Associates(Dir(), sha, ".bundle");
      assert key[|key| - 1] == 'e' && Chain()[|Chain()| - 1] == 'n' && Lock()[|Lock()| - 1] == 'k';
    }

    lemma BaselineIsListed(listed: seq<ObjectMeta>, at: Bucket)
      requires IsListingWithout(listed, Dir(), Lock(), at)
      ensures BaselineIn(listed, at) == Baseline(at)
    {
      ShownIsListed(listed, Dir(), Lock(), at);
      if Chain() in at && at[Chain()].body in baselines {
        BundleIsOther(baselines[at[Chain()].body]);
      }
    }

    lemma SameBaseline(before: Bucket, at: Bucket)
      requires forall k :: OursUnderRef(k) ==> KeptAt(before, at, k)
      ensures store.quiet ==> Baseline(at) == Baseline(before)
    {
      ChainIsNotLock();
      if store.quiet {
        assert OursUnderRef(Chain());
        if Chain() in at && at[Chain()].body in baselines {
          BundleIsOther(baselines[at[Chain()].body]);
          assert OursUnderRef(BundleKey(prefix, Ref(), baselines[at[Chain()].body]));
        }
      }
    }

    /** The run keeps every key under the ref but its lock. */
    ghost predicate KeepsAll(run: DeleteRun) {
      forall k :: StartsWith(k, Dir()) && k != Lock() ==> KeptAt(run.before, run.after, k)
    }

    /**
     * What a delete-branch in a quiet bucket does. No key under the ref appears or changes, and
     * a deferred baseline stays; a protected ref, a no and a fresh lock keep everything; and
     * when no request meets a fault, the answer is yes and the lock is free, an unprotected ref
     * is left with nothing but the baseline its manifest names.
     */
    ghost predicate DeletesQuietly(run: DeleteRun) {
      && (forall k :: StartsWith(k, Dir()) && k != Lock() ==> ShrinksAt(run.before, run.after, k))
      && (run.deferred.Some? ==> run.deferred == Baseline(run.before) && run.deferred.value in run.after)
      && (Guarded(run.before) || !run.answer || !LockIsFree(run.before, run.ttl, run.now) ==> KeepsAll(run))
      && (run.clean && run.answer && LockIsFree(run.before, run.ttl, run.now) && !Guarded(run.before) ==>
            && run.outcome in {AlreadyGone, BranchDeleted} && run.deferred == Baseline(run.before)
            && forall k :: StartsWith(k, Dir()) && k in run.after ==> run.deferred == Some(k))
    }

    /**
     * What a delete-branch leaves of the keys of ours under the ref: none appears or changes;
     * all stay unless it swept; after a success the deferred one stays and no other, after a
     * partial one also those it reports.
     */
    ghost predicate LeavesRef(before: Bucket, after: Bucket, outcome: Outcome, deferred: Option<string>) {
      && (forall k :: OursUnderRef(k) ==> ShrinksAt(before, after, k))
      && (!Swept(outcome) ==> forall k :: OursUnderRef(k) ==> KeptAt(before, after, k))
      && (deferred.Some? && OursUnderRef(deferred.value) ==> deferred.value in after)
      && (outcome in {AlreadyGone, BranchDeleted} ==> forall k :: OursUnderRef(k) && k in after ==> deferred == Some(k))
      && (IsPartial(outcome) ==>
            forall k :: OursUnderRef(k) && k in after ==> deferred == Some(k) || k in outcome.error.undeleted)
    }

    /** What the work did to the listing's keys, and then the release, leave. */
    lemma WorkLeavesRef(before: Bucket, at: Bucket, swept: Bucket, after: Bucket, outcome: Outcome,
                        listed: seq<ObjectMeta>, deferred: Option<string>, replies: seq<Reply<Done>>)
      requires WorkDid(at, swept, outcome, Some(listed), deferred, replies)
      requires forall k :: Ours(store.quiet, store.mine, k) ==> KeptAt(before, at, k)
      requires forall k :: Ours(store.quiet, store.mine, k) && k !in {Lock()} ==> KeptAt(swept, after, k)
      ensures LeavesRef(before, after, outcome, deferred)
    {
      forall k | OursUnderRef(k)
        ensures ShrinksAt(before, after, k)
        ensures k in after && Swept(outcome) ==>
                  deferred == Some(k) || k in Undeleted(SweptKeys(listed, deferred), replies)
        ensures deferred == Some(k) ==> k in after
      {
        assert Ours(store.quiet, store.mine, k) && StartsWith(k, Dir());
        assert KeptAt(before, at, k) && KeptAt(swept, after, k);
        if deferred == Some(k) {
          SparedIsNotSwept(listed, k);
          assert k in at;
        }
        if Swept(outcome) {
          AfterSweep(listed, Dir(), Lock(), at, swept, deferred, Undeleted(SweptKeys(listed, deferred), replies), k);
        }
      }
    }

    /** The same for any work, with what a marker does to it. */
    lemma WorkSettles(before: Bucket, at: Bucket, swept: Bucket, after: Bucket, outcome: Outcome,
                      listed: Option<seq<ObjectMeta>>, deferred: Option<string>, replies: seq<Reply<Done>>)
      requires WorkDid(at, swept, outcome, listed, deferred, replies)
      requires forall k :: Ours(store.quiet, store.mine, k) ==> KeptAt(before, at, k)
      requires forall k :: Ours(store.quiet, store.mine, k) && k !in {Lock()} ==> KeptAt(swept, after, k)
      ensures LeavesRef(before, after, outcome, deferred)
      ensures OursUnderRef(Marker()) && Marker() in before ==> !Swept(outcome)
      ensures store.quiet && outcome != Failed(StoreFailed) ==> (outcome == Failed(Protected) <==> Guarded(before))
    {
      if listed.Some? {
        WorkLeavesRef(before, at, swept, after, outcome, listed.value, deferred, replies);
        RefusedIffGuarded(listed.value, at);
        MarkerGuards(at);
        SameGuard(before, at);
      } else {
        forall k | OursUnderRef(k) ensures KeptAt(before, after, k) {
          assert KeptAt(before, at, k) && KeptAt(at, swept, k) && KeptAt(swept, after, k);
        }
      }
    }

    /** `delete_under_lock` and the release that follows it on every path. */
    method DeleteHoldingLock(uuid: string, json: string) returns (outcome: Outcome, ghost deferred: Option<string>)
      requires Valid() && Client() == P.Busy(P.DeleteBranch, Ref(), P.Working)
      modifies store, this`path
      ensures Valid() && Client() == P.Idle && Extends(old(store.log), store.log)
      ensures LeavesRef(old(store.bucket), store.bucket, outcome, deferred)
      ensures OursUnderRef(Marker()) && Marker() in old(store.bucket) ==> !Swept(outcome)
      ensures deferred.Some? ==> Swept(outcome) && EndsWith(deferred.value, ".bundle")
      ensures store.quiet && Swept(outcome) ==>
                deferred == Baseline(old(store.bucket)) || (deferred == None && !FaultFree(old(store.log), store.log))
      ensures Released(store.log) && WorksAsListed(store.log, |old(store.log)|, outcome, deferred)
      ensures outcome in {AlreadyGone, Failed(Protected), Failed(StoreFailed)} || Swept(outcome)
      ensures outcome == Failed(StoreFailed) || IsPartial(outcome) ==> !FaultFree(old(store.log), store.log)
      ensures store.quiet && outcome != Failed(StoreFailed) ==>
                (outcome == Failed(Protected) <==> Guarded(old(store.bucket)))
      ensures store.quiet && FaultFree(old(store.log), store.log) ==> Lock() !in store.bucket
    {
      ghost var listed, at, replies;
      outcome, listed, at, deferred, replies := DeleteUnderLock(uuid, json);
      ghost var was, log, swept := old(store.log), store.log, store.bucket;
      ReleaseOrWarn();
      ExtendsFurther(was, log, store.log);
      WorkedThenReleased(log, store.log, |was|, outcome, deferred);
      WorkSettles(old(store.bucket), at, swept, store.bucket, outcome, listed, deferred, replies);
      SameBaseline(old(store.bucket), at);
      if listed.Some? {
        BaselineIsListed(listed.value, at);
      }
    }

    lemma SameGuard(before: Bucket, at: Bucket)
      requires forall k :: Ours(store.quiet, store.mine, k) && k != Lock() ==> KeptAt(before, at, k)
      ensures store.quiet ==> (Guarded(at) <==> Guarded(before))
    {
      LockKeyIsLock(prefix, Ref());
      if k :| store.quiet && k in before && StartsWith(k, Dir()) && IsMarkerKey(k) {
        assert KeptAt(before, at, k);
      }
      if k :| store.quiet && k in at && StartsWith(k, Dir()) && IsMarkerKey(k) {
        assert KeptAt(before, at, k);
      }
    }

    lemma MarkerGuards(at: Bucket)
      ensures Marker() in at ==> Guarded(at)
    {
      MarkerKeyIsMarker(prefix, Ref());
    }

    /** The same, when the keys were left alone up to where the lock was held. */
    lemma LeavesRefSince(before: Bucket, held: Bucket, after: Bucket, outcome: Outcome, deferred: Option<string>)
      requires forall k :: OursUnderRef(k) ==> KeptAt(before, held, k)
      requires LeavesRef(held, after, outcome, deferred)
      ensures LeavesRef(before, after, outcome, deferred)
    {
      forall k | OursUnderRef(k) ensures ShrinksAt(before, after, k) && (!Swept(outcome) ==> KeptAt(before, after, k)) {
        assert KeptAt(before, held, k) && ShrinksAt(held, after, k);
      }
    }

    /** In a quiet bucket every key under the ref but its lock is ours. */
    lemma QuietDelete(run: DeleteRun)
      requires store.quiet && LeavesRef(run.before, run.after, run.outcome, run.deferred)
      requires run.deferred.Some? ==> Swept(run.outcome)
      requires Swept(run.outcome) ==> run.deferred == Baseline(run.before) || (run.deferred == None && !run.clean)
      requires Guarded(run.before) || !run.answer || !LockIsFree(run.before, run.ttl, run.now) ==> !Swept(run.outcome)
      requires run.clean && run.answer && LockIsFree(run.before, run.ttl, run.now) && !Guarded(run.before) ==>
                 run.outcome in {AlreadyGone, BranchDeleted} && Lock() !in run.after
      ensures DeletesQuietly(run)
    {
      forall k | StartsWith(k, Dir()) && k != Lock() ensures OursUnderRef(k) {
      }
      ChainIsNotLock();
      assert OursUnderRef(Chain());
    }

    /** The first listing of `delete_into`; the client has not begun yet. */
    method ListBeforehand() returns (r: Reply<seq<ObjectMeta>>)
      requires Valid()
      modifies store, this`path
      ensures Valid() && Client() == old(Client()) && KeepsAllBut({}) && Extends(old(store.log), store.log)
      ensures |store.log| == |old(store.log)| + 1 && store.log[|old(store.log)|].request == Listed(Dir(), r)
      ensures NeverPut(store.log, |old(store.log)|) && (r.Err? ==> !FaultFree(old(store.log), store.log))
      ensures r.Ok? ==> IsListing(r.value, Dir(), store.bucket)
    {
      ghost var was := store.log;
      r := store.List(Dir());
      ReadingActs(Repo(), Client(), store.log[|was|]);
      Act(was, Client());
    }

    /**
     * `delete_into`. Whatever happens, every request is an action of the protocol machine, no
     * key of ours under the ref appears or changes, a protected ref loses nothing, and a
     * reported success leaves the deferred baseline and nothing else but the lock. `answer` is
     * the operator's reply to the prompt.
     */
    method DeleteInto(answer: bool, ttl: int, now: int, uuid: string, json: string)
      returns (outcome: Outcome, ghost deferred: Option<string>)
      requires Valid() && Client() == P.Idle
      modifies store, this`path
      ensures Valid() && Client() == P.Idle && Extends(old(store.log), store.log)
      ensures Reports(old(store.bucket), store.bucket, old(store.log), store.log, outcome, ttl, now, deferred)
      ensures LooksFirst(store.log, |old(store.log)|, answer, outcome)
      ensures store.quiet ==> DeletesQuietly(DeleteRun(old(store.bucket), store.bucket, answer, ttl, now,
                                                       FaultFree(old(store.log), store.log), outcome, deferred))
    {
      ghost var was, before := store.log, store.bucket;
      outcome, deferred := ConfirmAndDelete(answer, ttl, now, uuid, json);
      if store.quiet {
        QuietDelete(DeleteRun(before, store.bucket, answer, ttl, now, FaultFree(was, store.log), outcome, deferred));
      }
    }

    /**
     * What a delete-branch asked since `from`: without the lock it did no work; with it, the
     * request after the one that put it is the listing that decided the work, and the last one
     * is the release.
     */
    ghost predicate WorksUnderLock(log: seq<Event>, from: nat, outcome: Outcome, deferred: Option<string>) {
      if NeverPut(log, from) then !Swept(outcome) && outcome != AlreadyGone
      else
        && Released(log)
        && exists n :: from < n < |log| && LockPutLast(log[..n]) && WorksAsListed(log, n, outcome, deferred)
    }

    /** How the listing before the prompt, at `from`, and the answer end a delete-branch, or let it go on. */
    ghost predicate LooksFirst(log: seq<Event>, from: nat, answer: bool, outcome: Outcome) {
      && from < |log| && log[from].request.Listed? && log[from].request.prefix == Dir()
      && match log[from].request.listing
         case Err(_) => outcome == Failed(StoreFailed) && |log| == from + 1
         case Ok(initial) =>
           if EntriesHaveProtectedMarker(initial) then outcome == Failed(Protected) && |log| == from + 1
           else if !answer then outcome == Aborted && |log| == from + 1
           else outcome != Aborted && |log| > from + 1
    }

    /** What a delete-branch reports, given the bucket it began with, the one it left and the log then and now. */
    ghost predicate Reports(before: Bucket, after: Bucket, was: seq<Event>, log: seq<Event>, outcome: Outcome, ttl: int,
                            now: int, deferred: Option<string>)
    {
      && LeavesRef(before, after, outcome, deferred)
      && (OursUnderRef(Marker()) && Marker() in before ==> !Swept(outcome))
      && (deferred.Some? ==> Swept(outcome) && EndsWith(deferred.value, ".bundle"))
      && (Ours(store.quiet, store.mine, Lock()) && Swept(outcome) ==> LockIsFree(before, ttl, now))
      && (outcome == Failed(StoreFailed) || IsPartial(outcome) ==> !FaultFree(was, log))
      && WorksUnderLock(log, |was|, outcome, deferred)
      && (store.quiet ==> ReportsQuietly(before, after, FaultFree(was, log), outcome, ttl, now, deferred))
    }

    /** The same of a quiet bucket. */
    ghost predicate ReportsQuietly(before: Bucket, after: Bucket, clean: bool, outcome: Outcome, ttl: int, now: int,
                                   deferred: Option<string>)
    {
      && (Swept(outcome) ==> deferred == Baseline(before) || (deferred == None && !clean))
      && (outcome == Failed(Protected) ==> Guarded(before))
      && (Guarded(before) ==> !Swept(outcome))
      && (outcome == Failed(LockContended) ==> !LockIsFree(before, ttl, now))
      && (clean && outcome in {AlreadyGone, BranchDeleted} ==> Lock() !in after)
    }

    /** Without the lock there is nothing to report but why. */
    lemma NothingWorked(before: Bucket, after: Bucket, was: seq<Event>, log: seq<Event>, outcome: Outcome, ttl: int,
                        now: int)
      requires forall k :: OursUnderRef(k) ==> KeptAt(before, after, k)
      requires NeverPut(log, |was|) && !Swept(outcome) && outcome != AlreadyGone
      requires outcome == Failed(StoreFailed) ==> !FaultFree(was, log)
      requires store.quiet && outcome == Failed(LockContended) ==> !LockIsFree(before, ttl, now)
      requires store.quiet && outcome == Failed(Protected) ==> Guarded(before)
      ensures Reports(before, after, was, log, outcome, ttl, now, None)
    {
    }

    /** What is reported of a bucket is reported of it before requests that left the ref and its lock alone. */
    lemma ReportsSince(before: Bucket, at: Bucket, after: Bucket, was: seq<Event>, log: seq<Event>, log': seq<Event>,
                       outcome: Outcome, ttl: int, now: int, deferred: Option<string>)
      requires Reports(at, after, log, log', outcome, ttl, now, deferred)
      requires forall k :: Ours(store.quiet, store.mine, k) ==> KeptAt(before, at, k)
      requires Extends(was, log) && Extends(log, log') && NeverPut(log, |was|)
      ensures Reports(before, after, was, log', outcome, ttl, now, deferred)
    {
      ExtendsFurther(was, log, log');
      NeverPutFurther(was, log, log');
      SameBaseline(before, at);
      SameGuard(before, at);
      LeavesRefSince(before, at, after, outcome, deferred);
      assert Ours(store.quiet, store.mine, Lock()) ==> KeptAt(before, at, Lock());
      assert OursUnderRef(Marker()) ==> KeptAt(before, at, Marker());
    }

    /** The part of `delete_into` after the prompt. */
    method LockAndDelete(ttl: int, now: int, uuid: string, json: string)
      returns (outcome: Outcome, ghost deferred: Option<string>)
      requires Valid() && Client() == P.Idle
      modifies store, this`path
      ensures Valid() && Client() == P.Idle && Extends(old(store.log), store.log)
      ensures |old(store.log)| < |store.log|
      ensures Reports(old(store.bucket), store.bucket, old(store.log), store.log, outcome, ttl, now, deferred)
      ensures outcome in {AlreadyGone, BranchDeleted, Failed(Protected), Failed(LockContended), Failed(StoreFailed)}
                || IsPartial(outcome)
    {
      deferred := None;
      ghost var was := store.log;
      ChainIsNotLock();
      var lock := AcquireRefLock(ttl, now, P.DeleteBranch);
      if lock.Err? {
        outcome := Failed(StoreFailed);
        NothingWorked(old(store.bucket), store.bucket, was, store.log, outcome, ttl, now);
        return;
      }
      if !lock.value {
        outcome := Failed(LockContended);
        NothingWorked(old(store.bucket), store.bucket, was, store.log, outcome, ttl, now);
        return;
      }
      ghost var locked, held := store.log, store.bucket;
      SameGuard(old(store.bucket), held);
      outcome, deferred := DeleteHoldingLock(uuid, json);
      ExtendsFurther(was, locked, store.log);
      PutThere(locked, store.log, |was|);
      LeavesRefSince(old(store.bucket), held, store.bucket, outcome, deferred);
      SameBaseline(old(store.bucket), held);
    }

    /** The body of `delete_into`. */
    method ConfirmAndDelete(answer: bool, ttl: int, now: int, uuid: string, json: string)
      returns (outcome: Outcome, ghost deferred: Option<string>)
      requires Valid() && Client() == P.Idle
      modifies store, this`path
      ensures Valid() && Client() == P.Idle && Extends(old(store.log), store.log)
      ensures Reports(old(store.bucket), store.bucket, old(store.log), store.log, outcome, ttl, now, deferred)
      ensures LooksFirst(store.log, |old(store.log)|, answer, outcome)
      ensures answer ==>
                || outcome in {AlreadyGone, BranchDeleted, Failed(Protected), Failed(LockContended),
                     Failed(StoreFailed)}
                || IsPartial(outcome)
    {
      deferred := None;
      ghost var was := store.log;
      var initial := ListBeforehand();
      ghost var log, before := store.log, store.bucket;
      if initial.Err? {
        outcome := Failed(StoreFailed);
        NothingWorked(old(store.bucket), before, was, log, outcome, ttl, now);
        return;
      }
      ListedIffGuarded(initial.value, before);
      SameGuard(old(store.bucket), before);
      if EntriesHaveProtectedMarker(initial.value) {
        outcome := Failed(Protected);
        NothingWorked(old(store.bucket), before, was, log, outcome, ttl, now);
        return;
      }
      if !answer {
        outcome := Aborted;
        NothingWorked(old(store.bucket), before, was, log, outcome, ttl, now);
        return;
      }
      outcome, deferred := LockAndDelete(ttl, now, uuid, json);
      ExtendsFurther(was, log, store.log);
      assert store.log[|was|] == log[|was|];
      ReportsSince(old(store.bucket), before, store.bucket, was, log, store.log, outcome, ttl, now, deferred);
    }

    lemma ListedIffGuarded(listed: seq<ObjectMeta>, at: Bucket)
      requires IsListing(listed, Dir(), at)
      ensures EntriesHaveProtectedMarker(listed) <==> Guarded(at)
    {
      if i :| 0 <= i < |listed| && IsMarkerKey(listed[i].key) {
        assert IsEntry(listed[i], Dir(), at);
      }
      if k :| k in at && StartsWith(k, Dir()) && IsMarkerKey(k) {
        assert Lists(listed, k);
      }
    }

    lemma ChainIsNotLock()
      ensures Chain() != Lock() && Marker() != Lock()
    {
      var dir := Dir();
      assert Chain()[|dir|] == 'c' && Lock()[|dir|] == 'L' && Marker()[|dir|] == 'P';
    }

    // ---------------------------------------------------------------
    // Repeated delete-branch.
    // ---------------------------------------------------------------

    /** Runs on one quiet bucket, one after the other, with nobody else at the ref in between. */
    ghost predicate Successive(runs: seq<DeleteRun>) {
      && (forall i :: 0 <= i < |runs| ==> DeletesQuietly(runs[i]))
      && (forall i, j {:trigger runs[i], runs[j]} :: 0 <= i && j == i + 1 < |runs| ==> runs[i].after == runs[j].before)
    }

    /** The operator says yes and the lock is free: both can be seen before the run. */
    predicate TakesRef(run: DeleteRun) {
      run.answer && LockIsFree(run.before, run.ttl, run.now)
    }

    /** Such a run in which no request met a fault. */
    predicate Undisturbed(run: DeleteRun) {
      run.clean && TakesRef(run)
    }

    /** However the requests fail, a run never adds to what the ref has. */
    lemma {:induction false} RunsOnlyShrink(runs: seq<DeleteRun>, i: nat, j: nat, k: string)
      requires Successive(runs) && i <= j < |runs| && StartsWith(k, Dir()) && k != Lock()
      ensures ShrinksAt(runs[i].before, runs[j].before, k) && ShrinksAt(runs[i].before, runs[j].after, k)
    {
      assert DeletesQuietly(runs[j]);
      if i < j {
        RunsOnlyShrink(runs, i, j - 1, k);
        assert runs[j - 1].after == runs[j].before;
      }
    }

    lemma NeverGuarded(runs: seq<DeleteRun>, first: nat, i: nat)
      requires Successive(runs) && first <= i < |runs| && !Guarded(runs[first].before)
      ensures !Guarded(runs[i].before)
    {
      LockKeyIsLock(prefix, Ref());
      forall k | k in runs[i].before && StartsWith(k, Dir()) ensures !IsMarkerKey(k) {
        if k != Lock() {
          RunsOnlyShrink(runs, first, i, k);
        }
      }
    }

    /** The manifest is gone before run `i`: it was not there, or an earlier undisturbed run deleted it. */
    lemma ManifestIsGone(runs: seq<DeleteRun>, first: nat, i: nat)
      requires Successive(runs) && first <= i < |runs| && !Guarded(runs[first].before) && Undisturbed(runs[first])
      requires first < i || Chain() !in runs[first].before
      ensures Chain() !in runs[i].before
    {
      ChainIsNotLock();
      if first < i {
        assert DeletesQuietly(runs[first]) && StartsWith(Chain(), Dir());
        assert runs[first].after == runs[first + 1].before;
        RunsOnlyShrink(runs, first + 1, i, Chain());
      }
    }

    /**
     * Repeated runs converge: from the first undisturbed one on, an unprotected ref without a
     * manifest stays empty but for a lock that later runs may leave. With a manifest it takes
     * two, and then the baseline that the first one deferred is gone too.
     */
    lemma RunsConverge(runs: seq<DeleteRun>, first: nat, i: nat, m: nat, k: string)
      requires Successive(runs) && first <= i <= m < |runs| && !Guarded(runs[first].before)
      requires Undisturbed(runs[first]) && Undisturbed(runs[i]) && (first < i || Chain() !in runs[first].before)
      requires StartsWith(k, Dir()) && k != Lock()
      ensures k !in runs[m].after
    {
      NeverGuarded(runs, first, i);
      ManifestIsGone(runs, first, i);
      assert DeletesQuietly(runs[i]) && runs[i].deferred == None;
      if i < m {
        assert runs[i].after == runs[i + 1].before;
        RunsOnlyShrink(runs, i + 1, m, k);
      }
    }

    /** However its requests fail, a run that is declined or meets a fresh lock leaves the deferred baseline. */
    lemma {:induction false} DeferredStays(runs: seq<DeleteRun>, first: nat, m: nat, k: string)
      requires Successive(runs) && first <= m < |runs| && runs[first].deferred == Some(k)
      requires forall i :: first < i <= m ==> !TakesRef(runs[i])
      ensures k in runs[m].after
    {
      assert DeletesQuietly(runs[m]) && DeletesQuietly(runs[first]);
      if first < m {
        DeferredStays(runs, first, m - 1, k);
        assert runs[m - 1].after == runs[m].before && KeepsAll(runs[m]);
      }
    }

    /**
     * The baseline of a deleted branch outlives later runs exactly as long as none of them is
     * confirmed with the lock free, whatever the grace period of its tombstone.
     */
    lemma DeferredIsKeptIff(runs: seq<DeleteRun>, first: nat, m: nat, k: string)
      requires Successive(runs) && first <= m < |runs| && !Guarded(runs[first].before) && Undisturbed(runs[first])
      requires Baseline(runs[first].before) == Some(k)
      requires forall i :: first < i <= m && TakesRef(runs[i]) ==> runs[i].clean
      ensures k in runs[m].after <==> forall i :: first < i <= m ==> !TakesRef(runs[i])
    {
      assert DeletesQuietly(runs[first]);
      if i :| first < i <= m && TakesRef(runs[i]) {
        RunsConverge(runs, first, i, m, k);
      } else {
        DeferredStays(runs, first, m, k);
      }
    }

    /** Two confirmed runs in a row: the first defers the baseline, the second finds no manifest and deletes it. */
    lemma SecondRunTakesBaseline(body: Body, sha: string) returns (runs: seq<DeleteRun>, k: string)
      requires body in baselines && baselines[body] == sha && IsValidBundleStem(sha)
      ensures |runs| == 2 && Successive(runs) && Undisturbed(runs[0]) && Undisturbed(runs[1])
      ensures !Guarded(runs[0].before) && Baseline(runs[0].before) == Some(k)
      ensures k in runs[0].after && k !in runs[1].after
    {
      k := BundleKey(prefix, Ref(), sha);
      var bundle := Stored(body, 0);
      var all, rest: Bucket := map[Chain() := Stored(body, 0), k := bundle], map[k := bundle];
      BundleIsOther(sha);
      ChainIsNotLock();
      NoMarkers(sha);
      var first := DeleteRun(all, rest, true, 0, 0, true, BranchDeleted, Some(k));
      var second := DeleteRun(rest, map[], true, 0, 0, true, BranchDeleted, None);
      assert DeletesQuietly(first);
      assert DeletesQuietly(second);
      runs := [first, second];
    }

    lemma NoMarkers(sha: string)
      requires IsValidBundleStem(sha)
      ensures !IsMarkerKey(Chain()) && !IsMarkerKey(BundleKey(prefix, Ref(), sha))
    {
      var dir, last := Join(prefix, Ref()), sha + ".bundle";
      BundleKeyParts(prefix, Ref(), sha);
      assert Chain() == dir + "/" + "chain.json";
      SplitIsUnique(dir, "chain.json");
      SplitIsUnique(dir, last);
      assert last[|last| - 1] == 'e';
    }

    // ---------------------------------------------------------------
    // protect and unprotect.
    // ---------------------------------------------------------------

    /** The listing of `protect_under_lock`: branch data lets the marker be written, anything else ends the work. */
    method ListForProtect() returns (r: Reply<seq<ObjectMeta>>)
      requires Valid() && Client() == P.Busy(P.Protect, Ref(), P.Working)
      modifies store, this`path
      ensures Valid() && KeepsAllBut({}) && Extends(old(store.log), store.log)
      ensures |store.log| == |old(store.log)| + 1 && store.log[|old(store.log)|].request == Listed(Dir(), r)
      ensures r.Ok? ==> (HasBranchData(r.value) <==> Repo().HasData(store.bucket.Keys, Ref()))
      ensures r.Ok? && HasBranchData(r.value) ==> Client() == P.Busy(P.Protect, Ref(), P.Marking)
      ensures r.Err? || !HasBranchData(r.value) ==> Client() == P.Busy(P.Protect, Ref(), P.Releasing)
    {
      ghost var was := store.log;
      r := store.List(Dir());
      if r.Ok? {
        ShowsData(Repo(), Ref(), store.bucket, r.value);
      }
      if r.Ok? && HasBranchData(r.value) {
        MarkingStarts(Repo(), Ref(), store.log[|was|]);
        Act(was, P.Busy(P.Protect, Ref(), P.Marking));
      } else {
        WorkEnds(Repo(), P.Protect, Ref(), store.log[|was|]);
        Act(was, P.Busy(P.Protect, Ref(), P.Releasing));
      }
    }

    method PutMarker() returns (r: Reply<Done>)
      requires Valid() && Client() == P.Busy(P.Protect, Ref(), P.Marking)
      modifies store, this`path
      ensures Valid() && Client() == P.Busy(P.Protect, Ref(), P.Releasing)
      ensures KeepsAllBut({Marker()}) && Extends(old(store.log), store.log)
      ensures |store.log| == |old(store.log)| + 1 && store.log[|old(store.log)|].request == Put(Marker(), "", r)
      ensures r.Ok? && Ours(store.quiet, store.mine, Marker()) ==> Marker() in store.bucket
    {
      ghost var was := store.log;
      r := store.PutBytes(Marker(), "");
      MarkActs(Repo(), Ref(), store.log[|was|], r);
      Act(was, P.Busy(P.Protect, Ref(), P.Releasing));
    }

    /**
     * `protect_under_lock`: the marker is written only when the listing shows branch data, and
     * right after it.
     */
    method ProtectUnderLock() returns (outcome: Outcome)
      requires Valid() && Client() == P.Busy(P.Protect, Ref(), P.Working)
      modifies store, this`path
      ensures Valid() && CanRelease() && Extends(old(store.log), store.log) && KeepsAllBut({Marker()})
      ensures ProtectsAsListed(store.log, |old(store.log)|, outcome)
      ensures outcome == Failed(StoreFailed) ==> !FaultFree(old(store.log), store.log)
      ensures outcome != Failed(StoreFailed) && store.quiet ==>
                (outcome == NowProtected <==> Repo().HasData(old(store.bucket).Keys, Ref()))
      ensures outcome == NowProtected && Ours(store.quiet, store.mine, Marker()) ==> Marker() in store.bucket
      ensures outcome == Failed(BranchNotFound) ==> KeepsAllBut({})
    {
      ghost var was := store.log;
      var entries := ListForProtect();
      if entries.Err? {
        return Failed(StoreFailed);
      }
      SameData(old(store.bucket), store.bucket);
      if !HasBranchData(entries.value) {
        return Failed(BranchNotFound);
      }
      ghost var log := store.log;
      var put := PutMarker();
      ExtendsFurther(was, log, store.log);
      assert store.log[|was|] == log[|was|];
      outcome := if put.Ok? then NowProtected else Failed(StoreFailed);
    }

    /** The requests from `i` on: one listing, and the marker exactly when it shows branch data. */
    ghost predicate ProtectsAsListed(log: seq<Event>, i: nat, outcome: Outcome) {
      && i < |log| <= i + 2 && log[i].request.Listed? && log[i].request.prefix == Dir()
      && var listing := log[i].request.listing;
      && (|log| == i + 2 <==> listing.Ok? && HasBranchData(listing.value))
      && (|log| == i + 2 ==>
           log[i + 1].request.Put? && log[i + 1].request.key == Marker() && log[i + 1].request.text == "")
      && outcome == if listing.Err? then Failed(StoreFailed)
                    else if !HasBranchData(listing.value) then Failed(BranchNotFound)
                    else if log[i + 1].request.put.Ok? then NowProtected else Failed(StoreFailed)
    }

    /**
     * What a protect asked since `from`: without the lock nothing more; with it, right after it
     * was put the listing and what follows from it, and as the last request the release.
     */
    ghost predicate ProtectsUnderLock(log: seq<Event>, from: nat, outcome: Outcome) {
      if NeverPut(log, from) then outcome in {Failed(LockContended), Failed(StoreFailed)}
      else
        && Released(log)
        && exists n :: from < n < |log| && LockPutLast(log[..n]) && ProtectsAsListed(log[..|log| - 1], n, outcome)
    }

    /** `protect_into`. */
    method ProtectInto(ttl: int, now: int) returns (outcome: Outcome)
      requires Valid() && Client() == P.Idle
      modifies store, this`path
      ensures Valid() && Client() == P.Idle && Extends(old(store.log), store.log) && KeepsAllBut({Lock(), Marker()})
      ensures outcome in {NowProtected, Failed(BranchNotFound), Failed(LockContended), Failed(StoreFailed)}
      ensures outcome in {NowProtected, Failed(StoreFailed)} || KeepsAllBut({Lock()})
      ensures outcome == Failed(StoreFailed) ==> !FaultFree(old(store.log), store.log)
      ensures outcome == NowProtected && Ours(store.quiet, store.mine, Marker()) ==> Marker() in store.bucket
      ensures store.quiet && outcome in {NowProtected, Failed(BranchNotFound)} ==>
                (outcome == NowProtected <==> Repo().HasData(old(store.bucket).Keys, Ref()))
      ensures store.quiet ==> (outcome == Failed(LockContended) ==> !LockIsFree(old(store.bucket), ttl, now))
      ensures ProtectsUnderLock(store.log, |old(store.log)|, outcome)
      ensures Ours(store.quiet, store.mine, Lock()) && FaultFree(old(store.log), store.log)
                && outcome != Failed(LockContended) ==>
                Lock() !in store.bucket
    {
      ChainIsNotLock();
      ghost var was := store.log;
      var lock := AcquireRefLock(ttl, now, P.Protect);
      if lock.Err? {
        return Failed(StoreFailed);
      }
      if !lock.value {
        return Failed(LockContended);
      }
      ghost var locked := store.log;
      SameData(old(store.bucket), store.bucket);
      outcome := ProtectHoldingLock();
      ExtendsFurther(was, locked, store.log);
      PutThere(locked, store.log, |was|);
    }

    /** A lock that was put last is on record from then on. */
    lemma PutThere(locked: seq<Event>, log: seq<Event>, from: nat)
      requires LockPutLast(locked) && Extends(locked, log) && from < |locked|
      ensures log[..|locked|] == locked && !NeverPut(log, from)
    {
      assert log[|locked| - 1] == log[..|locked|][|locked| - 1];
    }

    /** `protect_under_lock` and the release that follows it on every path. */
    method ProtectHoldingLock() returns (outcome: Outcome)
      requires Valid() && Client() == P.Busy(P.Protect, Ref(), P.Working)
      modifies store, this`path
      ensures Valid() && Client() == P.Idle && Extends(old(store.log), store.log) && KeepsAllBut({Lock(), Marker()})
      ensures outcome in {NowProtected, Failed(BranchNotFound), Failed(StoreFailed)}
      ensures outcome == Failed(BranchNotFound) ==> KeepsAllBut({Lock()})
      ensures outcome == Failed(StoreFailed) ==> !FaultFree(old(store.log), store.log)
      ensures outcome == NowProtected && Ours(store.quiet, store.mine, Marker()) ==> Marker() in store.bucket
      ensures store.quiet && outcome != Failed(StoreFailed) ==>
                (outcome == NowProtected <==> Repo().HasData(old(store.bucket).Keys, Ref()))
      ensures Released(store.log) && ProtectsAsListed(store.log[..|store.log| - 1], |old(store.log)|, outcome)
      ensures Ours(store.quiet, store.mine, Lock()) && FaultFree(old(store.log), store.log) ==> Lock() !in store.bucket
    {
      ChainIsNotLock();
      ghost var was := store.log;
      outcome := ProtectUnderLock();
      ghost var log := store.log;
      ReleaseOrWarn();
      ExtendsFurther(was, log, store.log);
      assert store.log[..|store.log| - 1] == log;
    }

    /** A lock is no data. */
    lemma SameData(before: Bucket, at: Bucket)
      requires forall k :: Ours(store.quiet, store.mine, k) && k != Lock() ==> KeptAt(before, at, k)
      ensures store.quiet ==> (Repo().HasData(at.Keys, Ref()) <==> Repo().HasData(before.Keys, Ref()))
    {
      LockKeyIsLock(prefix, Ref());
      if k :| store.quiet && k in Repo().Listing(before.Keys, Ref()) && CarriesData(k) {
        assert KeptAt(before, at, k) && k in Repo().Listing(at.Keys, Ref());
      }
      if k :| store.quiet && k in Repo().Listing(at.Keys, Ref()) && CarriesData(k) {
        assert KeptAt(before, at, k) && k in Repo().Listing(before.Keys, Ref());
      }
    }

    /** `unprotect_under_lock`: a missing marker counts as removed. */
    method UnprotectUnderLock() returns (outcome: Outcome)
      requires Valid() && Client() == P.Busy(P.Unprotect, Ref(), P.Working)
      modifies store, this`path
      ensures Valid() && CanRelease() && Extends(old(store.log), store.log) && KeepsAllBut({Marker()})
      ensures outcome in {NowUnprotected, Failed(StoreFailed)}
      ensures outcome == Failed(StoreFailed) ==> !FaultFree(old(store.log), store.log)
      ensures outcome == NowUnprotected && Ours(store.quiet, store.mine, Marker()) ==> Marker() !in store.bucket
      ensures Unmarks(store.log, |old(store.log)|, outcome)
    {
      ghost var was := store.log;
      var gone; ghost var d;
      gone, d := DeleteIdempotent(Marker());
      UnmarkActs(Repo(), Ref(), store.log[|was|], d);
      Act(was, P.Busy(P.Unprotect, Ref(), P.Releasing));
      outcome := if gone.Ok? then NowUnprotected else Failed(StoreFailed);
    }

    /** The requests from `i` on: one delete of the marker, and the outcome is its answer. */
    ghost predicate Unmarks(log: seq<Event>, i: nat, outcome: Outcome) {
      && |log| == i + 1 && log[i].request.Deleted? && log[i].request.key == Marker()
      && outcome == if log[i].request.deleted == Err(OtherError) then Failed(StoreFailed) else NowUnprotected
    }

    /** `unprotect_under_lock` and the release that follows it. */
    method UnprotectHoldingLock() returns (outcome: Outcome)
      requires Valid() && Client() == P.Busy(P.Unprotect, Ref(), P.Working)
      modifies store, this`path
      ensures Valid() && Client() == P.Idle && Extends(old(store.log), store.log) && KeepsAllBut({Lock(), Marker()})
      ensures outcome in {NowUnprotected, Failed(StoreFailed)}
      ensures outcome == Failed(StoreFailed) ==> !FaultFree(old(store.log), store.log)
      ensures outcome == NowUnprotected && Ours(store.quiet, store.mine, Marker()) ==> Marker() !in store.bucket
      ensures Released(store.log) && Unmarks(store.log[..|store.log| - 1], |old(store.log)|, outcome)
      ensures Ours(store.quiet, store.mine, Lock()) && FaultFree(old(store.log), store.log) ==> Lock() !in store.bucket
    {
      ChainIsNotLock();
      ghost var was := store.log;
      outcome := UnprotectUnderLock();
      ghost var log := store.log;
      ReleaseOrWarn();
      ExtendsFurther(was, log, store.log);
      assert store.log[..|store.log| - 1] == log;
    }

    /** What an unprotect asked since `from`: under the lock, the delete of the marker and the release. */
    ghost predicate UnmarksUnderLock(log: seq<Event>, from: nat, outcome: Outcome) {
      if NeverPut(log, from) then outcome in {Failed(LockContended), Failed(StoreFailed)}
      else
        && Released(log)
        && exists n :: from < n < |log| && LockPutLast(log[..n]) && Unmarks(log[..|log| - 1], n, outcome)
    }

    /** `unprotect_into`. */
    method UnprotectInto(ttl: int, now: int) returns (outcome: Outcome)
      requires Valid() && Client() == P.Idle
      modifies store, this`path
      ensures Valid() && Client() == P.Idle && Extends(old(store.log), store.log) && KeepsAllBut({Lock(), Marker()})
      ensures outcome in {NowUnprotected, Failed(LockContended), Failed(StoreFailed)}
      ensures outcome == Failed(LockContended) ==> KeepsAllBut({Lock()})
      ensures outcome == Failed(StoreFailed) ==> !FaultFree(old(store.log), store.log)
      ensures outcome == NowUnprotected && Ours(store.quiet, store.mine, Marker()) ==> Marker() !in store.bucket
      ensures store.quiet ==> (outcome == Failed(LockContended) ==> !LockIsFree(old(store.bucket), ttl, now))
      ensures UnmarksUnderLock(store.log, |old(store.log)|, outcome)
      ensures Ours(store.quiet, store.mine, Lock()) && FaultFree(old(store.log), store.log)
                && outcome != Failed(LockContended) ==>
                Lock() !in store.bucket
    {
      ChainIsNotLock();
      ghost var was := store.log;
      var lock := AcquireRefLock(ttl, now, P.Unprotect);
      if lock.Err? {
        return Failed(StoreFailed);
      }
      if !lock.value {
        return Failed(LockContended);
      }
      ghost var locked := store.log;
      outcome := UnprotectHoldingLock();
      ExtendsFurther(was, locked, store.log);
      PutThere(locked, store.log, |was|);
    }
  }

  lemma ShownIsListed(listed: seq<ObjectMeta>, dir: string, lock: string, bucket: Bucket)
    requires IsListingWithout(listed, dir, lock, bucket)
    ensures forall k :: Lists(listed, k) <==> k in bucket && StartsWith(k, dir) && k != lock
  {
    forall k | Lists(listed, k) ensures k in bucket && StartsWith(k, dir) && k != lock {
      var i :| 0 <= i < |listed| && listed[i].key == k;
      assert IsEntry(listed[i], dir, bucket);
    }
  }

  /** The deletes since `was` are those of the sweep, which begins at `at`. */
  ghost predicate SweptOnce(was: seq<Event>, log: seq<Event>, keys: seq<string>, replies: seq<Reply<Done>>, at: nat) {
    && |was| <= at && |replies| == |keys| && at + |keys| <= |log|
    && IsSweep(log[at..at + |keys|], keys, replies)
    && forall i :: |was| <= i < |log| && log[i].request.Deleted? ==> at <= i < at + |keys|
  }

  lemma SweptAfter(was: seq<Event>, log: seq<Event>, log': seq<Event>, keys: seq<string>, replies: seq<Reply<Done>>)
    requires Extends(was, log) && forall i :: |was| <= i < |log| ==> !log[i].request.Deleted?
    requires |replies| == |keys| && |log'| == |log| + |keys| && log'[..|log|] == log
               && IsSweep(log'[|log|..], keys, replies)
    ensures Extends(was, log') && SweptOnce(was, log', keys, replies, |log|)
  {
    ExtendsFurther(was, log, log');
    assert log'[|log|..|log| + |keys|] == log'[|log|..];
    assert forall i :: 0 <= i < |log| ==> log'[i] == log'[..|log|][i];
  }

  /** The sweep since `was`, and what it did to the keys of ours under the ref. */
  ghost predicate SweepDone(quiet: bool, mine: set<string>, dir: string, was: seq<Event>, log: seq<Event>,
                            start: Bucket, now: Bucket, keys: seq<string>, replies: seq<Reply<Done>>, at: nat)
  {
    && SweptOnce(was, log, keys, replies, at)
    && forall k :: Ours(quiet, mine, k) && StartsWith(k, dir) ==> SweptAt(start, now, keys, Undeleted(keys, replies), k)
  }

  lemma DoneThenRead(quiet: bool, mine: set<string>, dir: string, was: seq<Event>, log: seq<Event>, log': seq<Event>,
                     start: Bucket, now: Bucket, now': Bucket, keys: seq<string>, replies: seq<Reply<Done>>, at: nat)
    requires SweepDone(quiet, mine, dir, was, log, start, now, keys, replies, at)
    requires Extends(was, log) && |log'| == |log| + 1 && Extends(log, log') && !log'[|log|].request.Deleted?
    requires forall k :: Ours(quiet, mine, k) ==> KeptAt(now, now', k)
    ensures Extends(was, log') && SweepDone(quiet, mine, dir, was, log', start, now', keys, replies, at)
  {
    SweptBeforeReading(was, log, log', keys, replies, at);
    SweptStays(quiet, mine, dir, start, now, now', keys, Undeleted(keys, replies));
  }

  lemma SweptBeforeReading(was: seq<Event>, log: seq<Event>, log': seq<Event>, keys: seq<string>,
                           replies: seq<Reply<Done>>, at: nat)
    requires Extends(was, log) && SweptOnce(was, log, keys, replies, at)
    requires |log'| == |log| + 1 && Extends(log, log') && !log'[|log|].request.Deleted?
    ensures Extends(was, log') && SweptOnce(was, log', keys, replies, at)
  {
    ExtendsFurther(was, log, log');
    assert forall i :: 0 <= i < |log| ==> log'[i] == log'[..|log|][i];
    assert log'[at..at + |keys|] == log[at..at + |keys|];
  }

  /** A key is left behind only by a fault. */
  lemma LeftByFault(was: seq<Event>, log: seq<Event>, keys: seq<string>, replies: seq<Reply<Done>>, at: nat)
    requires SweptOnce(was, log, keys, replies, at) && FaultFree(was, log)
    ensures Undeleted(keys, replies) == []
  {
    forall i | 0 <= i < |keys| ensures replies[i] != Err(OtherError) {
      assert log[at..at + |keys|][i] == log[at + i];
      assert !Faulty(log[at + i].request);
    }
    NothingUndeleted(keys, replies);
  }

  lemma {:induction false} NothingUndeleted(keys: seq<string>, replies: seq<Reply<Done>>)
    requires |keys| == |replies| && forall i :: 0 <= i < |keys| ==> replies[i] != Err(OtherError)
    ensures Undeleted(keys, replies) == []
  {
    if keys != [] {
      var n := |keys| - 1;
      NothingUndeleted(keys[..n], replies[..n]);
    }
  }
}
