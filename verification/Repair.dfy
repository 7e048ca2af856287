// What a doctor run may ask of the bucket, and what its requests add up to
// (src/manage/doctor.rs).
module Repair {
  import opened Base
  import opened Keys
  import opened Store
  import opened Snapshot
  import opened StaleLocks

  /**
   * What one run works from: whether losers go to quarantine, the age past which locks are
   * deleted if they are, the operator's answers about applying each fix, the suffix drawn for
   * each quarantined bundle, the commits the snapshot shows under each ref, and the one to keep
   * for each ref with several.
   */
  datatype Plan = Plan(prefix: string, quarantine: bool, locks: Option<nat>, suffix: map<string, string>,
                       confirm: map<string, bool>, shown: map<string, set<string>>, keepers: map<string, string>)

  ghost predicate ValidPlan(p: Plan) {
    && (forall ref, sha :: ref in p.shown && sha in p.shown[ref] ==> IsValidBundleStem(sha))
    && (forall ref :: ref in p.keepers ==> ref in p.shown && p.keepers[ref] in p.shown[ref])
  }

  function QuarantineRef(p: Plan, ref: string, sha: string): string {
    var key := BundleKey(p.prefix, ref, sha);
    ref + "_" + (if key in p.suffix then p.suffix[key] else "")
  }

  function QuarantineKey(p: Plan, ref: string, sha: string): string {
    BundleKey(p.prefix, QuarantineRef(p, ref, sha), sha)
  }

  function KeeperKey(p: Plan, ref: string): string
    requires ref in p.keepers
  {
    BundleKey(p.prefix, ref, p.keepers[ref])
  }

  /** A bundle of a ref with several, other than the one to keep. */
  predicate IsLoser(p: Plan, ref: string, sha: string) {
    ref in p.keepers && ref in p.shown && sha in p.shown[ref] && sha != p.keepers[ref]
  }

  // ---------------------------------------------------------------
  // The discipline of the requests.
  // ---------------------------------------------------------------

  predicate SaidYes(p: Plan, ref: string) {
    ref in p.confirm && p.confirm[ref]
  }

  /** The operator answered yes to the fix of the ref, and then the keeper was found on the bucket. */
  predicate CheckedAt(p: Plan, log: seq<Event>, c: nat, ref: string) {
    && c + 1 < |log| && ref in p.keepers && SaidYes(p, ref)
    && log[c].request == Confirmed(ref)
    && log[c + 1].request.Headed? && log[c + 1].request.key == KeeperKey(p, ref) && log[c + 1].request.head.Ok?
  }

  /** A loser is copied to its quarantine, or deleted; when quarantining, only right after a successful copy. */
  predicate EvictionStep(p: Plan, log: seq<Event>, i: nat, ref: string, sha: string) {
    && i < |log| && IsLoser(p, ref, sha)
    && var key := BundleKey(p.prefix, ref, sha);
       match log[i].request
       case Copied(src, dst, _) => p.quarantine && src == key && dst == QuarantineKey(p, ref, sha)
       case Deleted(k, _) =>
         && k == key
         && (p.quarantine ==> i > 0 && log[i - 1].request == Copied(key, QuarantineKey(p, ref, sha), Ok(Done)))
       case _ => false
  }

  ghost predicate Evicts(p: Plan, log: seq<Event>, from: nat, i: nat) {
    exists ref, sha, c: nat {:trigger EvictionStep(p, log, i, ref, sha), CheckedAt(p, log, c, ref)} ::
      from <= c && c + 1 < i && CheckedAt(p, log, c, ref) && EvictionStep(p, log, i, ref, sha)
  }

  predicate Harmless(request: Request) {
    request.Listed? || request.Headed? || request.Got? || request.Confirmed? || request.ClockRead?
  }

  /** HEAD is made to name a branch that the request just before listed with branch data. */
  predicate NamesListedBranch(p: Plan, log: seq<Event>, from: nat, i: nat) {
    && from < i < |log| && log[i].request.Put? && log[i].request.key == HeadKey(p.prefix)
    && StartsWith(log[i].request.text, "refs/heads/")
    && log[i - 1].request.Listed? && log[i - 1].request.prefix == RefListingPrefix(p.prefix, log[i].request.text)
    && log[i - 1].request.listing.Ok? && HasBranchData(log[i - 1].request.listing.value)
  }

  ghost predicate IsStep(p: Plan, log: seq<Event>, from: nat, i: nat) {
    && i < |log|
    && (|| Harmless(log[i].request) || NamesListedBranch(p, log, from, i)
        || Evicts(p, log, from, i) || (p.locks.Some? && RemovesStaleLock(log, i, p.locks.value)))
  }

  /** Every request since `was` is a read, a checked write of HEAD, a guarded eviction or a stale lock's removal. */
  ghost predicate Disciplined(p: Plan, was: seq<Event>, log: seq<Event>) {
    Extends(was, log)
        && forall i: nat {:trigger IsStep(p, log, |was|, i)} :: |was| <= i < |log| ==>
             IsStep(p, log, |was|, i)
  }

  /** A step stays one as the log grows. */
  lemma StepStays(p: Plan, log: seq<Event>, log': seq<Event>, from: nat, from': nat, i: nat)
    requires Extends(log, log') && IsStep(p, log, from, i) && from' <= from
    ensures IsStep(p, log', from', i)
  {
    assert forall j :: 0 <= j < |log| ==> log'[j] == log'[..|log|][j];
    if Evicts(p, log, from, i) {
      var ref, sha, c: nat :| from <= c && c + 1 < i && CheckedAt(p, log, c, ref) && EvictionStep(p, log, i, ref, sha);
      assert CheckedAt(p, log', c, ref) && EvictionStep(p, log', i, ref, sha);
    }
  }

  lemma MoreSteps(p: Plan, was: seq<Event>, log: seq<Event>, log': seq<Event>)
    requires Disciplined(p, was, log) && Disciplined(p, log, log')
    ensures Disciplined(p, was, log')
  {
    assert forall j :: 0 <= j < |log| ==> log'[j] == log'[..|log|][j];
    forall i: nat | |was| <= i < |log'| ensures IsStep(p, log', |was|, i) {
      if i < |log| {
        assert IsStep(p, log, |was|, i);
        StepStays(p, log, log', |was|, |was|, i);
      } else {
        assert IsStep(p, log', |log|, i);
        StepStays(p, log', log', |log|, |was|, i);
      }
    }
  }

  /** One more harmless request. */
  lemma HarmlessStep(p: Plan, was: seq<Event>, log: seq<Event>, log': seq<Event>)
    requires Disciplined(p, was, log) && Extends(log, log') && |log'| == |log| + 1 && Harmless(log'[|log|].request)
    ensures Disciplined(p, was, log')
  {
    forall i: nat | |log| <= i < |log'| ensures IsStep(p, log', |log|, i) {
    }
    MoreSteps(p, was, log, log');
  }

  /** HEAD is written right after the listing that shows branch data. */
  lemma NamingStep(p: Plan, was: seq<Event>, log: seq<Event>, log': seq<Event>)
    requires Disciplined(p, was, log) && Extends(log, log') && |log'| == |log| + 1
    requires NamesListedBranch(p, log', |was|, |log|)
    ensures Disciplined(p, was, log')
  {
    forall i: nat | |was| <= i < |log'| ensures IsStep(p, log', |was|, i) {
      if i < |log| {
        assert IsStep(p, log, |was|, i);
        StepStays(p, log, log', |was|, |was|, i);
      }
    }
  }

  /** One more request of a guarded eviction. */
  lemma EvictingStep(p: Plan, was: seq<Event>, log: seq<Event>, log': seq<Event>, c: nat, ref: string,
                     sha: string)
    requires Disciplined(p, was, log) && Extends(log, log') && |log'| == |log| + 1
    requires |was| <= c && CheckedAt(p, log, c, ref) && EvictionStep(p, log', |log|, ref, sha)
    ensures Disciplined(p, was, log') && CheckedAt(p, log', c, ref)
  {
    assert forall j :: 0 <= j < |log| ==> log'[j] == log'[..|log|][j];
    assert CheckedAt(p, log', c, ref);
    forall i: nat | |was| <= i < |log'| ensures IsStep(p, log', |was|, i) {
      if i < |log| {
        assert IsStep(p, log, |was|, i);
        StepStays(p, log, log', |was|, |was|, i);
      }
    }
  }

  // ---------------------------------------------------------------
  // What the discipline gives, whatever others do.
  // ---------------------------------------------------------------

  lemma BundleIsNoLock(prefix: string, ref: string, sha: string)
    ensures !IsLockKey(BundleKey(prefix, ref, sha))
    ensures BundleKey(prefix, ref, sha) != HeadKey(prefix)
  {
    var key := BundleKey(prefix, ref, sha);
    assert key[|key| - 1] == 'e' && HeadKey(prefix)[|HeadKey(prefix)| - 1] == 'D';
    if IsLockKey(key) {
      SuffixEnd(key, ".lock");
    }
  }

  /**
   * A bundle is deleted only after the operator answered yes to the fix of its ref and a HEAD
   * of the bundle to keep then succeeded; and it is never that bundle.
   */
  lemma DeletesAreGuarded(p: Plan, was: seq<Event>, log: seq<Event>, i: nat, ref: string, sha: string)
    returns (c: nat)
    requires ValidPlan(p) && Disciplined(p, was, log) && |was| <= i < |log|
    requires IsValidBundleStem(sha) && log[i].request.Deleted? && log[i].request.key == BundleKey(p.prefix, ref, sha)
    ensures |was| <= c && c + 1 < i && CheckedAt(p, log, c, ref)
    ensures SaidYes(p, ref) && sha != p.keepers[ref] && IsLoser(p, ref, sha)
  {
    BundleIsNoLock(p.prefix, ref, sha);
    assert IsStep(p, log, |was|, i);
    assert Evicts(p, log, |was|, i);
    var r, s;
    r, s, c :| |was| <= c && c + 1 < i && CheckedAt(p, log, c, r) && EvictionStep(p, log, i, r, s);
    BundleKeyDeterminesParts(p.prefix, ref, sha, r, s);
  }

  /** Without the option no lock is written or deleted. */
  lemma LocksAreLeft(p: Plan, was: seq<Event>, log: seq<Event>, i: nat, k: string)
    requires ValidPlan(p) && Disciplined(p, was, log) && |was| <= i < |log| && p.locks == None && IsLockKey(k)
    ensures !Touches(log[i].request, k)
  {
    HeadIsNoLock(p.prefix);
    assert IsStep(p, log, |was|, i);
    if Evicts(p, log, |was|, i) {
      var ref, sha, c: nat :| |was| <= c && c + 1 < i && CheckedAt(p, log, c, ref) && EvictionStep(p, log, i, ref, sha);
      BundleIsNoLock(p.prefix, ref, sha);
      BundleIsNoLock(p.prefix, QuarantineRef(p, ref, sha), sha);
    }
  }

  lemma KeeperIsNeverDeleted(p: Plan, was: seq<Event>, log: seq<Event>, i: nat, ref: string)
    requires ValidPlan(p) && Disciplined(p, was, log) && |was| <= i < |log| && ref in p.keepers
    ensures log[i].request.Deleted? ==> log[i].request.key != KeeperKey(p, ref)
  {
    if log[i].request.Deleted? && log[i].request.key == KeeperKey(p, ref) {
      var _ := DeletesAreGuarded(p, was, log, i, ref, p.keepers[ref]);
    }
  }

  /**
   * HEAD is written only with a branch that, when the request before looked, had branch data;
   * and only others can have taken it away since.
   */
  lemma HeadWritesAreGuarded(p: Plan, quiet: bool, mine: set<string>, was: seq<Event>, log: seq<Event>,
                             i: nat) returns (k: string)
    requires IsTrace(quiet, mine, log) && Disciplined(p, was, log) && |was| <= i < |log|
    requires log[i].request.Put? && log[i].request.key == HeadKey(p.prefix)
    ensures i > |was| && StartsWith(log[i].request.text, "refs/heads/")
    ensures StartsWith(k, RefListingPrefix(p.prefix, log[i].request.text)) && CarriesData(k) && k in log[i - 1].after
    ensures quiet || k in mine ==> k in log[i].before
  {
    assert IsStep(p, log, |was|, i);
    assert NamesListedBranch(p, log, |was|, i);
    assert FollowsOn(quiet, mine, log, i - 1) && FollowsOn(quiet, mine, log, i);
    var listed := log[i - 1].request.listing.value;
    var j :| 0 <= j < |listed| && CarriesData(listed[j].key);
    assert IsEntry(listed[j], log[i - 1].request.prefix, log[i - 1].before);
    k := listed[j].key;
    assert quiet || k in mine ==> KeptAt(log[i - 1].after, log[i].before, k);
  }

  /** When quarantining, quarantine refs are new, and no two bundles share one. */
  ghost predicate FreshSuffixes(p: Plan) {
    p.quarantine ==>
      && (forall ref, sha :: IsLoser(p, ref, sha) ==> QuarantineRef(p, ref, sha) !in p.shown)
      && (forall ref, sha, ref', sha' :: IsLoser(p, ref, sha) && IsLoser(p, ref', sha') ==>
            QuarantineRef(p, ref, sha) == QuarantineRef(p, ref', sha') ==> ref == ref' && sha == sha')
  }

  predicate HasBody(bucket: Bucket, key: string, body: Body) {
    key in bucket && bucket[key].body == body
  }

  /** The body sits unchanged at its key, or it is gone from there and sits in quarantine. */
  predicate BodyIsSafe(bucket: Bucket, key: string, quarantine: string, body: Body) {
    && (key in bucket ==> bucket[key].body == body)
    && (key in bucket || HasBody(bucket, quarantine, body))
  }

  /** Only the copy of a loser to its own quarantine writes either key. */
  lemma StepKeepsBody(p: Plan, was: seq<Event>, log: seq<Event>, i: nat, ref: string, sha: string, body: Body)
    requires ValidPlan(p) && FreshSuffixes(p) && p.quarantine && IsLoser(p, ref, sha)
    requires Disciplined(p, was, log) && |was| <= i < |log| && Effect(log[i].request, log[i].before, log[i].after)
    requires BodyIsSafe(log[i].before, BundleKey(p.prefix, ref, sha), QuarantineKey(p, ref, sha), body)
    requires log[i].request.Deleted? && log[i].request.key == BundleKey(p.prefix, ref, sha)
             ==> HasBody(log[i].before, QuarantineKey(p, ref, sha), body)
    ensures BodyIsSafe(log[i].after, BundleKey(p.prefix, ref, sha), QuarantineKey(p, ref, sha), body)
  {
    var key, quarantine := BundleKey(p.prefix, ref, sha), QuarantineKey(p, ref, sha);
    BundleIsNoLock(p.prefix, ref, sha);
    BundleIsNoLock(p.prefix, QuarantineRef(p, ref, sha), sha);
    assert IsStep(p, log, |was|, i);
    if Evicts(p, log, |was|, i) {
      var r, s, c: nat :| |was| <= c && c + 1 < i && CheckedAt(p, log, c, r) && EvictionStep(p, log, i, r, s);
      LosersDoNotMeet(p, ref, sha, r, s);
    }
  }

  /** Keys of losers and of quarantines coincide only for the same loser. */
  lemma LosersDoNotMeet(p: Plan, ref: string, sha: string, r: string, s: string)
    requires ValidPlan(p) && FreshSuffixes(p) && IsLoser(p, ref, sha) && IsLoser(p, r, s)
    ensures BundleKey(p.prefix, ref, sha) == BundleKey(p.prefix, r, s) ==> ref == r && sha == s
    ensures p.quarantine && QuarantineKey(p, ref, sha) == QuarantineKey(p, r, s) ==> ref == r && sha == s
    ensures p.quarantine ==> QuarantineKey(p, ref, sha) != BundleKey(p.prefix, r, s)
    ensures p.quarantine ==> BundleKey(p.prefix, ref, sha) != QuarantineKey(p, r, s)
  {
    if BundleKey(p.prefix, ref, sha) == BundleKey(p.prefix, r, s) {
      BundleKeyDeterminesParts(p.prefix, ref, sha, r, s);
    }
    if QuarantineKey(p, ref, sha) == QuarantineKey(p, r, s) {
      BundleKeyDeterminesParts(p.prefix, QuarantineRef(p, ref, sha), sha, QuarantineRef(p, r, s), s);
    }
    if QuarantineKey(p, ref, sha) == BundleKey(p.prefix, r, s) {
      BundleKeyDeterminesParts(p.prefix, QuarantineRef(p, ref, sha), sha, r, s);
    }
    if BundleKey(p.prefix, ref, sha) == QuarantineKey(p, r, s) {
      BundleKeyDeterminesParts(p.prefix, ref, sha, QuarantineRef(p, r, s), s);
    }
  }

  /**
   * In quarantine mode the body of a bundle being evicted is on the bucket, at its key or in
   * quarantine, in every state of the run, provided nobody else touches those two keys.
   */
  lemma {:induction false} QuarantineLosesNoBody(p: Plan, quiet: bool, mine: set<string>, was: seq<Event>,
                                                 log: seq<Event>, i: nat, ref: string, sha: string, body: Body)
    requires ValidPlan(p) && FreshSuffixes(p) && p.quarantine && IsLoser(p, ref, sha)
    requires IsTrace(quiet, mine, log) && Disciplined(p, was, log) && |was| <= i < |log|
    requires quiet || (BundleKey(p.prefix, ref, sha) in mine && QuarantineKey(p, ref, sha) in mine)
    requires HasBody(log[|was|].before, BundleKey(p.prefix, ref, sha), body)
    ensures BodyIsSafe(log[i].before, BundleKey(p.prefix, ref, sha), QuarantineKey(p, ref, sha), body)
    ensures BodyIsSafe(log[i].after, BundleKey(p.prefix, ref, sha), QuarantineKey(p, ref, sha), body)
  {
    var key, quarantine := BundleKey(p.prefix, ref, sha), QuarantineKey(p, ref, sha);
    assert FollowsOn(quiet, mine, log, i);
    if i > |was| {
      QuarantineLosesNoBody(p, quiet, mine, was, log, i - 1, ref, sha, body);
      assert KeptAt(log[i - 1].after, log[i].before, key) && KeptAt(log[i - 1].after, log[i].before, quarantine);
    }
    if log[i].request.Deleted? && log[i].request.key == key {
      var c := DeletesAreGuarded(p, was, log, i, ref, sha);
      CopiedJustBefore(p, was, log, i, ref, sha);
      assert FollowsOn(quiet, mine, log, i - 1);
    }
    StepKeepsBody(p, was, log, i, ref, sha, body);
  }

  lemma CopiedJustBefore(p: Plan, was: seq<Event>, log: seq<Event>, i: nat, ref: string, sha: string)
    requires ValidPlan(p) && p.quarantine && Disciplined(p, was, log) && |was| <= i < |log|
    requires IsValidBundleStem(sha) && log[i].request.Deleted? && log[i].request.key == BundleKey(p.prefix, ref, sha)
    ensures i > |was|
    ensures log[i - 1].request == Copied(BundleKey(p.prefix, ref, sha), QuarantineKey(p, ref, sha), Ok(Done))
  {
    BundleIsNoLock(p.prefix, ref, sha);
    assert IsStep(p, log, |was|, i);
    var r, s, c: nat :| |was| <= c && c + 1 < i && CheckedAt(p, log, c, r) && EvictionStep(p, log, i, r, s);
    BundleKeyDeterminesParts(p.prefix, ref, sha, r, s);
  }

  // ---------------------------------------------------------------
  // What a quiet bucket comes to.
  // ---------------------------------------------------------------

  ghost predicate OneBundleEach(prefix: string, hidden: set<string>, bucket: Bucket) {
    forall ref, sha, sha' ::
      HasBundle(prefix, hidden, bucket, ref, sha) && HasBundle(prefix, hidden, bucket, ref, sha') ==> sha == sha'
  }

  /** `is_head_valid` of the bucket's own snapshot. */
  ghost predicate HeadNamesData(prefix: string, hidden: set<string>, bucket: Bucket) {
    && HeadKey(prefix) in bucket
    && var head := DecodeHead(bucket[HeadKey(prefix)].body);
       head.Some? && HasDataAt(prefix, hidden, bucket, head.value)
  }

  ghost predicate NoBranchToName(prefix: string, hidden: set<string>, bucket: Bucket) {
    forall ref :: StartsWith(ref, "refs/heads/") ==> !HasDataAt(prefix, hidden, bucket, ref)
  }

  /** Nothing left for the doctor to fix, stale locks aside. */
  ghost predicate Repaired(prefix: string, hidden: set<string>, bucket: Bucket) {
    OneBundleEach(prefix, hidden, bucket)
        && (HeadNamesData(prefix, hidden, bucket) || NoBranchToName(prefix, hidden, bucket))
  }

  /** The plan was made from this bucket. */
  ghost predicate PlanOf(p: Plan, hidden: set<string>, bucket: Bucket) {
    && (forall ref, sha :: HasBundle(p.prefix, hidden, bucket, ref, sha) <==> ref in p.shown && sha in p.shown[ref])
    && (forall ref :: HasDataAt(p.prefix, hidden, bucket, ref) ==> ref in p.shown)
  }

  /** Every ref with several bundles has one chosen. */
  ghost predicate AllChosen(p: Plan) {
    forall ref, sha, sha' :: ref in p.shown && sha in p.shown[ref] && sha' in p.shown[ref] && sha != sha' ==>
        ref in p.keepers
  }

  /** The operator says yes to every fix the plan offers. */
  ghost predicate AllConfirmed(p: Plan) {
    forall ref :: ref in p.keepers ==> SaidYes(p, ref)
  }

  /** The eviction of this bundle removes or writes the key. */
  predicate Moves(p: Plan, ref: string, sha: string, k: string) {
    k == BundleKey(p.prefix, ref, sha) || (p.quarantine && k == QuarantineKey(p, ref, sha))
  }

  /** A key the evictions of the plan remove or write. */
  ghost predicate IsMoved(p: Plan, k: string) {
    exists ref, sha :: IsLoser(p, ref, sha) && Moves(p, ref, sha, k)
  }

  /** All losers are gone, and nothing outside the plan changed. */
  ghost predicate PlanDone(p: Plan, before: Bucket, after: Bucket) {
    && (forall ref, sha :: IsLoser(p, ref, sha) ==> BundleKey(p.prefix, ref, sha) !in after)
    && (forall k :: !IsMoved(p, k) ==> KeptAt(before, after, k))
  }

  /** A bundle there after the plan was there before, or was put in quarantine under a new ref. */
  lemma WhereItWas(p: Plan, hidden: set<string>, before: Bucket, after: Bucket, ref: string, sha: string)
    returns (from: string)
    requires ValidPlan(p) && PlanOf(p, hidden, before) && PlanDone(p, before, after)
    requires HasBundle(p.prefix, hidden, after, ref, sha)
    ensures !IsLoser(p, ref, sha)
    ensures (HasBundle(p.prefix, hidden, before, ref, sha) && ref == from)
              || (p.quarantine && IsLoser(p, from, sha) && ref == QuarantineRef(p, from, sha))
  {
    var key := BundleKey(p.prefix, ref, sha);
    from := ref;
    if IsMoved(p, key) {
      var r, s :| IsLoser(p, r, s) && Moves(p, r, s, key);
      if key == BundleKey(p.prefix, r, s) {
        BundleKeyDeterminesParts(p.prefix, ref, sha, r, s);
      } else {
        BundleKeyDeterminesParts(p.prefix, ref, sha, QuarantineRef(p, r, s), s);
      }
      from := r;
    } else {
      assert KeptAt(before, after, key);
    }
  }

  lemma PlanLeavesOneEach(p: Plan, hidden: set<string>, before: Bucket, after: Bucket)
    requires ValidPlan(p) && PlanOf(p, hidden, before) && PlanDone(p, before, after) && FreshSuffixes(p) && AllChosen(p)
    ensures OneBundleEach(p.prefix, hidden, after)
  {
    forall ref, sha, sha' |
      HasBundle(p.prefix, hidden, after, ref, sha) && HasBundle(p.prefix, hidden, after, ref, sha')
      ensures sha == sha'
    {
      var r := WhereItWas(p, hidden, before, after, ref, sha);
      var r' := WhereItWas(p, hidden, before, after, ref, sha');
    }
  }

  /** Whatever ref had data keeps some. */
  lemma PlanKeepsData(p: Plan, hidden: set<string>, before: Bucket, after: Bucket, ref: string)
    requires ValidPlan(p) && PlanOf(p, hidden, before) && FreshSuffixes(p)
               && forall k :: !IsMoved(p, k) ==> KeptAt(before, after, k)
    requires HasDataAt(p.prefix, hidden, before, ref)
    ensures HasDataAt(p.prefix, hidden, after, ref)
  {
    if HasChain(p.prefix, hidden, before, ref) {
      ChainIsNotMoved(p, ref);
      assert KeptAt(before, after, ChainKey(p.prefix, ref));
    } else {
      var any :| HasBundle(p.prefix, hidden, before, ref, any);
      var sha := if ref in p.keepers then p.keepers[ref] else any;
      assert HasBundle(p.prefix, hidden, before, ref, sha) && !IsLoser(p, ref, sha);
      var key := BundleKey(p.prefix, ref, sha);
      if IsMoved(p, key) {
        var r, s :| IsLoser(p, r, s) && Moves(p, r, s, key);
        if key == BundleKey(p.prefix, r, s) {
          BundleKeyDeterminesParts(p.prefix, ref, sha, r, s);
        } else {
          BundleKeyDeterminesParts(p.prefix, ref, sha, QuarantineRef(p, r, s), s);
        }
      }
      assert KeptAt(before, after, key);
      assert HasBundle(p.prefix, hidden, after, ref, sha);
    }
  }

  /** The chosen bundle is no loser and no quarantine. */
  lemma KeeperIsNotMoved(p: Plan, ref: string)
    requires ValidPlan(p) && FreshSuffixes(p) && ref in p.keepers
    ensures !IsMoved(p, KeeperKey(p, ref))
  {
    if IsMoved(p, KeeperKey(p, ref)) {
      var r, s :| IsLoser(p, r, s) && Moves(p, r, s, KeeperKey(p, ref));
      if KeeperKey(p, ref) == BundleKey(p.prefix, r, s) {
        BundleKeyDeterminesParts(p.prefix, ref, p.keepers[ref], r, s);
      } else {
        BundleKeyDeterminesParts(p.prefix, ref, p.keepers[ref], QuarantineRef(p, r, s), s);
      }
    }
  }

  lemma ChainIsNotMoved(p: Plan, ref: string)
    ensures !IsMoved(p, ChainKey(p.prefix, ref)) && !IsLockKey(ChainKey(p.prefix, ref))
              && ChainKey(p.prefix, ref) != HeadKey(p.prefix)
  {
    var key := ChainKey(p.prefix, ref);
    assert key[|key| - 1] == 'n' && HeadKey(p.prefix)[|HeadKey(p.prefix)| - 1] == 'D';
    if IsLockKey(key) {
      SuffixEnd(key, ".lock");
    }
    forall r, s ensures BundleKey(p.prefix, r, s) != key {
      assert BundleKey(p.prefix, r, s)[|BundleKey(p.prefix, r, s)| - 1] == 'e';
    }
  }

  /** Quarantine makes no branch where there was none. */
  lemma PlanMakesNoBranch(p: Plan, hidden: set<string>, before: Bucket, after: Bucket)
    requires ValidPlan(p) && PlanOf(p, hidden, before) && PlanDone(p, before, after)
    requires NoBranchToName(p.prefix, hidden, before)
    ensures NoBranchToName(p.prefix, hidden, after)
  {
    forall ref | StartsWith(ref, "refs/heads/") ensures !HasDataAt(p.prefix, hidden, after, ref) {
      assert !HasDataAt(p.prefix, hidden, before, ref);
      ChainIsNotMoved(p, ref);
      assert KeptAt(before, after, ChainKey(p.prefix, ref));
      forall sha ensures !HasBundle(p.prefix, hidden, after, ref, sha) {
        if HasBundle(p.prefix, hidden, after, ref, sha) {
          var from := WhereItWas(p, hidden, before, after, ref, sha);
          if IsLoser(p, from, sha) {
            NoLoserBehindBranch(p, hidden, before, from, sha);
          }
        }
      }
    }
  }

  lemma NoLoserBehindBranch(p: Plan, hidden: set<string>, before: Bucket, ref: string, sha: string)
    requires PlanOf(p, hidden, before) && NoBranchToName(p.prefix, hidden, before) && IsLoser(p, ref, sha)
    ensures !StartsWith(QuarantineRef(p, ref, sha), "refs/heads/")
  {
    assert HasBundle(p.prefix, hidden, before, ref, sha);
    assert HasDataAt(p.prefix, hidden, before, ref);
    if StartsWith(QuarantineRef(p, ref, sha), "refs/heads/") {
      BranchBehindQuarantine(p, ref, sha);
    }
  }

  lemma BranchBehindQuarantine(p: Plan, ref: string, sha: string)
    requires StartsWith(QuarantineRef(p, ref, sha), "refs/heads/")
    ensures StartsWith(ref, "refs/heads/")
  {
    var heads, quarantine := "refs/heads/", QuarantineRef(p, ref, sha);
    assert quarantine[|ref|] == '_';
    assert forall i :: 0 <= i < |heads| ==> quarantine[i] == heads[i] && heads[i] != '_';
    assert |heads| <= |ref|;
    assert ref == quarantine[..|ref|];
    assert heads == quarantine[..|heads|] == ref[..|heads|];
  }

  // ---------------------------------------------------------------
  // Reads and lock removals are disciplined.
  // ---------------------------------------------------------------

  /** Since `was`, keys were listed and bodies fetched, and nothing else was asked. */
  predicate OnlyRead(was: seq<Event>, log: seq<Event>) {
    Extends(was, log) && forall i :: |was| <= i < |log| ==> log[i].request.Listed? || log[i].request.Got?
  }

  lemma ReadsAreHarmless(p: Plan, was: seq<Event>, log: seq<Event>)
    requires OnlyRead(was, log)
    ensures Disciplined(p, was, log)
  {
    forall i: nat | |was| <= i < |log| ensures IsStep(p, log, |was|, i) {
      assert Harmless(log[i].request);
    }
  }

  lemma LockRemovalsAreDisciplined(p: Plan, was: seq<Event>, log: seq<Event>, log': seq<Event>)
    requires Disciplined(p, was, log) && Extends(log, log')
    requires log' == log || (p.locks.Some? && OnlyRemovesStaleLocks(log, log', p.locks.value))
    ensures Disciplined(p, was, log')
  {
    forall i: nat | |log| <= i < |log'| ensures IsStep(p, log', |log|, i) {
      assert IsLockStep(log', i, p.locks.value);
    }
    MoreSteps(p, was, log, log');
  }

  // ---------------------------------------------------------------
  // From the plan to the repaired bucket.
  // ---------------------------------------------------------------

  /** Only locks and HEAD may differ. */
  ghost predicate SameRefs(prefix: string, before: Bucket, after: Bucket) {
    forall k :: !IsLockKey(k) && k != HeadKey(prefix) ==> KeptAt(before, after, k)
  }

  lemma SameRefsSameData(prefix: string, hidden: set<string>, before: Bucket, after: Bucket)
    requires SameRefs(prefix, before, after)
    ensures forall ref, sha :: HasBundle(prefix, hidden, after, ref, sha) <==>
              HasBundle(prefix, hidden, before, ref, sha)
    ensures forall ref :: HasDataAt(prefix, hidden, after, ref) <==> HasDataAt(prefix, hidden, before, ref)
  {
    forall ref, sha
      ensures HasBundle(prefix, hidden, after, ref, sha) <==> HasBundle(prefix, hidden, before, ref, sha)
    {
      BundleIsNoLock(prefix, ref, sha);
      assert KeptAt(before, after, BundleKey(prefix, ref, sha));
    }
    forall ref ensures HasDataAt(prefix, hidden, after, ref) <==> HasDataAt(prefix, hidden, before, ref) {
      ChainIsNotMoved(Plan(prefix, false, None, map[], map[], map[], map[]), ref);
      assert KeptAt(before, after, ChainKey(prefix, ref));
    }
  }

  lemma HeadIsNoLock(prefix: string)
    ensures !IsLockKey(HeadKey(prefix))
    ensures forall p: Plan :: p.prefix == prefix ==> !IsMoved(p, HeadKey(prefix))
  {
    var key := HeadKey(prefix);
    assert key[|key| - 1] == 'D';
    if IsLockKey(key) {
      SuffixEnd(key, ".lock");
    }
    forall ref, sha ensures BundleKey(prefix, ref, sha) != key {
      BundleIsNoLock(prefix, ref, sha);
    }
  }

  /** What the HEAD step of a run leaves: a good HEAD kept or written, or nothing to name. */
  ghost predicate HeadSettled(prefix: string, hidden: set<string>, start: Bucket, before: Bucket, after: Bucket,
                              chosen: Option<string>)
  {
    match chosen
    case None =>
      && KeptAt(before, after, HeadKey(prefix))
      && (HeadNamesData(prefix, hidden, start) || NoBranchToName(prefix, hidden, start))
    case Some(name) =>
      && HasDataAt(prefix, hidden, start, name) && HasBody(after, HeadKey(prefix), Utf8(name))
      && name != "" && !HasOuterWhitespace(name)
  }

  /** Evictions, HEAD and locks together leave a repaired bucket. */
  lemma RunRepairs(p: Plan, hidden: set<string>, start: Bucket, evicted: Bucket, headed: Bucket, end: Bucket,
                   chosen: Option<string>)
    requires ValidPlan(p) && PlanOf(p, hidden, start) && PlanDone(p, start, evicted) && FreshSuffixes(p) && AllChosen(p)
    requires HeadSettled(p.prefix, hidden, start, evicted, headed, chosen)
    requires SameRefs(p.prefix, evicted, headed)
    requires SameRefs(p.prefix, headed, end) && KeptAt(headed, end, HeadKey(p.prefix))
    ensures Repaired(p.prefix, hidden, end)
  {
    PlanLeavesOneEach(p, hidden, start, evicted);
    SameRefsSameData(p.prefix, hidden, evicted, headed);
    SameRefsSameData(p.prefix, hidden, headed, end);
    HeadIsNoLock(p.prefix);
    match chosen
    case None =>
      assert KeptAt(start, evicted, HeadKey(p.prefix));
      if HeadNamesData(p.prefix, hidden, start) {
        PlanKeepsData(p, hidden, start, evicted, DecodeHead(start[HeadKey(p.prefix)].body).value);
      } else {
        PlanMakesNoBranch(p, hidden, start, evicted);
      }
    case Some(name) =>
      PlanKeepsData(p, hidden, start, evicted, name);
      HeadReadsBackIff(name);
  }
}
