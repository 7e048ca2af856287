// The sweep of delete-branch: which keys it deletes, and what their replies add up to
// (src/manage/branch.rs).
module BranchSweep {
  import opened Base
  import opened Keys
  import opened Store

  // ---------------------------------------------------------------
  // The swept keys of a listing.
  // ---------------------------------------------------------------

  /** The listing without the lock the sweep runs under. */
  function WithoutKey(entries: seq<ObjectMeta>, key: string): seq<ObjectMeta> {
    if entries == [] then []
    else
      var rest := WithoutKey(entries[..|entries| - 1], key);
      var last := entries[|entries| - 1];
      if last.key == key then rest else rest + [last]
  }

  /** The keys the sweep deletes, in listing order: all but the deferred one. */
  function SweptKeys(entries: seq<ObjectMeta>, deferred: Option<string>): seq<string> {
    if entries == [] then []
    else
      var rest := SweptKeys(entries[..|entries| - 1], deferred);
      var last := entries[|entries| - 1];
      if deferred == Some(last.key) then rest else rest + [last.key]
  }

  /** The keys, in order, whose delete failed with anything but NotFound. */
  function Undeleted(keys: seq<string>, replies: seq<Reply<Done>>): seq<string>
    requires |keys| == |replies|
  {
    if keys == [] then []
    else
      var n := |keys| - 1;
      var rest := Undeleted(keys[..n], replies[..n]);
      if replies[n] == Err(OtherError) then rest + [keys[n]] else rest
  }

  /** The keys, in order, that are gone: deleted now, or by someone else before. */
  function Gone(keys: seq<string>, replies: seq<Reply<Done>>): seq<string>
    requires |keys| == |replies|
  {
    if keys == [] then []
    else
      var n := |keys| - 1;
      var rest := Gone(keys[..n], replies[..n]);
      if replies[n] == Err(OtherError) then rest else rest + [keys[n]]
  }

  function KeysOf(entries: seq<ObjectMeta>): seq<string> {
    seq(|entries|, i requires 0 <= i < |entries| => entries[i].key)
  }

  lemma {:induction false} WithoutKeyHas(entries: seq<ObjectMeta>, key: string, e: ObjectMeta)
    ensures e in WithoutKey(entries, key) <==> e in entries && e.key != key
  {
    if entries != [] {
      WithoutKeyHas(entries[..|entries| - 1], key, e);
      assert entries == entries[..|entries| - 1] + [entries[|entries| - 1]];
    }
  }

  lemma {:induction false} WithoutKeyDistinct(entries: seq<ObjectMeta>, key: string)
    requires DistinctKeys(entries)
    ensures DistinctKeys(WithoutKey(entries, key))
  {
    if entries != [] {
      var init, last := entries[..|entries| - 1], entries[|entries| - 1];
      WithoutKeyDistinct(init, key);
      forall e | e in WithoutKey(init, key) ensures e.key != last.key {
        WithoutKeyHas(init, key, e);
      }
    }
  }

  /** Swept, undeleted and the deferred key: together the listing, each key once. */
  lemma {:induction false} SweepPartitions(listed: seq<ObjectMeta>, deferred: Option<string>, replies: seq<Reply<Done>>)
    requires DistinctKeys(listed) && |replies| == |SweptKeys(listed, deferred)|
    requires deferred.Some? ==> Lists(listed, deferred.value)
    ensures multiset(KeysOf(listed)) == multiset(Gone(SweptKeys(listed, deferred), replies))
                                        + multiset(Undeleted(SweptKeys(listed, deferred), replies))
                                        + (if deferred.Some? then multiset{deferred.value} else multiset{})
    ensures |SweptKeys(listed, deferred)| + (if deferred.Some? then 1 else 0) == |listed|
  {
    SweptKeysAre(listed, deferred);
    RepliesPartition(SweptKeys(listed, deferred), replies);
  }

  lemma {:induction false} SweptKeysAre(listed: seq<ObjectMeta>, deferred: Option<string>)
    requires DistinctKeys(listed) && (deferred.Some? ==> Lists(listed, deferred.value))
    ensures multiset(KeysOf(listed)) == multiset(SweptKeys(listed, deferred))
              + (if deferred.Some? then multiset{deferred.value} else multiset{})
    ensures |SweptKeys(listed, deferred)| + (if deferred.Some? then 1 else 0) == |listed|
  {
    if deferred.None? || listed == [] {
      NothingSpared(listed, deferred);
    } else {
      var init, last := listed[..|listed| - 1], listed[|listed| - 1];
      assert KeysOf(listed) == KeysOf(init) + [last.key];
      if deferred.value == last.key {
        NothingSpared(init, deferred);
      } else {
        var i :| 0 <= i < |listed| && listed[i].key == deferred.value;
        assert init[i].key == deferred.value;
        SweptKeysAre(init, deferred);
      }
    }
  }

  lemma {:induction false} NothingSpared(listed: seq<ObjectMeta>, deferred: Option<string>)
    requires deferred.Some? ==> !Lists(listed, deferred.value)
    ensures SweptKeys(listed, deferred) == KeysOf(listed)
  {
    if listed != [] {
      var init, last := listed[..|listed| - 1], listed[|listed| - 1];
      assert KeysOf(listed) == KeysOf(init) + [last.key];
      if deferred.Some? {
        assert listed[|listed| - 1].key != deferred.value;
      }
      NothingSpared(init, deferred);
    }
  }

  lemma {:induction false} RepliesPartition(keys: seq<string>, replies: seq<Reply<Done>>)
    requires |keys| == |replies|
    ensures multiset(keys) == multiset(Gone(keys, replies)) + multiset(Undeleted(keys, replies))
  {
    if keys != [] {
      var n := |keys| - 1;
      RepliesPartition(keys[..n], replies[..n]);
      assert keys == keys[..n] + [keys[n]];
    }
  }

  // ---------------------------------------------------------------
  // What happened to one key.
  // ---------------------------------------------------------------

  /** A key this client alone writes. */
  predicate Ours(quiet: bool, mine: set<string>, k: string) {
    quiet || k in mine
  }

  lemma {:induction false} SparedIsNotSwept(entries: seq<ObjectMeta>, spared: string)
    ensures spared !in SweptKeys(entries, Some(spared))
  {
    if entries != [] {
      SparedIsNotSwept(entries[..|entries| - 1], spared);
    }
  }

  /** After the sweep a swept key is gone unless its delete failed; any other key is as it was. */
  predicate SweptAt(before: Bucket, after: Bucket, keys: seq<string>, undeleted: seq<string>, k: string) {
    if k in keys then k in after ==> k in undeleted && k in before && after[k] == before[k]
    else KeptAt(before, after, k)
  }

  /** The key did not appear and did not change. */
  predicate ShrinksAt(before: Bucket, after: Bucket, k: string) {
    k in after ==> k in before && after[k] == before[k]
  }

  /** A key under the ref survives the sweep only as the deferred one or an undeleted one. */
  lemma AfterSweep(listed: seq<ObjectMeta>, dir: string, lock: string, at: Bucket, after: Bucket,
                   deferred: Option<string>, undeleted: seq<string>, k: string)
    requires IsListingWithout(listed, dir, lock, at) && StartsWith(k, dir) && k != lock
    requires SweptAt(at, after, SweptKeys(listed, deferred), undeleted, k)
    ensures ShrinksAt(at, after, k)
    ensures k in after ==> deferred == Some(k) || k in undeleted
  {
    if k in after && k !in SweptKeys(listed, deferred) {
      var i :| 0 <= i < |listed| && listed[i].key == k;
      ListedAreSwept(listed, deferred, i);
    }
  }

  lemma {:induction false} ListedAreSwept(listed: seq<ObjectMeta>, deferred: Option<string>, i: nat)
    requires i < |listed|
    ensures listed[i].key in SweptKeys(listed, deferred) || deferred == Some(listed[i].key)
  {
    if i < |listed| - 1 {
      ListedAreSwept(listed[..|listed| - 1], deferred, i);
    }
  }

  /** The requests of the sweep: one delete a key, in order, with its reply. */
  ghost predicate IsSweep(events: seq<Event>, keys: seq<string>, replies: seq<Reply<Done>>) {
    && |events| == |keys| == |replies|
    && forall i :: 0 <= i < |events| ==> events[i].request == Deleted(keys[i], replies[i])
  }

  lemma ThenSwept(quiet: bool, mine: set<string>, dir: string, start: Bucket, before: Bucket, after: Bucket,
                  keys: seq<string>, undeleted: seq<string>)
    requires forall k :: Ours(quiet, mine, k) && StartsWith(k, dir) ==> KeptAt(start, before, k)
    requires forall k :: Ours(quiet, mine, k) ==> SweptAt(before, after, keys, undeleted, k)
    ensures forall k :: Ours(quiet, mine, k) && StartsWith(k, dir) ==> SweptAt(start, after, keys, undeleted, k)
  {
    forall k | Ours(quiet, mine, k) && StartsWith(k, dir) ensures SweptAt(start, after, keys, undeleted, k) {
      assert KeptAt(start, before, k) && SweptAt(before, after, keys, undeleted, k);
    }
  }

  lemma SweptStays(quiet: bool, mine: set<string>, dir: string, start: Bucket, before: Bucket, after: Bucket,
                   keys: seq<string>, undeleted: seq<string>)
    requires forall k :: Ours(quiet, mine, k) && StartsWith(k, dir) ==> SweptAt(start, before, keys, undeleted, k)
    requires forall k :: Ours(quiet, mine, k) ==> KeptAt(before, after, k)
    ensures forall k :: Ours(quiet, mine, k) && StartsWith(k, dir) ==> SweptAt(start, after, keys, undeleted, k)
  {
    forall k | Ours(quiet, mine, k) && StartsWith(k, dir) ensures SweptAt(start, after, keys, undeleted, k) {
      assert SweptAt(start, before, keys, undeleted, k) && KeptAt(before, after, k);
    }
  }

  /** The log and the bucket after the deletes of `keys`. */
  ghost predicate SweptSoFar(quiet: bool, mine: set<string>, was: seq<Event>, log: seq<Event>, start: Bucket,
                             now: Bucket, keys: seq<string>, replies: seq<Reply<Done>>)
  {
    && |replies| == |keys| && |log| == |was| + |keys| && log[..|was|] == was
    && IsSweep(log[|was|..], keys, replies)
    && forall k :: Ours(quiet, mine, k) ==> SweptAt(start, now, keys, Undeleted(keys, replies), k)
  }

  lemma SweepOneMore(quiet: bool, mine: set<string>, was: seq<Event>, log: seq<Event>, log': seq<Event>, start: Bucket,
                     now: Bucket, keys: seq<string>, replies: seq<Reply<Done>>, key: string, reply: Reply<Done>)
    requires SweptSoFar(quiet, mine, was, log, start, now, keys, replies) && key !in keys
    requires |log'| == |log| + 1 && log'[..|log|] == log && log'[|log|].request == Deleted(key, reply)
    requires OthersMoved(quiet, mine, now, log'[|log|].before)
               && Effect(Deleted(key, reply), log'[|log|].before, log'[|log|].after)
    ensures SweptSoFar(quiet, mine, was, log', start, log'[|log|].after, keys + [key], replies + [reply])
  {
    var e := log'[|log|];
    assert log' == log + [e] && log'[|was|..] == log[|was|..] + [e];
    assert (keys + [key])[..|keys|] == keys && (replies + [reply])[..|keys|] == replies;
    var undeleted := Undeleted(keys, replies);
    forall k | Ours(quiet, mine, k)
      ensures SweptAt(start, e.after, keys + [key], Undeleted(keys + [key], replies + [reply]), k)
    {
      assert KeptAt(now, e.before, k);
      assert SweptAt(start, now, keys, undeleted, k);
    }
  }

  // ---------------------------------------------------------------
  // The listing that is swept.
  // ---------------------------------------------------------------

  /** The under-lock listing without the lock. */
  ghost predicate IsListingWithout(listed: seq<ObjectMeta>, dir: string, lock: string, bucket: Bucket) {
    && (forall i :: 0 <= i < |listed| ==> IsEntry(listed[i], dir, bucket) && listed[i].key != lock)
    && (forall k :: k in bucket && StartsWith(k, dir) && k != lock ==> Lists(listed, k))
    && DistinctKeys(listed)
  }

  lemma WithoutKeyIsListing(entries: seq<ObjectMeta>, dir: string, lock: string, bucket: Bucket)
    requires IsListing(entries, dir, bucket)
    ensures IsListingWithout(WithoutKey(entries, lock), dir, lock, bucket)
  {
    WithoutKeyDistinct(entries, lock);
    var listed := WithoutKey(entries, lock);
    forall i | 0 <= i < |listed| ensures IsEntry(listed[i], dir, bucket) && listed[i].key != lock {
      WithoutKeyHas(entries, lock, listed[i]);
    }
    forall k | k in bucket && StartsWith(k, dir) && k != lock ensures Lists(listed, k) {
      var i :| 0 <= i < |entries| && entries[i].key == k;
      WithoutKeyHas(entries, lock, entries[i]);
    }
  }

  lemma NextSweptKey(listed: seq<ObjectMeta>, i: nat, deferred: Option<string>)
    requires i < |listed| && DistinctKeys(listed)
    ensures listed[i].key !in SweptKeys(listed[..i], deferred)
    ensures deferred == Some(listed[i].key) ==> SweptKeys(listed[..i + 1], deferred) == SweptKeys(listed[..i], deferred)
    ensures deferred != Some(listed[i].key) ==>
              SweptKeys(listed[..i + 1], deferred) == SweptKeys(listed[..i], deferred) + [listed[i].key]
  {
    SweptBefore(listed, i, deferred);
    assert listed[..i + 1][..i] == listed[..i];
  }

  lemma UndeletedMore(keys: seq<string>, replies: seq<Reply<Done>>, key: string, reply: Reply<Done>)
    requires |keys| == |replies|
    ensures reply == Err(OtherError) ==> Undeleted(keys + [key], replies + [reply]) == Undeleted(keys, replies) + [key]
    ensures reply != Err(OtherError) ==> Undeleted(keys + [key], replies + [reply]) == Undeleted(keys, replies)
  {
    assert (keys + [key])[..|keys|] == keys && (replies + [reply])[..|keys|] == replies;
  }

  lemma {:induction false} SweptBefore(listed: seq<ObjectMeta>, i: nat, deferred: Option<string>)
    requires i < |listed| && DistinctKeys(listed)
    ensures listed[i].key !in SweptKeys(listed[..i], deferred)
  {
    forall n: nat | n <= i ensures forall k :: k in SweptKeys(listed[..n], deferred) ==> k in KeysOf(listed[..n]) {
      SweptAreListed(listed[..n], deferred);
    }
    assert forall j :: 0 <= j < i ==> KeysOf(listed[..i])[j] == listed[j].key;
  }

  lemma {:induction false} SweptAreListed(listed: seq<ObjectMeta>, deferred: Option<string>)
    ensures forall k :: k in SweptKeys(listed, deferred) ==> k in KeysOf(listed) && deferred != Some(k)
  {
    if listed != [] {
      var init, last := listed[..|listed| - 1], listed[|listed| - 1];
      SweptAreListed(init, deferred);
      assert KeysOf(listed) == KeysOf(init) + [last.key];
    }
  }
}
