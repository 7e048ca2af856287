// The object store as its callers see it (src/object_store/mod.rs): one shared bucket that
// others may change between any two requests, and requests that may fail.
module Store {
  import opened Base
  import opened Keys

  /** A body that is valid UTF-8 is the text it decodes to. */
  datatype Body = Utf8(text: string) | NotUtf8(octets: seq<nat>)

  datatype Stored = Stored(body: Body, lastModified: int)

  type Bucket = map<string, Stored>

  datatype StoreError = NotFound | OtherError

  datatype Reply<+T> = Ok(value: T) | Err(error: StoreError)

  datatype Done = Done

  datatype Request =
    | Listed(prefix: string, listing: Reply<seq<ObjectMeta>>)
    | Headed(key: string, head: Reply<ObjectMeta>)
    | Got(key: string, body: Reply<Body>)
    | Put(key: string, text: string, put: Reply<Done>)
    | PutNew(key: string, created: Reply<bool>)
    | Copied(src: string, dst: string, copied: Reply<Done>)
    | Deleted(key: string, deleted: Reply<Done>)
    | Confirmed(entity: string)   // not a request: the operator's yes
    | ClockRead(now: int)         // not a request either

  /** One request, the bucket it found and the bucket it left. */
  datatype Event = Event(request: Request, before: Bucket, after: Bucket)

  // ---------------------------------------------------------------
  // What others may do, and what a request does.
  // ---------------------------------------------------------------

  /** In a quiet bucket nothing changes; the keys in `mine` are never touched by others. */
  predicate OthersMoved(quiet: bool, mine: set<string>, before: Bucket, after: Bucket) {
    && (quiet ==> after == before)
    && forall k :: k in mine ==> KeptAt(before, after, k)
  }

  predicate KeptAt(before: Bucket, after: Bucket, k: string) {
    && (k in after <==> k in before)
    && (k in before ==> after[k] == before[k])
  }

  /** A failed write may have been applied; a failed read says nothing. */
  ghost predicate Effect(request: Request, before: Bucket, after: Bucket) {
    match request
    case Listed(prefix, listing) =>
      && after == before
      && (listing.Ok? ==> IsListing(listing.value, prefix, before))
    case Headed(key, head) =>
      && after == before
      && (head.Ok? ==> key in before && head.value == ObjectMeta(key, before[key].lastModified))
      && (head == Err(NotFound) ==> key !in before)
    case Got(key, body) =>
      && after == before
      && (body.Ok? ==> key in before && body.value == before[key].body)
      && (body == Err(NotFound) ==> key !in before)
    case Put(key, text, put) =>
      WrittenAt(before, after, key, Utf8(text)) || (put.Err? && after == before)
    case PutNew(key, created) =>
      || (created == Ok(false) && key in before && after == before)
      || (created.Err? && after == before)
      || (created != Ok(false) && key !in before && WrittenAt(before, after, key, Utf8("")))
    case Copied(src, dst, copied) =>
      || (src in before && copied != Err(NotFound) && WrittenAt(before, after, dst, before[src].body))
      || (copied == Err(OtherError) && after == before)
      || (copied == Err(NotFound) && src !in before && after == before)
    case Deleted(key, deleted) =>
      || (key in before && deleted != Err(NotFound) && after == before - {key})
      || (deleted == Err(OtherError) && after == before)
      || (deleted == Err(NotFound) && key !in before && after == before)
    case Confirmed(_) => after == before
    case ClockRead(_) => after == before
  }

  predicate WrittenAt(before: Bucket, after: Bucket, key: string, body: Body) {
    key in after && after[key].body == body && after == before[key := after[key]]
  }

  /** The entries of a listing: every key with the prefix, once, in any order. */
  ghost predicate IsListing(entries: seq<ObjectMeta>, prefix: string, bucket: Bucket) {
    && (forall i :: 0 <= i < |entries| ==> IsEntry(entries[i], prefix, bucket))
    && (forall k :: k in bucket && StartsWith(k, prefix) ==> Lists(entries, k))
    && DistinctKeys(entries)
  }

  predicate IsEntry(entry: ObjectMeta, prefix: string, bucket: Bucket) {
    && entry.key in bucket && StartsWith(entry.key, prefix)
    && entry.lastModified == bucket[entry.key].lastModified
  }

  predicate Lists(entries: seq<ObjectMeta>, k: string) {
    exists i :: 0 <= i < |entries| && entries[i].key == k
  }

  lemma ListsMore(entries: seq<ObjectMeta>, entry: ObjectMeta)
    ensures Lists(entries + [entry], entry.key)
    ensures forall k :: Lists(entries, k) ==> Lists(entries + [entry], k)
  {
    assert (entries + [entry])[|entries|] == entry;
    forall k | Lists(entries, k) ensures Lists(entries + [entry], k) {
      var i :| 0 <= i < |entries| && entries[i].key == k;
      assert (entries + [entry])[i].key == k;
    }
  }

  lemma AllListed(entries: seq<ObjectMeta>, prefix: string, bucket: Bucket)
    requires IsListing(entries, prefix, bucket)
    ensures forall i :: 0 <= i < |entries| ==> entries[i].key in bucket
  {
    assert forall i :: 0 <= i < |entries| ==> IsEntry(entries[i], prefix, bucket);
  }

  predicate DistinctKeys(entries: seq<ObjectMeta>) {
    forall i, j :: 0 <= i < j < |entries| ==> entries[i].key != entries[j].key
  }

  /** A history of the bucket: every request had its effect, and between two of them others moved. */
  ghost predicate IsTrace(quiet: bool, mine: set<string>, log: seq<Event>) {
    forall i: nat {:trigger FollowsOn(quiet, mine, log, i)} :: i < |log| ==> FollowsOn(quiet, mine, log, i)
  }

  ghost predicate FollowsOn(quiet: bool, mine: set<string>, log: seq<Event>, i: nat)
    requires i < |log|
  {
    && Effect(log[i].request, log[i].before, log[i].after)
    && (i > 0 ==> OthersMoved(quiet, mine, log[i - 1].after, log[i].before))
  }

  lemma TraceGrows(quiet: bool, mine: set<string>, log: seq<Event>, e: Event)
    requires IsTrace(quiet, mine, log) && Effect(e.request, e.before, e.after)
    requires log != [] ==> OthersMoved(quiet, mine, log[|log| - 1].after, e.before)
    ensures IsTrace(quiet, mine, log + [e])
  {
    forall i: nat | i < |log| + 1 ensures FollowsOn(quiet, mine, log + [e], i) {
      if i < |log| {
        assert FollowsOn(quiet, mine, log, i);
      }
    }
  }

  /** The request may write or remove the key. */
  predicate Touches(request: Request, k: string) {
    match request
    case Put(key, _, _) => key == k
    case PutNew(key, _) => key == k
    case Copied(_, dst, _) => dst == k
    case Deleted(key, _) => key == k
    case _ => false
  }

  /** A key that neither others nor the requests from `from` on touch is kept. */
  lemma {:induction false} UntouchedIsKept(quiet: bool, mine: set<string>, log: seq<Event>, from: nat, last: nat,
                                            k: string)
    requires IsTrace(quiet, mine, log) && (quiet || k in mine) && from <= last < |log|
    requires forall i :: from <= i <= last ==> !Touches(log[i].request, k)
    ensures KeptAt(log[from].before, log[last].after, k)
    decreases last
  {
    assert FollowsOn(quiet, mine, log, last);
    if from < last {
      UntouchedIsKept(quiet, mine, log, from, last - 1, k);
    }
  }

  /** The log only grows. */
  predicate Extends(was: seq<Event>, log: seq<Event>) {
    |was| <= |log| && log[..|was|] == was
  }

  /** The request met a fault; finding nothing at the key is none. */
  predicate Faulty(request: Request) {
    match request
    case Listed(_, listing) => listing.Err?
    case Headed(_, head) => head == Err(OtherError)
    case Got(_, body) => body == Err(OtherError)
    case Put(_, _, put) => put.Err?
    case PutNew(_, created) => created.Err?
    case Copied(_, _, copied) => copied == Err(OtherError)
    case Deleted(_, deleted) => deleted == Err(OtherError)
    case Confirmed(_) => false
    case ClockRead(_) => false
  }

  /** No request since `was` met a fault. */
  predicate FaultFree(was: seq<Event>, log: seq<Event>) {
    |was| <= |log| && forall i :: |was| <= i < |log| ==> !Faulty(log[i].request)
  }

  lemma ExtendsFurther(was: seq<Event>, log: seq<Event>, log': seq<Event>)
    requires Extends(was, log) && Extends(log, log')
    ensures Extends(was, log')
    ensures !FaultFree(was, log) || !FaultFree(log, log') ==> !FaultFree(was, log')
  {
    assert forall i :: 0 <= i < |log| ==> log'[i] == log'[..|log|][i];
  }

  /** Since `was`, bodies were fetched and nothing else was asked. */
  predicate OnlyFetched(was: seq<Event>, log: seq<Event>) {
    Extends(was, log) && forall i :: |was| <= i < |log| ==> log[i].request.Got?
  }

  lemma FetchedMore(was: seq<Event>, log: seq<Event>, log': seq<Event>)
    requires OnlyFetched(was, log) && OnlyFetched(log, log')
    ensures OnlyFetched(was, log')
  {
    assert forall i :: 0 <= i < |log| ==> log'[i] == log'[..|log|][i];
  }

  /** Some enumeration of the keys with the prefix. */
  method Enumerate(bucket: Bucket, prefix: string) returns (entries: seq<ObjectMeta>)
    ensures IsListing(entries, prefix, bucket)
  {
    entries := [];
    var rest := bucket.Keys;
    while rest != {}
      invariant rest <= bucket.Keys
      invariant forall i :: 0 <= i < |entries| ==> IsEntry(entries[i], prefix, bucket) && entries[i].key !in rest
      invariant forall k :: k in bucket && k !in rest && StartsWith(k, prefix) ==> Lists(entries, k)
      invariant DistinctKeys(entries)
    {
      var k :| k in rest;
      rest := rest - {k};
      if StartsWith(k, prefix) {
        var entry := ObjectMeta(k, bucket[k].lastModified);
        ListsMore(entries, entry);
        entries := entries + [entry];
      }
    }
  }

  // ---------------------------------------------------------------
  // The store.
  // ---------------------------------------------------------------

  class ObjectStore {
    var bucket: Bucket
    const quiet: bool
    const mine: set<string>
    ghost var log: seq<Event>

    ghost predicate Valid()
      reads this
    {
      IsTrace(quiet, mine, log) && (log != [] ==> log[|log| - 1].after == bucket)
    }

    /** One request was made: it found what others had left and had its effect. */
    twostate predicate Made(request: Request)
      reads this
    {
      && Valid()
      && |log| == |old(log)| + 1 && log[..|old(log)|] == old(log)
      && var e := log[|old(log)|];
      && e.request == request && e.after == bucket
      && OthersMoved(quiet, mine, old(bucket), e.before)
      && Effect(request, e.before, e.after)
    }

    method Interfere()
      modifies this`bucket
      ensures OthersMoved(quiet, mine, old(bucket), bucket)
    {
      if !quiet {
        var theirs: Bucket := *;
        bucket := (map k | k in bucket && k in mine :: bucket[k]) + (map k | k in theirs && k !in mine :: theirs[k]);
      }
    }

    ghost method Record(request: Request, before: Bucket)
      requires IsTrace(quiet, mine, log)
      requires log != [] ==> OthersMoved(quiet, mine, log[|log| - 1].after, before)
      requires Effect(request, before, bucket)
      modifies this`log
      ensures Valid() && log == old(log) + [Event(request, before, bucket)]
    {
      TraceGrows(quiet, mine, log, Event(request, before, bucket));
      log := log + [Event(request, before, bucket)];
    }

    method List(prefix: string) returns (r: Reply<seq<ObjectMeta>>)
      requires Valid()
      modifies this
      ensures Made(Listed(prefix, r))
    {
      Interfere();
      var failed: bool := *;
      if failed {
        r := Err(OtherError);
      } else {
        var entries := Enumerate(bucket, prefix);
        r := Ok(entries);
      }
      Record(Listed(prefix, r), bucket);
    }

    method Head(key: string) returns (r: Reply<ObjectMeta>)
      requires Valid()
      modifies this
      ensures Made(Headed(key, r))
    {
      Interfere();
      var failed: bool := *;
      r := if failed then Err(OtherError)
           else if key in bucket then Ok(ObjectMeta(key, bucket[key].lastModified)) else Err(NotFound);
      Record(Headed(key, r), bucket);
    }

    method GetBytes(key: string) returns (r: Reply<Body>)
      requires Valid()
      modifies this
      ensures Made(Got(key, r))
    {
      Interfere();
      var failed: bool := *;
      r := if failed then Err(OtherError) else if key in bucket then Ok(bucket[key].body) else Err(NotFound);
      Record(Got(key, r), bucket);
    }

    method PutBytes(key: string, text: string) returns (r: Reply<Done>)
      requires Valid()
      modifies this
      ensures Made(Put(key, text, r))
    {
      Interfere();
      ghost var before := bucket;
      var failed: bool, applied: bool, now: int := *, *, *;
      if !failed || applied {
        bucket := bucket[key := Stored(Utf8(text), now)];
      }
      r := if failed then Err(OtherError) else Ok(Done);
      Record(Put(key, text, r), before);
    }

    method PutIfAbsent(key: string) returns (r: Reply<bool>)
      requires Valid()
      modifies this
      ensures Made(PutNew(key, r))
    {
      Interfere();
      ghost var before := bucket;
      var failed: bool, applied: bool, now: int := *, *, *;
      r := if failed then Err(OtherError) else Ok(key !in bucket);
      if key !in bucket && (!failed || applied) {
        bucket := bucket[key := Stored(Utf8(""), now)];
      }
      Record(PutNew(key, r), before);
    }

    method Copy(src: string, dst: string) returns (r: Reply<Done>)
      requires Valid()
      modifies this
      ensures Made(Copied(src, dst, r))
    {
      Interfere();
      ghost var before := bucket;
      var failed: bool, applied: bool, now: int := *, *, *;
      r := if failed then Err(OtherError) else if src in bucket then Ok(Done) else Err(NotFound);
      if src in bucket && (!failed || applied) {
        bucket := bucket[dst := Stored(bucket[src].body, now)];
      }
      Record(Copied(src, dst, r), before);
    }

    method Delete(key: string) returns (r: Reply<Done>)
      requires Valid()
      modifies this
      ensures Made(Deleted(key, r))
    {
      Interfere();
      ghost var before := bucket;
      var failed: bool, applied: bool := *, *;
      r := if failed then Err(OtherError) else if key in bucket then Ok(Done) else Err(NotFound);
      if key in bucket && (!failed || applied) {
        bucket := bucket - {key};
      }
      Record(Deleted(key, r), before);
    }

    /** The clock was read. */
    ghost method Tick(now: int)
      requires Valid()
      modifies this`log
      ensures Made(ClockRead(now)) && log == old(log) + [Event(ClockRead(now), bucket, bucket)]
    {
      Record(ClockRead(now), bucket);
    }

    /** The operator answered yes; others may have moved while the prompt was open. */
    ghost method Confirm(entity: string)
      requires Valid()
      modifies this`log
      ensures Made(Confirmed(entity)) && log == old(log) + [Event(Confirmed(entity), bucket, bucket)]
    {
      Record(Confirmed(entity), bucket);
    }
  }
}
