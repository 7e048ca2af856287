// delete-branch, protect, unprotect and push as step machines over one shared bucket
// (src/manage/branch.rs), with the per-ref lock key they contend for (src/protocol/push.rs).
module BranchProtocol {
  import opened Keys

  type ClientId = nat

  datatype Op = DeleteBranch | Protect | Unprotect | Push

  /** Where a client stands between two requests. */
  datatype Phase =
    | Acquiring                     // about to put the lock key if absent
    | Examining                     // the key existed: about to read its age
    | Recovering                    // read a stale age: about to delete the key
    | Retrying                      // about to put the lock key a second time
    | Working                       // holds the lock
    | Sweeping(rest: set<string>)   // delete-branch, with the keys still to delete
    | Marking                       // protect, about to write the marker
    | Replacing(added: string)      // push, with its new bundle on the bucket
    | Releasing                     // about to delete its lock key

  datatype Client = Idle | Busy(op: Op, ref: string, phase: Phase)

  /** Bodies and timestamps play no part: a lock's age is any answer the clock may give. */
  datatype State = State(keys: set<string>, clients: map<ClientId, Client>)

  /** One repository and the refs its clients work on. */
  datatype Repo = Repo(prefix: string, refs: set<string>) {
    function Dir(ref: string): string { RefListingPrefix(prefix, ref) }
    function Lock(ref: string): string { LockKey(prefix, ref) }
    function Marker(ref: string): string { ProtectedKey(prefix, ref) }

    /** What a listing of the ref returns. */
    function Listing(keys: set<string>, ref: string): set<string> {
      set k | k in keys && StartsWith(k, Dir(ref))
    }

    predicate HasData(keys: set<string>, ref: string) {
      exists k :: k in Listing(keys, ref) && CarriesData(k)
    }

    ghost predicate NoNestedRefs() {
      forall r, q :: r in refs && q in refs && r != q ==> !StartsWith(Dir(r), Dir(q))
    }
  }

  // ---------------------------------------------------------------
  // Steps.
  // ---------------------------------------------------------------

  /** One request of one client; a reported failure may or may not have taken effect. */
  ghost predicate Turn(repo: Repo, c: Client, keys: set<string>, c': Client, keys': set<string>) {
    match c
    case Idle =>
      keys' == keys && c'.Busy? && c'.phase == Acquiring && c'.ref in repo.refs
    case Busy(op, ref, phase) =>
      var lock := repo.Lock(ref);
      match phase
      case Acquiring =>
        || (lock in keys && keys' == keys && c' == Busy(op, ref, Examining))
        || (lock !in keys && keys' == keys + {lock} && c' == Busy(op, ref, Working))
        || (lock !in keys && keys' == keys + {lock} && c' == Idle)
      case Examining =>
        keys' == keys && (c' == Idle || (lock in keys && c' == Busy(op, ref, Recovering)))
      case Recovering =>
        keys' == keys - {lock} && (c' == Idle || c' == Busy(op, ref, Retrying))
      case Retrying =>
        || (lock in keys && keys' == keys && c' == Idle)
        || (lock !in keys && keys' == keys + {lock} && c' == Busy(op, ref, Working))
        || (lock !in keys && keys' == keys + {lock} && c' == Idle)
      case Working =>
        || (keys' == keys && c' == Busy(op, ref, Releasing))
        || WorkTurn(repo, op, ref, keys, c', keys')
      case Sweeping(rest) =>
        // delete-branch goes through every key; a push of an empty source stops at a failure.
        || (keys' == keys && c' == Busy(op, ref, Releasing))
        || exists k :: k in rest && c' == Busy(op, ref, Sweeping(rest - {k})) && (keys' == keys || keys' == keys - {k})
      case Marking =>
        c' == Busy(op, ref, Releasing) && (keys' == keys || keys' == keys + {repo.Marker(ref)})
      case Replacing(added) =>
        || (keys' == keys && c' == Busy(op, ref, Releasing))
        || (&& c' == c
            && exists k :: StartsWith(k, repo.Dir(ref)) && CarriesData(k)
                           && (keys' == keys + {k} || (k != added && keys' == keys - {k})))
      case Releasing =>
        c' == Idle && (keys' == keys || keys' == keys - {lock})
  }

  /** The first request made under the lock. Any failed listing ends the work instead. */
  ghost predicate WorkTurn(repo: Repo, op: Op, ref: string, keys: set<string>, c': Client, keys': set<string>) {
    var listed := repo.Listing(keys, ref) - {repo.Lock(ref)};
    match op
    case DeleteBranch =>
      // Refused when a marker is listed; at most the deferred baseline bundle is spared.
      && keys' == keys && (forall k :: k in listed ==> !IsMarkerKey(k))
      && c'.Busy? && c'.op == op && c'.ref == ref && c'.phase.Sweeping? && c'.phase.rest <= listed
    case Protect =>
      keys' == keys && repo.HasData(keys, ref) && c' == Busy(op, ref, Marking)
    case Unprotect =>
      keys' == keys - {repo.Marker(ref)} && c' == Busy(op, ref, Releasing)
    case Push =>
      exists k :: StartsWith(k, repo.Dir(ref)) && CarriesData(k) && keys' == keys + {k}
                  && (c' == Busy(op, ref, Replacing(k)) || c' == Busy(op, ref, Releasing))
  }

  predicate InCriticalSection(c: Client, ref: string) {
    c.Busy? && c.ref == ref
        && (c.phase.Working? || c.phase.Sweeping? || c.phase.Marking? || c.phase.Replacing? || c.phase.Releasing?)
  }

  /** A turn, or a crash, which leaves whatever the client had written. */
  ghost predicate Moves(repo: Repo, c: Client, keys: set<string>, c': Client, keys': set<string>) {
    Turn(repo, c, keys, c', keys') || (c' == Idle && keys' == keys)
  }

  ghost predicate Steps(repo: Repo, i: ClientId, s: State, s': State) {
    && i in s.clients && i in s'.clients && s'.clients == s.clients[i := s'.clients[i]]
    && Moves(repo, s.clients[i], s.keys, s'.clients[i], s'.keys)
  }

  /** Only keys that no ref's listing shows were written: a tombstone, HEAD, another repository. */
  ghost predicate Elsewhere(repo: Repo, keys: set<string>, keys': set<string>) {
    forall ref :: ref in repo.refs ==> repo.Listing(keys', ref) == repo.Listing(keys, ref)
  }

  /**
   * What one request of a client may be: invisible to the others, or a move, after at most one
   * move that needed no request.
   */
  ghost predicate Acts(repo: Repo, c: Client, keys: set<string>, c': Client, keys': set<string>) {
    || (c' == c && Elsewhere(repo, keys, keys'))
    || exists mid :: (mid == c || Moves(repo, c, keys, mid, keys)) && Moves(repo, mid, keys, c', keys')
  }

  /** The heartbeat of a holder, or a late one of a holder that is gone. */
  ghost predicate Heartbeat(repo: Repo, s: State, s': State) {
    && s'.clients == s.clients
    && exists ref :: ref in repo.refs && s'.keys == s.keys + {repo.Lock(ref)}
  }

  ghost predicate Next(repo: Repo, s: State, s': State) {
    || Heartbeat(repo, s, s')
    || (s'.clients == s.clients && Elsewhere(repo, s.keys, s'.keys))
    || exists i :: Steps(repo, i, s, s')
  }

  /** Every request of a client is at most two steps of the machine. */
  lemma ActsAreSteps(repo: Repo, s: State, i: ClientId, c': Client, keys': set<string>) returns (mid: State)
    requires i in s.clients && Acts(repo, s.clients[i], s.keys, c', keys')
    ensures mid == s || Next(repo, s, mid)
    ensures Next(repo, mid, State(keys', s.clients[i := c']))
  {
    var c, s' := s.clients[i], State(keys', s.clients[i := c']);
    mid := s;
    if c' == c && Elsewhere(repo, s.keys, keys') {
      assert s'.clients == s.clients;
    } else {
      var d :| (d == c || Moves(repo, c, s.keys, d, s.keys)) && Moves(repo, d, s.keys, c', keys');
      if d != c {
        mid := State(s.keys, s.clients[i := d]);
        assert Steps(repo, i, s, mid);
      }
      assert Steps(repo, i, mid, s');
    }
  }

  /**
   * What safety needs of the lock at every step, crashes and leaks included: nobody deletes,
   * as stale, the lock of a client that is still in its critical section.
   */
  ghost predicate LockHonoured(repo: Repo, s: State, s': State) {
    forall i, j :: i in s.clients && j in s.clients && TakesOver(s, s', i)
                   ==> !InCriticalSection(s.clients[j], s.clients[i].ref)
  }

  predicate TakesOver(s: State, s': State, i: ClientId) {
    && i in s.clients && i in s'.clients && s.clients[i].Busy? && s.clients[i].phase.Recovering?
    && s'.clients[i] != s.clients[i] && s'.keys != s.keys
  }

  // ---------------------------------------------------------------
  // The property and the invariant behind it.
  // ---------------------------------------------------------------

  /** A marker under a ref has branch data beside it. */
  predicate MarkerHasData(repo: Repo, keys: set<string>, ref: string) {
    repo.Marker(ref) in keys ==> repo.HasData(keys, ref)
  }

  ghost predicate MarkersHaveData(repo: Repo, keys: set<string>) {
    forall ref :: ref in repo.refs ==> MarkerHasData(repo, keys, ref)
  }

  ghost predicate Sweepable(repo: Repo, ref: string, rest: set<string>) {
    forall k :: k in rest ==> StartsWith(k, repo.Dir(ref)) && k != repo.Lock(ref)
  }

  /** A holder's lock is on the bucket, and what it decided from its listing still holds. */
  ghost predicate ClientIsRight(repo: Repo, keys: set<string>, c: Client) {
    c.Busy? ==>
      && c.ref in repo.refs
      && (InCriticalSection(c, c.ref) ==> repo.Lock(c.ref) in keys)
      && (c.phase.Sweeping? ==> repo.Marker(c.ref) !in keys && Sweepable(repo, c.ref, c.phase.rest))
      && (c.phase.Marking? ==> repo.HasData(keys, c.ref))
      && (c.phase.Replacing? ==> c.phase.added in repo.Listing(keys, c.ref) && CarriesData(c.phase.added))
  }

  /** Nobody but client i is in the critical section of the ref. */
  ghost predicate NobodyElse(clients: map<ClientId, Client>, ref: string, i: ClientId) {
    forall j :: j in clients && j != i ==> !InCriticalSection(clients[j], ref)
  }

  ghost predicate OneHolder(clients: map<ClientId, Client>) {
    forall i, ref :: i in clients && InCriticalSection(clients[i], ref) ==> NobodyElse(clients, ref, i)
  }

  ghost predicate Inv(repo: Repo, s: State) {
    && MarkersHaveData(repo, s.keys)
    && (forall i :: i in s.clients ==> ClientIsRight(repo, s.keys, s.clients[i]))
    && OneHolder(s.clients)
  }

  // ---------------------------------------------------------------
  // Every step keeps the invariant.
  // ---------------------------------------------------------------

  ghost predicate ChangesOnly(keys: set<string>, keys': set<string>, k: string) {
    keys' == keys || keys' == keys + {k} || keys' == keys - {k}
  }

  /** A turn touches at most one key, under the client's own ref. */
  lemma TurnIsLocal(repo: Repo, c: Client, keys: set<string>, c': Client, keys': set<string>) returns (k: string)
    requires c.Busy? && ClientIsRight(repo, keys, c) && Turn(repo, c, keys, c', keys')
    ensures StartsWith(k, repo.Dir(c.ref)) && ChangesOnly(keys, keys', k)
  {
    LockKeyIsLock(repo.prefix, c.ref);
    MarkerKeyIsMarker(repo.prefix, c.ref);
    k := repo.Lock(c.ref);
    match c.phase
    case Working =>
      match c.op {
        case Unprotect => k := repo.Marker(c.ref);
        case Push =>
          if keys' != keys {
            k :| StartsWith(k, repo.Dir(c.ref)) && CarriesData(k) && keys' == keys + {k};
          }
        case _ =>
      }
    case Sweeping(rest) =>
      if keys' != keys {
        k :| k in rest && keys' == keys - {k};
      }
    case Marking => k := repo.Marker(c.ref);
    case Replacing(added) =>
      if keys' != keys {
        k :| StartsWith(k, repo.Dir(c.ref)) && (keys' == keys + {k} || keys' == keys - {k});
      }
    case _ =>
  }

  /** A key under one ref is listed under no other. */
  lemma OtherListingsAgree(repo: Repo, keys: set<string>, keys': set<string>, k: string, ref: string, other: string)
    requires repo.NoNestedRefs() && ref in repo.refs && other in repo.refs && ref != other
    requires StartsWith(k, repo.Dir(ref)) && ChangesOnly(keys, keys', k)
    ensures repo.Listing(keys', other) == repo.Listing(keys, other)
  {
    if StartsWith(k, repo.Dir(other)) {
      PrefixesOfOneKey(k, repo.Dir(ref), repo.Dir(other));
    }
  }

  lemma PrefixesOfOneKey(k: string, p: string, q: string)
    requires StartsWith(k, p) && StartsWith(k, q)
    ensures StartsWith(p, q) || StartsWith(q, p)
  {
    assert p == k[..|p|] && q == k[..|q|];
    assert |p| <= |q| ==> p == q[..|p|];
    assert |q| <= |p| ==> q == p[..|q|];
  }

  /** What is right about a ref depends on its own listing only. */
  lemma ListingDecides(repo: Repo, keys: set<string>, keys': set<string>, ref: string)
    requires repo.Listing(keys', ref) == repo.Listing(keys, ref)
    ensures MarkerHasData(repo, keys, ref) ==> MarkerHasData(repo, keys', ref)
    ensures forall c: Client :: c.Busy? && c.ref == ref && ClientIsRight(repo, keys, c) ==>
              ClientIsRight(repo, keys', c)
  {
    LockKeyIsLock(repo.prefix, ref);
    MarkerKeyIsMarker(repo.prefix, ref);
    assert forall ks: set<string>, k :: StartsWith(k, repo.Dir(ref)) ==> (k in ks <==> k in repo.Listing(ks, ref));
    assert repo.Lock(ref) in keys <==> repo.Lock(ref) in keys';
    assert repo.Marker(ref) in keys <==> repo.Marker(ref) in keys';
  }

  /** A lock key coming or going changes no data and no marker. */
  lemma LockIsNoData(repo: Repo, keys: set<string>, keys': set<string>, ref: string)
    requires ChangesOnly(keys, keys', repo.Lock(ref))
    ensures repo.HasData(keys', ref) == repo.HasData(keys, ref)
    ensures MarkerHasData(repo, keys', ref) == MarkerHasData(repo, keys, ref)
    ensures repo.Marker(ref) in keys' <==> repo.Marker(ref) in keys
  {
    LockKeyIsLock(repo.prefix, ref);
    MarkerKeyIsMarker(repo.prefix, ref);
    assert forall k :: k in repo.Listing(keys', ref) && CarriesData(k) <==>
             k in repo.Listing(keys, ref) && CarriesData(k);
  }

  /** On its own ref, a client leaves the marker with data and itself right. */
  lemma TurnIsRight(repo: Repo, c: Client, keys: set<string>, c': Client, keys': set<string>)
    requires c.Busy? && ClientIsRight(repo, keys, c) && MarkerHasData(repo, keys, c.ref)
    requires Turn(repo, c, keys, c', keys')
    ensures c' == Idle || (c'.Busy? && c'.ref == c.ref)
    ensures ClientIsRight(repo, keys', c') && MarkerHasData(repo, keys', c.ref)
  {
    LockKeyIsLock(repo.prefix, c.ref);
    MarkerKeyIsMarker(repo.prefix, c.ref);
    match c.phase
    case Acquiring => LockIsNoData(repo, keys, keys', c.ref);
    case Examining =>
    case Recovering => LockIsNoData(repo, keys, keys', c.ref);
    case Retrying => LockIsNoData(repo, keys, keys', c.ref);
    case Working => WorkIsRight(repo, c, keys, c', keys');
    case Sweeping(rest) =>
    case Marking =>
      assert forall k :: k in repo.Listing(keys, c.ref) ==> k in repo.Listing(keys', c.ref);
    case Replacing(added) =>
      assert added in repo.Listing(keys', c.ref);
    case Releasing => LockIsNoData(repo, keys, keys', c.ref);
  }

  lemma WorkIsRight(repo: Repo, c: Client, keys: set<string>, c': Client, keys': set<string>)
    requires c.Busy? && c.phase.Working? && ClientIsRight(repo, keys, c) && MarkerHasData(repo, keys, c.ref)
    requires Turn(repo, c, keys, c', keys')
    ensures c'.Busy? && c'.ref == c.ref
    ensures ClientIsRight(repo, keys', c') && MarkerHasData(repo, keys', c.ref)
  {
    if WorkTurn(repo, c.op, c.ref, keys, c', keys') {
      match c.op
      case DeleteBranch => ListingIsRight(repo, c, keys, c', keys');
      case Protect =>
      case Unprotect => UnprotectIsRight(repo, c, keys, keys');
      case Push => PushIsRight(repo, c, keys, c', keys');
    }
  }

  lemma ListingIsRight(repo: Repo, c: Client, keys: set<string>, c': Client, keys': set<string>)
    requires c.Busy? && c.op.DeleteBranch? && WorkTurn(repo, c.op, c.ref, keys, c', keys')
    ensures repo.Marker(c.ref) !in keys && Sweepable(repo, c.ref, c'.phase.rest)
  {
    LockKeyIsLock(repo.prefix, c.ref);
    MarkerKeyIsMarker(repo.prefix, c.ref);
    var listed := repo.Listing(keys, c.ref) - {repo.Lock(c.ref)};
    assert forall k :: k in keys && StartsWith(k, repo.Dir(c.ref)) && k != repo.Lock(c.ref) ==> k in listed;
  }

  lemma UnprotectIsRight(repo: Repo, c: Client, keys: set<string>, keys': set<string>)
    requires c.Busy? && repo.Lock(c.ref) in keys && (keys' == keys || keys' == keys - {repo.Marker(c.ref)})
    requires MarkerHasData(repo, keys, c.ref)
    ensures repo.Lock(c.ref) in keys' && MarkerHasData(repo, keys', c.ref)
  {
    LockKeyIsLock(repo.prefix, c.ref);
    MarkerKeyIsMarker(repo.prefix, c.ref);
  }

  lemma PushIsRight(repo: Repo, c: Client, keys: set<string>, c': Client, keys': set<string>)
    requires c.Busy? && c.op.Push? && c.ref in repo.refs && repo.Lock(c.ref) in keys
               && WorkTurn(repo, c.op, c.ref, keys, c', keys')
    ensures c'.Busy? && c'.ref == c.ref && ClientIsRight(repo, keys', c') && MarkerHasData(repo, keys', c.ref)
  {
    var k :| StartsWith(k, repo.Dir(c.ref)) && CarriesData(k) && keys' == keys + {k}
             && (c' == Busy(c.op, c.ref, Replacing(k)) || c' == Busy(c.op, c.ref, Releasing));
    assert k in repo.Listing(keys', c.ref);
  }

  /** A client that changes the bucket is alone in its ref's critical section. */
  lemma WritersAreAlone(repo: Repo, i: ClientId, s: State, s': State)
    requires Inv(repo, s) && Steps(repo, i, s, s') && LockHonoured(repo, s, s')
    requires s.clients[i].Busy?
    requires s'.keys != s.keys || (s'.clients[i].Busy? && InCriticalSection(s'.clients[i], s.clients[i].ref))
    ensures NobodyElse(s.clients, s.clients[i].ref, i)
  {
    var c := s.clients[i];
    forall j | j in s.clients && j != i ensures !InCriticalSection(s.clients[j], c.ref) {
      if InCriticalSection(s.clients[j], c.ref) {
        assert ClientIsRight(repo, s.keys, s.clients[j]) && repo.Lock(c.ref) in s.keys;
        assert NobodyElse(s.clients, c.ref, j);
        assert !InCriticalSection(c, c.ref);
        assert c.phase.Recovering?;
        assert TakesOver(s, s', i);
      }
    }
  }

  lemma StepKeepsInv(repo: Repo, i: ClientId, s: State, s': State)
    requires Inv(repo, s) && Steps(repo, i, s, s') && LockHonoured(repo, s, s') && repo.NoNestedRefs()
    ensures Inv(repo, s')
  {
    var c, c' := s.clients[i], s'.clients[i];
    assert ClientIsRight(repo, s.keys, c);
    if c.Idle? || (c' == Idle && s'.keys == s.keys) {
      assert s'.keys == s.keys && ClientIsRight(repo, s.keys, c');
    } else {
      assert MarkerHasData(repo, s.keys, c.ref);
      TurnIsRight(repo, c, s.keys, c', s'.keys);
      var k := TurnIsLocal(repo, c, s.keys, c', s'.keys);
      if s'.keys != s.keys || (c'.Busy? && InCriticalSection(c', c.ref)) {
        WritersAreAlone(repo, i, s, s');
      }
      forall ref | ref in repo.refs ensures MarkerHasData(repo, s'.keys, ref) {
        if ref != c.ref {
          OtherListingsAgree(repo, s.keys, s'.keys, k, c.ref, ref);
          ListingDecides(repo, s.keys, s'.keys, ref);
        }
      }
      forall j | j in s.clients && j != i ensures ClientIsRight(repo, s'.keys, s.clients[j]) {
        var d := s.clients[j];
        assert ClientIsRight(repo, s.keys, d);
        if d.Busy? && d.ref != c.ref {
          OtherListingsAgree(repo, s.keys, s'.keys, k, c.ref, d.ref);
          ListingDecides(repo, s.keys, s'.keys, d.ref);
        }
      }
    }
    forall j, ref | j in s'.clients && InCriticalSection(s'.clients[j], ref)
      ensures NobodyElse(s'.clients, ref, j)
    {
      if j != i {
        assert NobodyElse(s.clients, ref, j);
        assert !InCriticalSection(c', ref);
      }
    }
  }

  /** Writes that no ref's listing shows keep the invariant. */
  lemma ElsewhereKeepsInv(repo: Repo, s: State, s': State)
    requires Inv(repo, s) && s'.clients == s.clients && Elsewhere(repo, s.keys, s'.keys)
    ensures Inv(repo, s')
  {
    forall ref | ref in repo.refs
      ensures MarkerHasData(repo, s'.keys, ref)
      ensures forall c: Client :: c.Busy? && c.ref == ref && ClientIsRight(repo, s.keys, c) ==>
                ClientIsRight(repo, s'.keys, c)
    {
      ListingDecides(repo, s.keys, s'.keys, ref);
      assert MarkerHasData(repo, s.keys, ref);
    }
    forall i | i in s.clients ensures ClientIsRight(repo, s'.keys, s.clients[i]) {
      assert ClientIsRight(repo, s.keys, s.clients[i]);
    }
  }

  lemma HeartbeatKeepsInv(repo: Repo, s: State, s': State)
    requires Inv(repo, s) && Heartbeat(repo, s, s') && repo.NoNestedRefs()
    ensures Inv(repo, s')
  {
    var r :| r in repo.refs && s'.keys == s.keys + {repo.Lock(r)};
    LockKeyIsLock(repo.prefix, r);
    forall ref | ref in repo.refs
      ensures MarkerHasData(repo, s'.keys, ref)
      ensures forall c: Client :: c.Busy? && c.ref == ref && ClientIsRight(repo, s.keys, c) ==>
                ClientIsRight(repo, s'.keys, c)
    {
      if ref != r {
        OtherListingsAgree(repo, s.keys, s'.keys, repo.Lock(r), r, ref);
        ListingDecides(repo, s.keys, s'.keys, ref);
      } else {
        LockIsNoData(repo, s.keys, s'.keys, r);
      }
      assert MarkerHasData(repo, s.keys, ref);
    }
    forall i | i in s.clients ensures ClientIsRight(repo, s'.keys, s.clients[i]) {
      assert ClientIsRight(repo, s.keys, s.clients[i]);
    }
  }

  // ---------------------------------------------------------------
  // Runs.
  // ---------------------------------------------------------------

  /** Nobody has started; locks may have been left behind. */
  ghost predicate Start(repo: Repo, s: State) {
    MarkersHaveData(repo, s.keys) && forall i :: i in s.clients ==> s.clients[i].Idle?
  }

  /** Each state follows from the one before. */
  ghost predicate Linked(repo: Repo, run: seq<State>) {
    run != [] && forall n: nat {:trigger NextAt(repo, run, n)} :: n + 1 < |run| ==> NextAt(repo, run, n)
  }

  ghost predicate NextAt(repo: Repo, run: seq<State>, n: nat)
    requires n + 1 < |run|
  {
    Next(repo, run[n], run[n + 1])
  }

  ghost predicate IsRun(repo: Repo, run: seq<State>) {
    Linked(repo, run) && Start(repo, run[0])
  }

  ghost predicate LocksHonoured(repo: Repo, run: seq<State>) {
    forall n: nat {:trigger HonouredAt(repo, run, n)} :: n + 1 < |run| ==> HonouredAt(repo, run, n)
  }

  ghost predicate HonouredAt(repo: Repo, run: seq<State>, n: nat)
    requires n + 1 < |run|
  {
    LockHonoured(repo, run[n], run[n + 1])
  }

  /**
   * In every state of every interleaving, a protected ref has branch data and no ref has two
   * clients in its critical section.
   */
  lemma {:induction false} ProtectedRefsHaveData(repo: Repo, run: seq<State>, n: nat)
    requires IsRun(repo, run) && LocksHonoured(repo, run) && repo.NoNestedRefs() && n < |run|
    ensures MarkersHaveData(repo, run[n].keys)
    ensures OneHolder(run[n].clients)
    ensures Inv(repo, run[n])
  {
    if n > 0 {
      ProtectedRefsHaveData(repo, run, n - 1);
      var s, s' := run[n - 1], run[n];
      assert NextAt(repo, run, n - 1) && HonouredAt(repo, run, n - 1);
      NextKeepsInv(repo, s, s');
    }
  }

  lemma NextKeepsInv(repo: Repo, s: State, s': State)
    requires Inv(repo, s) && Next(repo, s, s') && LockHonoured(repo, s, s') && repo.NoNestedRefs()
    ensures Inv(repo, s')
  {
    if Heartbeat(repo, s, s') {
      HeartbeatKeepsInv(repo, s, s');
    } else if s'.clients == s.clients && Elsewhere(repo, s.keys, s'.keys) {
      ElsewhereKeepsInv(repo, s, s');
    } else {
      var i :| Steps(repo, i, s, s');
      StepKeepsInv(repo, i, s, s');
    }
  }

  // ---------------------------------------------------------------
  // When heartbeats and releases work, and nothing leaks.
  // ---------------------------------------------------------------

  predicate Held(clients: map<ClientId, Client>, ref: string) {
    exists i :: i in clients && InCriticalSection(clients[i], ref)
  }

  /** A lock key that is nobody's: left by a crash, a failed release or a late heartbeat. */
  predicate Orphaned(repo: Repo, s: State, ref: string) {
    repo.Lock(ref) in s.keys && !Held(s.clients, ref)
  }

  /**
   * A held lock is never read as stale, because its holder heartbeats it; and no lock is
   * orphaned in this step.
   */
  ghost predicate Timely(repo: Repo, s: State, s': State) {
    && (forall i :: i in s.clients && i in s'.clients && IsRecovering(s'.clients[i]) && !IsRecovering(s.clients[i])
                    ==> !Held(s.clients, s'.clients[i].ref))
    && (forall ref :: ref in repo.refs && Orphaned(repo, s', ref) ==> Orphaned(repo, s, ref))
  }

  ghost predicate TimelyRun(repo: Repo, run: seq<State>) {
    forall n: nat {:trigger TimelyAt(repo, run, n)} :: n + 1 < |run| ==> TimelyAt(repo, run, n)
  }

  ghost predicate TimelyAt(repo: Repo, run: seq<State>, n: nat)
    requires n + 1 < |run|
  {
    Timely(repo, run[n], run[n + 1])
  }

  /** No ref's lock key is on the bucket. */
  ghost predicate Unlocked(repo: Repo, keys: set<string>) {
    forall ref :: ref in repo.refs ==> repo.Lock(ref) !in keys
  }

  ghost predicate NothingOrphaned(repo: Repo, s: State) {
    forall ref :: ref in repo.refs ==> !Orphaned(repo, s, ref)
  }

  /** With nothing orphaned, every lock found is held, so nobody gets to recover one. */
  lemma NobodyStartsRecovering(repo: Repo, s: State, s': State)
    requires Inv(repo, s) && NobodyRecovers(s) && NothingOrphaned(repo, s) && Next(repo, s, s') && Timely(repo, s, s')
    ensures NobodyRecovers(s') && NothingOrphaned(repo, s')
  {
    forall j | j in s'.clients ensures !IsRecovering(s'.clients[j]) {
      assert j in s.clients && ClientIsRight(repo, s.keys, s.clients[j]);
    }
  }

  /** From an unlocked bucket a timely run never recovers a lock. */
  lemma {:induction false} TimelyRunsAreSafe(repo: Repo, run: seq<State>, n: nat)
    requires IsRun(repo, run) && TimelyRun(repo, run) && Unlocked(repo, run[0].keys) && repo.NoNestedRefs() && n < |run|
    ensures Inv(repo, run[n]) && NobodyRecovers(run[n]) && NothingOrphaned(repo, run[n])
  {
    if n > 0 {
      TimelyRunsAreSafe(repo, run, n - 1);
      var s, s' := run[n - 1], run[n];
      assert NextAt(repo, run, n - 1) && TimelyAt(repo, run, n - 1);
      NobodyStartsRecovering(repo, s, s');
      assert LockHonoured(repo, s, s');
      NextKeepsInv(repo, s, s');
    }
  }

  // ---------------------------------------------------------------
  // The assumptions are needed.
  // ---------------------------------------------------------------

  /** A bucket with two clients. */
  function Two(keys: set<string>, c: Client, d: Client): State {
    State(keys, map[0 := c, 1 := d])
  }

  /** A run being built, timely so far. */
  ghost predicate Goes(repo: Repo, run: seq<State>) {
    Linked(repo, run) && TimelyRun(repo, run)
  }

  ghost predicate NobodyRecovers(s: State) {
    forall i :: i in s.clients ==> !IsRecovering(s.clients[i])
  }

  predicate IsRecovering(c: Client) {
    c.Busy? && c.phase.Recovering?
  }

  /** Locks written are the client's own, locks left are deleted, and none is recovered from a holder. */
  ghost predicate TimelyMove(repo: Repo, s: State, c: Client, c': Client, keys': set<string>) {
    && (IsRecovering(c') && !IsRecovering(c) ==> !Held(s.clients, c'.ref))
    && forall ref :: ref in repo.refs && repo.Lock(ref) in keys' ==>
         && (repo.Lock(ref) in s.keys || InCriticalSection(c', ref))
         && (InCriticalSection(c, ref) ==> InCriticalSection(c', ref))
  }

  lemma TimelyMoveIsTimely(repo: Repo, s: State, i: ClientId, c': Client, keys': set<string>)
    requires i in s.clients && TimelyMove(repo, s, s.clients[i], c', keys')
    ensures Timely(repo, s, State(keys', s.clients[i := c']))
  {
    var s' := State(keys', s.clients[i := c']);
    forall ref | ref in repo.refs && Orphaned(repo, s', ref) ensures Orphaned(repo, s, ref) {
      assert !InCriticalSection(s'.clients[i], ref);
      forall k | k in s.clients ensures !InCriticalSection(s.clients[k], ref) {
        assert k != i ==> s'.clients[k] == s.clients[k];
      }
    }
  }

  /** Work inside the critical section is timely when it writes no lock. */
  lemma WorkIsTimely(repo: Repo, s: State, c: Client, c': Client, keys': set<string>)
    requires c.Busy? && InCriticalSection(c, c.ref) && c'.Busy? && InCriticalSection(c', c.ref)
    requires forall k :: k in keys' && k !in s.keys ==> !IsLockKey(k)
    ensures TimelyMove(repo, s, c, c', keys')
  {
    forall ref | repo.Lock(ref) in keys' ensures repo.Lock(ref) in s.keys {
      LockKeyIsLock(repo.prefix, ref);
    }
  }

  /** Taking the lock is timely, and so is deleting it. */
  lemma LockingIsTimely(repo: Repo, s: State, c: Client, c': Client, keys': set<string>)
    requires c.Busy? && c'.Busy? && c'.ref == c.ref && !InCriticalSection(c, c.ref) && !IsRecovering(c')
    requires keys' == s.keys - {repo.Lock(c.ref)}
               || (keys' == s.keys + {repo.Lock(c.ref)} && InCriticalSection(c', c.ref))
    ensures TimelyMove(repo, s, c, c', keys')
  {
    forall ref | repo.Lock(ref) in keys' && ref != c.ref ensures repo.Lock(ref) in s.keys {
      DirsDiffer(repo, ref, c.ref);
    }
  }

  /** One more turn of client i. */
  lemma Move(repo: Repo, run: seq<State>, i: ClientId, keys': set<string>, c': Client) returns (run': seq<State>)
    requires Goes(repo, run) && i in run[|run| - 1].clients
    requires Turn(repo, run[|run| - 1].clients[i], run[|run| - 1].keys, c', keys')
    requires TimelyMove(repo, run[|run| - 1], run[|run| - 1].clients[i], c', keys')
    ensures run' == run + [State(keys', run[|run| - 1].clients[i := c'])] && Goes(repo, run')
  {
    var s := run[|run| - 1];
    var s' := State(keys', s.clients[i := c']);
    assert Steps(repo, i, s, s');
    TimelyMoveIsTimely(repo, s, i, c', keys');
    run' := run + [s'];
    forall n: nat | n + 1 < |run'| ensures NextAt(repo, run', n) && TimelyAt(repo, run', n) {
      if n + 1 < |run| {
        assert NextAt(repo, run, n) && TimelyAt(repo, run, n);
      }
    }
  }

  /** Clients i and j as given, the others as they were. */
  function Pair(s: State, keys: set<string>, i: ClientId, c: Client, j: ClientId, d: Client): State {
    State(keys, s.clients[i := c][j := d])
  }

  /** The next turn of one of the pair. */
  lemma MovePair(repo: Repo, s: State, run: seq<State>, keys: set<string>, i: ClientId, c: Client, j: ClientId,
                 d: Client, first: bool, keys': set<string>, e: Client) returns (run': seq<State>)
    requires i in s.clients && j in s.clients && i != j
    requires Goes(repo, run) && run[|run| - 1] == Pair(s, keys, i, c, j, d)
    requires Turn(repo, if first then c else d, keys, e, keys')
    requires TimelyMove(repo, Pair(s, keys, i, c, j, d), if first then c else d, e, keys')
    ensures Goes(repo, run') && run'[0] == run[0]
    ensures run'[|run'| - 1] == if first then Pair(s, keys', i, e, j, d) else Pair(s, keys', i, c, j, e)
  {
    run' := Move(repo, run, if first then i else j, keys', e);
    assert s.clients[i := c][j := d][i := e] == s.clients[i := e][j := d];
    assert s.clients[i := c][j := d][j := e] == s.clients[i := c][j := e];
  }

  /** Nobody else is at work on the ref, so while neither of the pair holds its lock nobody does. */
  lemma PairHolds(repo: Repo, s: State, keys: set<string>, i: ClientId, c: Client, j: ClientId, d: Client, ref: string)
    requires Start(repo, s) && i in s.clients && j in s.clients && i != j
    ensures Held(Pair(s, keys, i, c, j, d).clients, ref) <==> InCriticalSection(c, ref) || InCriticalSection(d, ref)
  {
    var clients := Pair(s, keys, i, c, j, d).clients;
    assert clients[i] == c && clients[j] == d;
  }

  /** Both clients find the lock that was left behind, and both read it as stale. */
  lemma BothFindItStale(repo: Repo, s: State, i: ClientId, j: ClientId, ref: string, op: Op, op': Op)
    returns (run: seq<State>)
    requires Start(repo, s) && i in s.clients && j in s.clients && i != j && ref in repo.refs
               && repo.Lock(ref) in s.keys
    ensures Goes(repo, run) && run[0] == s
    ensures run[|run| - 1] == Pair(s, s.keys, i, Busy(op, ref, Recovering), j, Busy(op', ref, Recovering))
  {
    var keys, c, d := s.keys, Idle, Idle;
    run := [s];
    assert s == Pair(s, keys, i, c, j, d);
    for n := 0 to 3
      invariant Goes(repo, run) && run[0] == s
      invariant c == [Idle, Busy(op, ref, Acquiring), Busy(op, ref, Examining), Busy(op, ref, Recovering)][n]
      invariant run[|run| - 1] == Pair(s, keys, i, c, j, d)
    {
      PairHolds(repo, s, keys, i, c, j, d, ref);
      var e := Busy(op, ref, [Acquiring, Examining, Recovering][n]);
      run := MovePair(repo, s, run, keys, i, c, j, d, true, keys, e);
      c := e;
    }
    for n := 0 to 3
      invariant Goes(repo, run) && run[0] == s
      invariant d == [Idle, Busy(op', ref, Acquiring), Busy(op', ref, Examining), Busy(op', ref, Recovering)][n]
      invariant run[|run| - 1] == Pair(s, keys, i, c, j, d)
    {
      PairHolds(repo, s, keys, i, c, j, d, ref);
      var e := Busy(op', ref, [Acquiring, Examining, Recovering][n]);
      run := MovePair(repo, s, run, keys, i, c, j, d, false, keys, e);
      d := e;
    }
  }

  /** The second deletes, as stale, the lock the first has just taken: now both hold it. */
  lemma BothTakeTheLock(repo: Repo, s: State, i: ClientId, j: ClientId, ref: string, op: Op, op': Op)
    returns (run: seq<State>)
    requires Start(repo, s) && i in s.clients && j in s.clients && i != j && ref in repo.refs
               && repo.Lock(ref) in s.keys
    ensures IsRun(repo, run) && TimelyRun(repo, run) && run[0] == s
    ensures run[|run| - 1] == Pair(s, s.keys, i, Busy(op, ref, Working), j, Busy(op', ref, Working))
    ensures !OneHolder(run[|run| - 1].clients)
  {
    var lock := repo.Lock(ref);
    var without := s.keys - {lock};
    assert without + {lock} == s.keys;
    var recovering, retrying, working := Busy(op, ref, Recovering), Busy(op, ref, Retrying), Busy(op, ref, Working);
    var recovering', retrying', working' := Busy(op', ref, Recovering), Busy(op', ref, Retrying),
        Busy(op', ref, Working);
    run := BothFindItStale(repo, s, i, j, ref, op, op');
    LockingIsTimely(repo, Pair(s, s.keys, i, recovering, j, recovering'), recovering, retrying, without);
    run := MovePair(repo, s, run, s.keys, i, recovering, j, recovering', true, without, retrying);
    LockingIsTimely(repo, Pair(s, without, i, retrying, j, recovering'), retrying, working, s.keys);
    run := MovePair(repo, s, run, without, i, retrying, j, recovering', true, s.keys, working);
    LockingIsTimely(repo, Pair(s, s.keys, i, working, j, recovering'), recovering', retrying', without);
    run := MovePair(repo, s, run, s.keys, i, working, j, recovering', false, without, retrying');
    LockingIsTimely(repo, Pair(s, without, i, working, j, retrying'), retrying', working', s.keys);
    run := MovePair(repo, s, run, without, i, working, j, retrying', false, s.keys, working');
    TwoHolders(run[|run| - 1].clients, i, j, ref);
  }

  lemma TwoHolders(clients: map<ClientId, Client>, i: ClientId, j: ClientId, ref: string)
    requires i in clients && j in clients && i != j
    requires InCriticalSection(clients[i], ref) && InCriticalSection(clients[j], ref)
    ensures !OneHolder(clients)
  {
    assert !NobodyElse(clients, ref, i);
  }

  /**
   * The lock excludes exactly when it starts free: from any bucket, with any two clients or
   * more, every timely run keeps each lock to one holder if and only if no ref's lock key is
   * there at the start. One that is there can be recovered by two clients at once.
   */
  lemma ExclusiveIffUnlocked(repo: Repo, s: State, i: ClientId, j: ClientId)
    requires repo.NoNestedRefs() && Start(repo, s) && i in s.clients && j in s.clients && i != j
    ensures Unlocked(repo, s.keys) <==>
              forall run: seq<State>, n :: IsRun(repo, run) && TimelyRun(repo, run) && run[0] == s && 0 <= n < |run|
                                           ==> OneHolder(run[n].clients)
  {
    if Unlocked(repo, s.keys) {
      forall run: seq<State>, n | IsRun(repo, run) && TimelyRun(repo, run) && run[0] == s && 0 <= n < |run|
        ensures OneHolder(run[n].clients)
      {
        TimelyRunsAreSafe(repo, run, n);
      }
    } else {
      var ref :| ref in repo.refs && repo.Lock(ref) in s.keys;
      var run := BothTakeTheLock(repo, s, i, j, ref, Protect, Protect);
    }
  }

  /**
   * Two holders undo what the lock is for: with one data key and a lock left behind, a timely
   * run of two clients ends with a marker and no data.
   */
  lemma LateRecoveryLosesData(repo: Repo, ref: string, d: string) returns (run: seq<State>)
    requires repo.refs == {ref} && CarriesData(d) && StartsWith(d, repo.Dir(ref))
    ensures IsRun(repo, run) && TimelyRun(repo, run) && repo.NoNestedRefs()
    ensures run[0] == Two({d, repo.Lock(ref)}, Idle, Idle)
    ensures !MarkersHaveData(repo, run[|run| - 1].keys)
  {
    var s := Two({d, repo.Lock(ref)}, Idle, Idle);
    MarkersOf(repo, s.keys, d, ref);
    run := BothTakeTheLock(repo, s, 0, 1, ref, Protect, DeleteBranch);
    assert run[|run| - 1] == Two(s.keys, Busy(Protect, ref, Working), Busy(DeleteBranch, ref, Working));
    LockKeyIsLock(repo.prefix, ref);
    run := Decide(repo, run, ref, ref, {repo.Lock(ref)}, d);
    run := MarkThenSweep(repo, run, ref, {repo.Lock(ref)}, d);
    NoDataLeft(repo, {repo.Lock(ref)}, ref);
  }

  /** With locks and one marker left, the marker has no data. */
  lemma NoDataLeft(repo: Repo, locks: set<string>, ref: string)
    requires forall k :: k in locks ==> !CarriesData(k)
    ensures !MarkerHasData(repo, locks + {repo.Marker(ref)}, ref)
  {
    MarkerKeyIsMarker(repo.prefix, ref);
  }

  /** Locks and one data key are a start: there is no marker to speak for. */
  lemma MarkersOf(repo: Repo, keys: set<string>, d: string, ref: string)
    requires CarriesData(d) && keys <= {d, repo.Lock(ref)}
    ensures MarkersHaveData(repo, keys)
  {
    LockKeyIsLock(repo.prefix, ref);
    forall q | q in repo.refs ensures MarkerHasData(repo, keys, q) {
      MarkerKeyIsMarker(repo.prefix, q);
    }
  }

  /** One more turn of client i inside its critical section. */
  lemma Work(repo: Repo, run: seq<State>, i: ClientId, keys': set<string>, c': Client) returns (run': seq<State>)
    requires Goes(repo, run) && i in run[|run| - 1].clients
    requires Turn(repo, run[|run| - 1].clients[i], run[|run| - 1].keys, c', keys')
    requires var c := run[|run| - 1].clients[i];
             c.Busy? && InCriticalSection(c, c.ref) && c'.Busy? && InCriticalSection(c', c.ref)
    requires forall k :: k in keys' && k !in run[|run| - 1].keys ==> !IsLockKey(k)
    ensures run' == run + [State(keys', run[|run| - 1].clients[i := c'])]
    ensures Goes(repo, run')
  {
    WorkIsTimely(repo, run[|run| - 1], run[|run| - 1].clients[i], c', keys');
    run' := Move(repo, run, i, keys', c');
  }

  /** The protect sees data to protect, the delete-branch sees the data and no marker. */
  lemma Decide(repo: Repo, run: seq<State>, inner: string, outer: string, locks: set<string>, d: string)
    returns (run': seq<State>)
    requires Goes(repo, run) && CarriesData(d) && repo.Lock(outer) in locks
    requires StartsWith(d, repo.Dir(inner)) && StartsWith(d, repo.Dir(outer))
    requires run[|run| - 1] == Two(locks + {d}, Busy(Protect, inner, Working), Busy(DeleteBranch, outer, Working))
    requires forall k :: k in locks ==> !CarriesData(k) && !IsMarkerKey(k)
    ensures |run| < |run'| && run'[..|run|] == run && Goes(repo, run')
    ensures run'[|run'| - 1]
              == Two(locks + {d}, Busy(Protect, inner, Marking), Busy(DeleteBranch, outer, Sweeping({d})))
  {
    var keys := locks + {d};
    SeesData(repo, keys, inner, d);
    run' := WorkOfTwo(repo, run, keys, Busy(Protect, inner, Working), Busy(DeleteBranch, outer, Working), true,
                      Busy(Protect, inner, Marking));
    ListsOneKey(repo, keys, outer, d);
    run' := WorkOfTwo(repo, run', keys, Busy(Protect, inner, Marking), Busy(DeleteBranch, outer, Working), false,
                      Busy(DeleteBranch, outer, Sweeping({d})));
  }

  /** One of the two decides what to do, from what it lists. */
  lemma WorkOfTwo(repo: Repo, run: seq<State>, keys: set<string>, c: Client, d: Client, first: bool, e: Client)
    returns (run': seq<State>)
    requires Goes(repo, run) && run[|run| - 1] == Two(keys, c, d)
    requires var b := if first then c else d;
             && b.Busy? && InCriticalSection(b, b.ref) && e.Busy? && InCriticalSection(e, e.ref)
             && Turn(repo, b, keys, e, keys)
    ensures |run| < |run'| && run'[..|run|] == run && Goes(repo, run')
    ensures run'[|run'| - 1] == if first then Two(keys, e, d) else Two(keys, c, e)
  {
    run' := Work(repo, run, if first then 0 else 1, keys, e);
  }

  lemma SeesData(repo: Repo, keys: set<string>, ref: string, d: string)
    requires d in keys && CarriesData(d) && StartsWith(d, repo.Dir(ref))
    ensures Turn(repo, Busy(Protect, ref, Working), keys, Busy(Protect, ref, Marking), keys)
  {
    assert d in repo.Listing(keys, ref);
  }

  lemma ListsOneKey(repo: Repo, keys: set<string>, ref: string, d: string)
    requires d in keys && CarriesData(d) && StartsWith(d, repo.Dir(ref))
    requires forall k :: k in keys && k != d ==> !IsMarkerKey(k)
    ensures Turn(repo, Busy(DeleteBranch, ref, Working), keys, Busy(DeleteBranch, ref, Sweeping({d})), keys)
  {
    LockKeyIsLock(repo.prefix, ref);
  }

  /** The last two requests: the marker is written, then the one data key is deleted. */
  lemma MarkThenSweep(repo: Repo, run: seq<State>, ref: string, locks: set<string>, d: string)
    returns (run': seq<State>)
    requires Goes(repo, run) && CarriesData(d) && d !in locks
    requires run[|run| - 1].keys == locks + {d} && run[|run| - 1].clients.Keys == {0, 1}
    requires run[|run| - 1].clients[0] == Busy(Protect, ref, Marking)
    requires run[|run| - 1].clients[1].Busy? && run[|run| - 1].clients[1].phase == Sweeping({d})
    ensures |run| < |run'| && run'[..|run|] == run && Goes(repo, run')
    ensures run'[|run'| - 1].keys == locks + {repo.Marker(ref)}
  {
    var c := run[|run| - 1].clients[1];
    var marked, swept := locks + {d} + {repo.Marker(ref)}, locks + {repo.Marker(ref)};
    OnlyTheMarkerStays(repo, ref, locks, d);
    MarkerKeyIsMarker(repo.prefix, ref);
    run' := Work(repo, run, 0, marked, Busy(Protect, ref, Releasing));
    SweepsLastKey(repo, c, marked, d, swept);
    run' := Work(repo, run', 1, swept, Busy(c.op, c.ref, Sweeping({})));
  }

  lemma OnlyTheMarkerStays(repo: Repo, ref: string, locks: set<string>, d: string)
    requires CarriesData(d) && d !in locks
    ensures locks + {d} + {repo.Marker(ref)} - {d} == locks + {repo.Marker(ref)}
  {
    MarkerKeyIsMarker(repo.prefix, ref);
  }

  lemma SweepsLastKey(repo: Repo, c: Client, keys: set<string>, d: string, keys': set<string>)
    requires c.Busy? && c.phase == Sweeping({d}) && keys' == keys - {d}
    ensures Turn(repo, c, keys, Busy(c.op, c.ref, Sweeping({})), keys')
  {
    assert {d} - {d} == {};
    assert d in c.phase.rest && Busy(c.op, c.ref, Sweeping({})) == Busy(c.op, c.ref, Sweeping(c.phase.rest - {d}));
  }

  /** A protect of the inner and a delete-branch of the outer ref, each under its own lock. */
  lemma NestedRefsLoseData(repo: Repo, outer: string, inner: string, d: string) returns (run: seq<State>)
    requires outer in repo.refs && inner in repo.refs && outer != inner && StartsWith(repo.Dir(inner), repo.Dir(outer))
    requires CarriesData(d) && StartsWith(d, repo.Dir(inner))
    ensures IsRun(repo, run) && TimelyRun(repo, run) && Unlocked(repo, run[0].keys)
    ensures !MarkersHaveData(repo, run[|run| - 1].keys)
  {
    var locks := {repo.Lock(outer), repo.Lock(inner)};
    var decided := DecideNested(repo, outer, inner, d);
    run := MarkThenSweep(repo, decided, inner, locks, d);
    assert run[0] == run[..|decided|][0] == decided[0];
    MarkersOf(repo, {d}, d, inner);
    DataIsNoLock(repo, d);
    NoDataLeft(repo, locks, inner);
  }

  /** Each takes its own lock and decides from what it lists: the data of the inner ref is listed under both. */
  lemma DecideNested(repo: Repo, outer: string, inner: string, d: string) returns (run: seq<State>)
    requires outer in repo.refs && inner in repo.refs && outer != inner && StartsWith(repo.Dir(inner), repo.Dir(outer))
    requires CarriesData(d) && StartsWith(d, repo.Dir(inner))
    ensures d !in {repo.Lock(outer), repo.Lock(inner)}
    ensures forall k :: k in {repo.Lock(outer), repo.Lock(inner)} ==> !CarriesData(k)
    ensures Goes(repo, run) && run[0] == Two({d}, Idle, Idle)
    ensures run[|run| - 1] ==
              Two({repo.Lock(outer), repo.Lock(inner)} + {d}, Busy(Protect, inner, Marking),
                  Busy(DeleteBranch, outer, Sweeping({d})))
  {
    LockKeyIsLock(repo.prefix, outer);
    LockKeyIsLock(repo.prefix, inner);
    PrefixIsTransitive(repo.Dir(outer), repo.Dir(inner), d);
    var held := TwoLocks(repo, outer, inner, d);
    run := Decide(repo, held, inner, outer, {repo.Lock(outer), repo.Lock(inner)}, d);
    assert run[0] == run[..|held|][0] == held[0];
  }

  lemma DataIsNoLock(repo: Repo, d: string)
    requires CarriesData(d)
    ensures Unlocked(repo, {d})
  {
    forall ref | ref in repo.refs ensures repo.Lock(ref) != d {
      LockKeyIsLock(repo.prefix, ref);
    }
  }

  lemma PrefixIsTransitive(p: string, q: string, s: string)
    requires StartsWith(q, p) && StartsWith(s, q)
    ensures StartsWith(s, p)
  {
    assert p == q[..|p|] && q == s[..|q|];
  }

  lemma TwoLocks(repo: Repo, outer: string, inner: string, d: string) returns (run: seq<State>)
    requires outer in repo.refs && inner in repo.refs && outer != inner && CarriesData(d)
    ensures Goes(repo, run) && run[0] == Two({d}, Idle, Idle)
    ensures run[|run| - 1] ==
              Two({repo.Lock(outer), repo.Lock(inner)} + {d}, Busy(Protect, inner, Working),
                  Busy(DeleteBranch, outer, Working))
  {
    LockKeyIsLock(repo.prefix, outer);
    LockKeyIsLock(repo.prefix, inner);
    DirsDiffer(repo, outer, inner);
    run := Hold(repo, [Two({d}, Idle, Idle)], {d}, 1, DeleteBranch, outer, Idle);
    run := Hold(repo, run, {d} + {repo.Lock(outer)}, 0, Protect, inner, Busy(DeleteBranch, outer, Working));
    assert {d} + {repo.Lock(outer)} + {repo.Lock(inner)} == {repo.Lock(outer), repo.Lock(inner)} + {d};
  }

  /** One of the two takes a free lock. */
  lemma Hold(repo: Repo, run: seq<State>, keys: set<string>, i: ClientId, op: Op, ref: string, other: Client)
    returns (run': seq<State>)
    requires i <= 1 && Goes(repo, run)
    requires run[|run| - 1] == if i == 0 then Two(keys, Idle, other) else Two(keys, other, Idle)
    requires ref in repo.refs && repo.Lock(ref) !in keys
    ensures Goes(repo, run') && run'[0] == run[0]
    ensures var keys', c := keys + {repo.Lock(ref)}, Busy(op, ref, Working);
            run'[|run'| - 1] == if i == 0 then Two(keys', c, other) else Two(keys', other, c)
  {
    run' := Move(repo, run, i, keys, Busy(op, ref, Acquiring));
    var c, c' := Busy(op, ref, Acquiring), Busy(op, ref, Working);
    LockingIsTimely(repo, run'[|run'| - 1], c, c', keys + {repo.Lock(ref)});
    run' := Move(repo, run', i, keys + {repo.Lock(ref)}, c');
  }

  /** Different refs have different locks. */
  lemma DirsDiffer(repo: Repo, r: string, q: string)
    requires r != q
    ensures repo.Dir(r) != repo.Dir(q) && repo.Lock(r) != repo.Lock(q)
  {
    if repo.Dir(r) == repo.Dir(q) {
      TailCancels(Join(repo.prefix, r), Join(repo.prefix, q), "/");
      JoinIsInjective(repo.prefix, r, q);
    }
    if repo.Lock(r) == repo.Lock(q) {
      TailCancels(repo.Dir(r), repo.Dir(q), LOCK_SEGMENT);
    }
  }

  /** A run whose locks work: none there at the start, none orphaned, none read as stale while held. */
  ghost predicate OrderlyRun(repo: Repo, run: seq<State>) {
    IsRun(repo, run) && TimelyRun(repo, run) && Unlocked(repo, run[0].keys)
  }

  /** Markers imply data in every orderly run exactly when no ref lies inside another. */
  lemma SafeIffNoNestedRefs(repo: Repo)
    ensures repo.NoNestedRefs() <==>
              forall run: seq<State>, n :: OrderlyRun(repo, run) && 0 <= n < |run| ==>
                  MarkersHaveData(repo, run[n].keys)
  {
    if repo.NoNestedRefs() {
      forall run: seq<State>, n | OrderlyRun(repo, run) && 0 <= n < |run| ensures MarkersHaveData(repo, run[n].keys) {
        TimelyRunsAreSafe(repo, run, n);
      }
    } else {
      var inner, outer :| inner in repo.refs && outer in repo.refs && inner != outer
          && StartsWith(repo.Dir(inner), repo.Dir(outer));
      var dir := if repo.prefix == "" then inner else repo.prefix + "/" + inner;
      var d := dir + "/" + "x";
      SplitIsUnique(dir, "x");
      assert d[|d| - 1] == 'x';
      if IsLockKey(d) {
        SuffixEnd(d, ".lock");
      }
      var run := NestedRefsLoseData(repo, outer, inner, d);
    }
  }
}
