// Two uploads to one key (src/object_store/azure.rs): block ids depend on the part number
// only, so each upload's blocks replace the other's under the same ids.
module AzureRaces {
  import opened Base
  import opened Multipart

  /** Pieces of `p` bytes, the last one shorter perhaps. */
  ghost predicate Uniform(pieces: seq<Bytes>, p: int) {
    forall i :: 0 <= i < |pieces| ==> 0 < |pieces[i]| <= p && (i < |pieces| - 1 ==> |pieces[i]| == p)
  }

  lemma {:induction false} JoinedFront(pieces: seq<Bytes>)
    requires pieces != []
    ensures Joined(pieces) == pieces[0] + Joined(pieces[1..])
  {
    var n := |pieces| - 1;
    if n == 0 {
      assert pieces[..0] == [] == pieces[1..];
    } else {
      JoinedFront(pieces[..n]);
      var rest := pieces[1..];
      assert pieces[..n][1..] == rest[..n - 1];
      assert Joined(rest) == Joined(rest[..n - 1]) + pieces[n];
      Associates(pieces[0], Joined(rest[..n - 1]), pieces[n]);
    }
  }

  /** Cutting what was joined gives the pieces back. */
  lemma {:induction false} ChunksJoined(pieces: seq<Bytes>, p: int)
    requires p > 0 && Uniform(pieces, p)
    ensures Chunks(Joined(pieces), p) == pieces
  {
    if pieces != [] {
      JoinedFront(pieces);
      if |pieces| > 1 {
        JoinedFront(pieces[1..]);
        ChunksJoined(pieces[1..], p);
        assert Joined(pieces)[..p] == pieces[0] && Joined(pieces)[p..] == Joined(pieces[1..]);
      } else {
        assert pieces[1..] == [] && Joined(pieces) == pieces[0];
        assert pieces == [pieces[0]];
      }
    }
  }

  lemma {:induction false} ChunksAreUniform(body: Bytes, p: int)
    requires p > 0
    ensures Uniform(Chunks(body, p), p) && Joined(Chunks(body, p)) == body
    decreases |body|
  {
    if |body| > p {
      ChunksAreUniform(body[p..], p);
      JoinedFront(Chunks(body, p));
    } else if body != [] {
      assert [body][..0] == [];
    }
  }

  // ---------------------------------------------------------------
  // The two uploads.
  // ---------------------------------------------------------------

  /** One block reaches the service: part `part` of the first or of the second upload. */
  datatype Arrival = First(part: nat) | Second(part: nat)

  /** Under each part number, the block that came last. */
  function Held(a: seq<Bytes>, b: seq<Bytes>, arrivals: seq<Arrival>): map<nat, Bytes> {
    if arrivals == [] then map[]
    else
      var held := Held(a, b, arrivals[..|arrivals| - 1]);
      match arrivals[|arrivals| - 1]
      case First(i) => if i < |a| then held[i := a[i]] else held
      case Second(i) => if i < |b| then held[i := b[i]] else held
  }

  lemma {:induction false} HeldIsOneOfTwo(a: seq<Bytes>, b: seq<Bytes>, arrivals: seq<Arrival>, i: nat)
    ensures i in Held(a, b, arrivals) ==>
              (i < |a| && Held(a, b, arrivals)[i] == a[i]) || (i < |b| && Held(a, b, arrivals)[i] == b[i])
    ensures i < |a| && First(i) in arrivals ==> i in Held(a, b, arrivals)
  {
    if arrivals != [] {
      HeldIsOneOfTwo(a, b, arrivals[..|arrivals| - 1], i);
    }
  }

  /** Every part of the first upload has arrived, so it commits. */
  ghost predicate FirstCommits(a: seq<Bytes>, arrivals: seq<Arrival>) {
    forall i: nat :: i < |a| ==> First(i) in arrivals
  }

  /** The blocks that its commit lists. */
  ghost function Listed(a: seq<Bytes>, b: seq<Bytes>, arrivals: seq<Arrival>): (pieces: seq<Bytes>)
    requires FirstCommits(a, arrivals)
    ensures |pieces| == |a|
  {
    var held := Held(a, b, arrivals);
    seq(|a|, i requires 0 <= i < |a| => HeldIsOneOfTwo(a, b, arrivals, i); held[i])
  }

  lemma ListedIsOneOfTwo(a: seq<Bytes>, b: seq<Bytes>, arrivals: seq<Arrival>)
    requires FirstCommits(a, arrivals)
    ensures forall i: nat :: i < |a| ==>
              Listed(a, b, arrivals)[i] == a[i] || (i < |b| && Listed(a, b, arrivals)[i] == b[i])
  {
    forall i: nat | i < |a|
      ensures Listed(a, b, arrivals)[i] == a[i] || (i < |b| && Listed(a, b, arrivals)[i] == b[i])
    {
      HeldIsOneOfTwo(a, b, arrivals, i);
    }
  }

  predicate DifferAt(a: seq<Bytes>, b: seq<Bytes>, i: nat) {
    i < |a| && i < |b| && a[i] != b[i]
  }

  /** Common part numbers hold the same bytes, but for one when both have as many parts. */
  ghost predicate AgreeButOne(a: seq<Bytes>, b: seq<Bytes>) {
    forall i: nat, j: nat :: DifferAt(a, b, i) && DifferAt(a, b, j) ==> i == j && |a| == |b|
  }

  lemma AgreeingIsSafe(a: seq<Bytes>, b: seq<Bytes>, arrivals: seq<Arrival>)
    requires FirstCommits(a, arrivals) && AgreeButOne(a, b)
    ensures Listed(a, b, arrivals) in {a, b}
  {
    var pieces := Listed(a, b, arrivals);
    ListedIsOneOfTwo(a, b, arrivals);
    if pieces != a {
      var i: nat :| i < |a| && pieces[i] != a[i];
      assert DifferAt(a, b, i);
      forall j: nat | j < |a| ensures pieces[j] == b[j] {
        assert j != i ==> !DifferAt(a, b, j);
      }
      assert pieces == b;
    }
  }

  /** The first upload's blocks in order. */
  function InOrder(n: nat): seq<Arrival> {
    if n == 0 then [] else InOrder(n - 1) + [First(n - 1)]
  }

  lemma {:induction false} InOrderHas(n: nat, i: nat)
    requires i < n
    ensures First(i) in InOrder(n)
  {
    if i < n - 1 {
      InOrderHas(n - 1, i);
    }
  }

  predicate HoldsFirst(a: seq<Bytes>, held: map<nat, Bytes>, n: nat)
    requires n <= |a|
  {
    forall i: nat :: i < n ==> i in held && held[i] == a[i]
  }

  lemma {:induction false} InOrderHolds(a: seq<Bytes>, b: seq<Bytes>, n: nat)
    requires n <= |a|
    ensures HoldsFirst(a, Held(a, b, InOrder(n)), n)
  {
    if n > 0 {
      InOrderHolds(a, b, n - 1);
      assert InOrder(n) == InOrder(n - 1) + [First(n - 1)];
      HoldsOneMore(a, b, InOrder(n - 1), n - 1);
      HoldsFurther(a, Held(a, b, InOrder(n - 1)), n);
    }
  }

  lemma HoldsFurther(a: seq<Bytes>, held: map<nat, Bytes>, n: nat)
    requires 0 < n <= |a| && HoldsFirst(a, held, n - 1)
    ensures HoldsFirst(a, held[n - 1 := a[n - 1]], n)
  {
  }

  lemma HoldsOneMore(a: seq<Bytes>, b: seq<Bytes>, arrivals: seq<Arrival>, i: nat)
    requires i < |a|
    ensures Held(a, b, arrivals + [First(i)]) == Held(a, b, arrivals)[i := a[i]]
  {
    assert (arrivals + [First(i)])[..|arrivals|] == arrivals;
  }

  /** One block of the second upload arrives late and replaces the first's. */
  lemma OneReplaced(a: seq<Bytes>, b: seq<Bytes>, i: nat) returns (arrivals: seq<Arrival>)
    requires i < |a| && i < |b|
    ensures FirstCommits(a, arrivals) && Listed(a, b, arrivals) == a[i := b[i]]
  {
    arrivals := InOrder(|a|) + [Second(i)];
    assert arrivals[..|arrivals| - 1] == InOrder(|a|);
    InOrderHolds(a, b, |a|);
    forall k: nat | k < |a| ensures First(k) in arrivals {
      InOrderHas(|a|, k);
    }
    var pieces := Listed(a, b, arrivals);
    assert pieces == a[i := b[i]];
  }

  lemma {:induction false} JoinedLength(pieces: seq<Bytes>, i: nat, piece: Bytes)
    requires i < |pieces|
    ensures |Joined(pieces[i := piece])| == |Joined(pieces)| - |pieces[i]| + |piece|
  {
    var n := |pieces| - 1;
    if i < n {
      JoinedLength(pieces[..n], i, piece);
      assert pieces[i := piece][..n] == pieces[..n][i := piece];
    } else {
      assert pieces[i := piece][..n] == pieces[..n];
    }
  }

  lemma {:induction false} JoinedIsLonger(pieces: seq<Bytes>, n: nat)
    requires n <= |pieces| && forall i :: 0 <= i < |pieces| ==> pieces[i] != []
    ensures |Joined(pieces[..n])| <= |Joined(pieces)| && (n < |pieces| ==> |Joined(pieces[..n])| < |Joined(pieces)|)
  {
    if n < |pieces| {
      var m := |pieces| - 1;
      JoinedIsLonger(pieces[..m], n);
      assert pieces[..m][..n] == pieces[..n];
    } else {
      assert pieces[..n] == pieces;
    }
  }

  /** A last piece of `b` inside `a`: too short for `a` and too long for `b`. */
  lemma ShortPieceInside(a: seq<Bytes>, b: seq<Bytes>, p: int, i: nat)
    requires Uniform(a, p) && Uniform(b, p) && i < |a| - 1 && i < |b| && |b[i]| < p
    ensures |Joined(a[i := b[i]])| < |Joined(a)| && |Joined(a[i := b[i]])| > |Joined(b)|
  {
    var mixed := a[i := b[i]];
    JoinedLength(a, i, b[i]);
    JoinedIsLonger(mixed, i + 1);
    assert |b| == i + 1;
    SameLengths(mixed[..i + 1], b);
  }

  lemma {:induction false} SameLengths(x: seq<Bytes>, y: seq<Bytes>)
    requires |x| == |y| && forall i :: 0 <= i < |x| ==> |x[i]| == |y[i]|
    ensures |Joined(x)| == |Joined(y)|
  {
    if x != [] {
      SameLengths(x[..|x| - 1], y[..|y| - 1]);
    }
  }

  /** The mix of one block of `b` into `a` is neither body when the two differ elsewhere, or in length. */
  lemma MixedIsNeither(a: seq<Bytes>, b: seq<Bytes>, p: int, i: nat)
    requires p > 0 && Uniform(a, p) && Uniform(b, p) && DifferAt(a, b, i)
    requires |a| != |b| || exists j: nat :: DifferAt(a, b, j) && j != i
    ensures Joined(a[i := b[i]]) !in {Joined(a), Joined(b)}
  {
    var mixed := a[i := b[i]];
    JoinedLength(a, i, b[i]);
    if i < |a| - 1 && |b[i]| < p {
      ShortPieceInside(a, b, p, i);
    } else {
      assert Uniform(mixed, p);
      ChunksJoined(mixed, p);
      ChunksJoined(a, p);
      ChunksJoined(b, p);
    }
  }

  /**
   * Two uploads to one key: whatever the order in which their blocks arrive, the first one's
   * commit makes one of the two bodies, if and only if the parts they have in common agree, but for one part when
   * there are as many of them.
   */
  lemma RaceIsSafeIff(bodyA: Bytes, bodyB: Bytes, p: int)
    requires p > 0
    ensures var a, b := Chunks(bodyA, p), Chunks(bodyB, p);
            AgreeButOne(a, b) <==>
              forall arrivals :: FirstCommits(a, arrivals) ==> Joined(Listed(a, b, arrivals)) in {bodyA, bodyB}
  {
    var a, b := Chunks(bodyA, p), Chunks(bodyB, p);
    ChunksAreUniform(bodyA, p);
    ChunksAreUniform(bodyB, p);
    if AgreeButOne(a, b) {
      forall arrivals | FirstCommits(a, arrivals) ensures Joined(Listed(a, b, arrivals)) in {bodyA, bodyB} {
        AgreeingIsSafe(a, b, arrivals);
      }
    } else {
      var i: nat, j: nat :| DifferAt(a, b, i) && DifferAt(a, b, j) && !(i == j && |a| == |b|);
      MixedIsNeither(a, b, p, i);
      var arrivals := OneReplaced(a, b, i);
    }
  }
}
