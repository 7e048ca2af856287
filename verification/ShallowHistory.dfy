// What a shallow file shows, and what rewriting keeps over many fetches (src/git.rs).
module ShallowHistory {
  import opened ObjectDb
  import opened ShallowWalk
  import opened ShallowFile

  // ---------------------------------------------------------------
  // Visibility: listed commits appear parentless.
  // ---------------------------------------------------------------

  /** git reads each id in `cut` as a commit without parents. */
  function Graft(g: Graph, cut: set<Oid>): Graph {
    map o | o in g :: if o in cut then [] else g[o]
  }

  /** Nothing above the cut is grafted, and everything at the cut is. */
  ghost predicate CutsAt(g: Graph, tip: Oid, depth: nat, cut: set<Oid>) {
    && (forall k: nat, v :: k + 1 < depth && AtDistance(g, tip, k, v) ==> v !in cut)
    && (forall k: nat, v :: k + 1 == depth && AtDistance(g, tip, k, v) ==> v in cut)
  }

  lemma {:induction false} GraftedStaysWithin(g: Graph, tip: Oid, depth: nat, cut: set<Oid>, n: nat, v: Oid)
    requires depth > 0 && CutsAt(g, tip, depth, cut) && Reach(Graft(g, cut), tip, n, v)
    ensures Within(g, tip, depth, v)
  {
    if n == 0 {
      assert AtDistance(g, tip, 0, tip);
    } else {
      var u :| Reach(Graft(g, cut), tip, n - 1, u) && Edge(Graft(g, cut), u, v);
      GraftedStaysWithin(g, tip, depth, cut, n - 1, u);
      var k: nat :| k < depth && AtDistance(g, tip, k, u);
      assert u !in cut && Edge(g, u, v) && Reach(g, tip, k + 1, v);
      var j := HasDistance(g, tip, k + 1, v);
    }
  }

  lemma {:induction false} WithinStaysGrafted(g: Graph, tip: Oid, depth: nat, cut: set<Oid>, k: nat, v: Oid)
    requires CutsAt(g, tip, depth, cut) && k < depth && AtDistance(g, tip, k, v)
    ensures Reach(Graft(g, cut), tip, k, v)
  {
    if v == tip {
      assert Reach(g, tip, 0, tip);
    } else {
      var u := Predecessor(g, tip, k, v);
      WithinStaysGrafted(g, tip, depth, cut, k - 1, u);
      assert Edge(Graft(g, cut), u, v);
    }
  }

  /** Grafting at the cut leaves visible exactly the commits nearer than `depth`. */
  lemma GraftShowsDepth(g: Graph, tip: Oid, depth: nat, cut: set<Oid>)
    requires depth > 0 && CutsAt(g, tip, depth, cut)
    ensures forall v :: Reachable(Graft(g, cut), tip, v) <==> Within(g, tip, depth, v)
  {
    forall v ensures Reachable(Graft(g, cut), tip, v) <==> Within(g, tip, depth, v) {
      if Reachable(Graft(g, cut), tip, v) {
        var n: nat :| Reach(Graft(g, cut), tip, n, v);
        GraftedStaysWithin(g, tip, depth, cut, n, v);
      }
      if k: nat :| k < depth && AtDistance(g, tip, k, v) {
        WithinStaysGrafted(g, tip, depth, cut, k, v);
      }
    }
  }

  lemma FrontierCuts(g: Graph, tip: Oid, depth: nat, frontier: seq<Oid>)
    requires depth > 0 && ListsDistance(g, tip, depth - 1, frontier)
    ensures CutsAt(g, tip, depth, Elements(frontier))
  {
  }

  /** Making exactly the returned frontier parentless shows exactly `depth` levels. */
  lemma FrontierShowsDepth(g: Graph, tip: Oid, depth: nat, frontier: seq<Oid>)
    requires depth > 0 && ListsDistance(g, tip, depth - 1, frontier)
    ensures forall v :: Reachable(Graft(g, Elements(frontier)), tip, v) <==> Within(g, tip, depth, v)
  {
    FrontierCuts(g, tip, depth, frontier);
    GraftShowsDepth(g, tip, depth, Elements(frontier));
  }

  /** Below any inhabited distance, every distance is inhabited. */
  lemma {:induction false} DistancesAreContiguous(g: Graph, tip: Oid, k: nat, v: Oid, d: nat) returns (w: Oid)
    requires AtDistance(g, tip, k, v) && d <= k
    ensures AtDistance(g, tip, d, w)
    decreases k
  {
    w := v;
    if d < k {
      assert Reach(g, tip, 0, tip);
      var u := Predecessor(g, tip, k, v);
      w := DistancesAreContiguous(g, tip, k - 1, u, d);
    }
  }

  /** An empty frontier means that the whole history lies above the cut. */
  lemma EmptyFrontierIsWholeHistory(g: Graph, tip: Oid, depth: nat)
    requires depth > 0 && ListsDistance(g, tip, depth - 1, [])
    ensures forall v :: Reachable(g, tip, v) <==> Within(g, tip, depth - 1, v)
  {
    forall v | Reachable(g, tip, v) ensures Within(g, tip, depth - 1, v) {
      var k := Shortest(g, tip, v);
      if k >= depth - 1 {
        var w := DistancesAreContiguous(g, tip, k, v, depth - 1);
      }
    }
  }

  /**
   * After a shallow fetch and the rewrite, whatever the file listed before: the history of
   * the tip is visible to exactly the requested depth, provided its commits are installed.
   */
  lemma RewrittenFileShowsDepth(odb: Odb, tip: Oid, depth: nat, frontier: seq<Oid>, existing: set<Oid>)
    requires depth > 0 && ListsDistance(Parents(odb), tip, depth - 1, frontier)
    requires forall v :: Within(Parents(odb), tip, depth, v) ==> v in odb
    ensures var listed := Rewrite(odb, existing, Elements(frontier));
            forall v :: Reachable(Graft(Parents(odb), listed), tip, v) <==> Within(Parents(odb), tip, depth, v)
  {
    var g := Parents(odb);
    var listed := Rewrite(odb, existing, Elements(frontier));
    FrontierCuts(g, tip, depth, frontier);
    forall k: nat, v | k + 1 < depth && AtDistance(g, tip, k, v) ensures v !in listed {
      if RemainsBoundary(odb, v) {
        var p :| p in DecodeCommit(odb, v).value && p !in odb;
        assert Edge(g, v, p) && Reach(g, tip, k + 1, p);
        var j := HasDistance(g, tip, k + 1, p);
      }
    }
    GraftShowsDepth(g, tip, depth, listed);
  }

  // ---------------------------------------------------------------
  // Growth of the object database.
  // ---------------------------------------------------------------

  ghost predicate Grows(a: Odb, b: Odb) {
    forall o :: o in a ==> o in b && b[o] == a[o]
  }

  /** Following `o` meets no missing object. */
  ghost predicate Resolves(odb: Odb, o: Oid) {
    forall x :: Reaches(odb, o, x) ==> x in odb
  }

  lemma ResolvesIff(odb: Odb, o: Oid)
    ensures Resolves(odb, o) <==> !(PeelLeaf(odb, o, {}).Err? && PeelLeaf(odb, o, {}).error.FindObject?)
  {
    PeelOutcome(odb, o);
    if x :| Reaches(odb, o, x) && x !in odb {
      assert PeelLeaf(odb, o, {}) == Err(FindObject(x));
    }
    if PeelLeaf(odb, o, {}).Err? && PeelLeaf(odb, o, {}).error.FindObject? {
      var x := PeelLeaf(odb, o, {}).error.oid;
      assert PeelLeaf(odb, o, {}) == Err(FindObject(x));
      assert x !in odb && Reaches(odb, o, x);
    }
  }

  lemma {:induction false} PeelGrows(a: Odb, b: Odb, o: Oid, visited: set<Oid>)
    requires Grows(a, b)
    ensures var r := PeelLeaf(a, o, visited); !(r.Err? && r.error.FindObject?) ==> PeelLeaf(b, o, visited) == r
    decreases a.Keys - visited
  {
    if o !in visited && IsTag(a, o) {
      PeelGrows(a, b, a[o].target, visited + {o});
    }
  }

  lemma StillResolves(a: Odb, b: Odb, o: Oid)
    requires Grows(a, b) && Resolves(a, o)
    ensures Resolves(b, o)
  {
    ResolvesIff(a, o);
    ResolvesIff(b, o);
    PeelGrows(a, b, o, {});
  }

  /** A resolved entry keeps its meaning, so only its parents can arrive. */
  lemma BoundaryAntitone(a: Odb, b: Odb, o: Oid)
    requires Grows(a, b) && Resolves(a, o) && MissesParent(b, o)
    ensures MissesParent(a, o)
  {
    ResolvesIff(a, o);
    RemainsIff(a, o);
    RemainsIff(b, o);
    PeelGrows(a, b, o, {});
    assert DecodeCommit(a, o) == DecodeCommit(b, o);
  }

  /** Installing the missing end of a walk turns its outcome into that object. */
  lemma {:induction false} InstallMissing(a: Odb, o: Oid, visited: set<Oid>, missing: Oid, parents: seq<Oid>)
    requires PeelLeaf(a, o, visited) == Err(FindObject(missing)) && visited <= a.Keys
    ensures missing !in a && PeelLeaf(a[missing := Commit(parents)], o, visited) == Ok(missing)
    decreases a.Keys - visited
  {
    if IsTag(a, o) {
      InstallMissing(a, a[o].target, visited + {o}, missing, parents);
      assert o != missing;
    }
  }

  /**
   * Rewriting the same entries over a larger database can only drop more of them exactly
   * when each entry that was not freshly designated resolves: an unresolved entry is dropped
   * now but would be kept by a database in which it has arrived without its parents.
   */
  lemma RewriteAntitoneIff(a: Odb, existing: set<Oid>, boundaries: set<Oid>, f: Oid, f': Oid)
    requires f !in a && f' !in a && f != f'
    ensures (forall b :: Grows(a, b) ==> Rewrite(b, existing, boundaries) <= Rewrite(a, existing, boundaries))
       <==> (forall o :: o in existing && o !in boundaries ==> Resolves(a, o))
  {
    if forall o :: o in existing && o !in boundaries ==> Resolves(a, o) {
      forall b, o | Grows(a, b) && o in Rewrite(b, existing, boundaries) ensures o in Rewrite(a, existing, boundaries) {
        if o !in boundaries {
          RemainsIff(a, o);
          RemainsIff(b, o);
          BoundaryAntitone(a, b, o);
        }
      }
    } else {
      var o :| o in existing && o !in boundaries && !Resolves(a, o);
      ResolvesIff(a, o);
      var missing := PeelLeaf(a, o, {}).error.oid;
      var parent := if missing == f then f' else f;
      var b := a[missing := Commit([parent])];
      InstallMissing(a, o, {}, missing, [parent]);
      assert parent in b[missing].parents && parent !in b;
      assert DecodeCommit(b, o) == Ok([parent]);
      assert Grows(a, b) && o in Rewrite(b, existing, boundaries) && o !in Rewrite(a, existing, boundaries);
    }
  }

  // ---------------------------------------------------------------
  // Sequences of fetches.
  // ---------------------------------------------------------------

  /** One fetch: the database it leaves and the boundaries it designates. */
  datatype Fetch = Fetch(odb: Odb, boundaries: set<Oid>)

  /** The ids listed after the first `n` fetches. */
  function Listing(initial: set<Oid>, fetches: seq<Fetch>, n: nat): set<Oid>
    requires n <= |fetches|
  {
    if n == 0 then initial
    else Rewrite(fetches[n - 1].odb, Listing(initial, fetches, n - 1), fetches[n - 1].boundaries)
  }

  /** `o` is listed afresh by state `j`. */
  predicate Enters(initial: set<Oid>, fetches: seq<Fetch>, j: nat, o: Oid)
    requires j <= |fetches|
  {
    if j == 0 then o in initial else o in fetches[j - 1].boundaries
  }

  /** `o` entered at `j` and every rewrite since found a missing parent. */
  ghost predicate KeptSince(initial: set<Oid>, fetches: seq<Fetch>, j: nat, n: nat, o: Oid)
    requires j <= n <= |fetches|
  {
    Enters(initial, fetches, j, o) && forall m :: j <= m < n ==> MissesParent(fetches[m].odb, o)
  }

  /** Exactly what a run of fetches lists, for every initial file and every run. */
  lemma {:induction false} ListingHistory(initial: set<Oid>, fetches: seq<Fetch>, n: nat, o: Oid)
    requires n <= |fetches|
    ensures o in Listing(initial, fetches, n) <==> exists j: nat :: j <= n && KeptSince(initial, fetches, j, n, o)
  {
    if n == 0 {
      assert o in initial ==> KeptSince(initial, fetches, 0, 0, o);
    } else {
      var m := n - 1;
      ListingHistory(initial, fetches, m, o);
      RemainsIff(fetches[m].odb, o);
      if o in fetches[n - 1].boundaries {
        assert KeptSince(initial, fetches, n, n, o);
      }
      if j: nat :| j <= m && KeptSince(initial, fetches, j, m, o) {
        assert MissesParent(fetches[n - 1].odb, o) ==> KeptSince(initial, fetches, j, n, o);
      }
      if j: nat :| j <= n && KeptSince(initial, fetches, j, n, o) {
        assert j < n ==> KeptSince(initial, fetches, j, m, o);
      }
    }
  }

  /** Fetches only add objects. */
  ghost predicate OnlyAdds(fetches: seq<Fetch>) {
    forall i, j :: 0 <= i <= j < |fetches| ==> Grows(fetches[i].odb, fetches[j].odb)
  }

  /** A listed, present commit that still has a missing parent has not been dropped. */
  lemma {:induction false} NeverDroppedTooEarly(initial: set<Oid>, fetches: seq<Fetch>, i: nat, n: nat, o: Oid)
    requires OnlyAdds(fetches) && i < n <= |fetches|
    requires o in Listing(initial, fetches, i) && Resolves(fetches[i].odb, o)
    requires MissesParent(fetches[n - 1].odb, o)
    ensures o in Listing(initial, fetches, n)
    decreases n
  {
    RemainsIff(fetches[n - 1].odb, o);
    if i < n - 1 {
      assert Grows(fetches[i].odb, fetches[n - 2].odb) && Grows(fetches[n - 2].odb, fetches[n - 1].odb);
      StillResolves(fetches[i].odb, fetches[n - 2].odb, o);
      BoundaryAntitone(fetches[n - 2].odb, fetches[n - 1].odb, o);
      NeverDroppedTooEarly(initial, fetches, i, n - 1, o);
    }
  }
}
