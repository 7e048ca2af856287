// The git object database as a finite map, and annotated-tag peeling
// (src/git.rs, `peel_tag_chain`).
module ObjectDb {
  import opened Base

  const RAW_LEN := 20

  /** The 20 raw bytes of a SHA-1 object id. */
  type Raw = r: seq<byte> | |r| == RAW_LEN witness seq(RAW_LEN, _ => 0)

  datatype Oid = Oid(raw: Raw)

  /** `CorruptTag` is a tag object whose bytes do not decode. */
  datatype Object =
    | Commit(parents: seq<Oid>)
    | Tag(target: Oid)
    | CorruptTag
    | Tree
    | Blob

  type Odb = map<Oid, Object>

  datatype GitError =
    | FindObject(oid: Oid)
    | PeelToKind(oid: Oid)
    | TagChainCycle(oid: Oid)

  datatype Result<+T> = Ok(value: T) | Err(error: GitError)

  datatype PeeledTip =
    | CommitTip(commit: Oid, commitTags: seq<Oid>)
    | TreeTip(tree: Oid, treeTags: seq<Oid>)
    | BlobTip(blob: Oid, blobTags: seq<Oid>)
  {
    function Leaf(): Oid {
      match this
      case CommitTip(o, _) => o
      case TreeTip(o, _) => o
      case BlobTip(o, _) => o
    }

    function TagChain(): seq<Oid> {
      match this
      case CommitTip(_, c) => c
      case TreeTip(_, c) => c
      case BlobTip(_, c) => c
    }
  }

  predicate IsTag(odb: Odb, o: Oid) {
    o in odb && odb[o].Tag?
  }

  predicate IsLeaf(odb: Odb, o: Oid) {
    o in odb && (odb[o].Commit? || odb[o].Tree? || odb[o].Blob?)
  }

  // ---------------------------------------------------------------
  // Reference meaning: iterate the target map.
  // ---------------------------------------------------------------

  /** The object `n` target steps away from `tip`, when all objects before it are tags. */
  function Nth(odb: Odb, tip: Oid, n: nat): (o: Option<Oid>) {
    if n == 0 then Some(tip)
    else match Nth(odb, tip, n - 1)
      case Some(p) => if IsTag(odb, p) then Some(odb[p].target) else None
      case None => None
  }

  /** After `n` target steps from `tip` there is a decodable tag. */
  predicate TagAt(odb: Odb, tip: Oid, n: nat) {
    var o := Nth(odb, tip, n);
    o.Some? && IsTag(odb, o.value)
  }

  /** Some number of target steps leads from `tip` to `o`. */
  ghost predicate Reaches(odb: Odb, tip: Oid, o: Oid) {
    exists k: nat :: Nth(odb, tip, k) == Some(o)
  }

  ghost predicate ReachesBefore(odb: Odb, tip: Oid, o: Oid, n: nat) {
    exists k: nat :: k < n && Nth(odb, tip, k) == Some(o)
  }

  /** `chain` is a linked list of tags from `tip` whose last one targets `leaf`. */
  predicate IsTagChain(odb: Odb, tip: Oid, chain: seq<Oid>, leaf: Oid)
    decreases |chain|
  {
    if chain == [] then leaf == tip
    else chain[0] == tip && IsTag(odb, tip) && IsTagChain(odb, odb[tip].target, chain[1..], leaf)
  }

  ghost predicate NoDup<T(!new)>(s: seq<T>) {
    forall i, j :: 0 <= i < j < |s| ==> s[i] != s[j]
  }

  // ---------------------------------------------------------------
  // The walk as a function: stop at the first revisit.
  // ---------------------------------------------------------------

  function PeelLeaf(odb: Odb, o: Oid, visited: set<Oid>): (r: Result<Oid>)
    ensures r.Ok? ==> IsLeaf(odb, r.value)
    decreases odb.Keys - visited
  {
    if o in visited then Err(TagChainCycle(o))
    else if o !in odb then Err(FindObject(o))
    else match odb[o]
      case Tag(target) => PeelLeaf(odb, target, visited + {o})
      case CorruptTag => Err(PeelToKind(o))
      case _ => Ok(o)
  }

  /** The loop of `peel_tag_chain`, with the set of visited ids as its cycle guard. */
  method PeelTagChain(odb: Odb, tip: Oid) returns (r: Result<PeeledTip>)
    ensures r.Err? <==> PeelLeaf(odb, tip, {}).Err?
    ensures r.Err? ==> r.error == PeelLeaf(odb, tip, {}).error
    ensures r.Ok? ==> PeelLeaf(odb, tip, {}) == Ok(r.value.Leaf())
    ensures r.Ok? ==> IsTagChain(odb, tip, r.value.TagChain(), r.value.Leaf())
    ensures r.Ok? ==> NoDup(r.value.TagChain()) && r.value.Leaf() !in r.value.TagChain()
    ensures r.Ok? ==> (r.value.CommitTip? <==> odb[r.value.Leaf()].Commit?)
    ensures r.Ok? ==> (r.value.TreeTip? <==> odb[r.value.Leaf()].Tree?)
    ensures r.Ok? ==> (r.value.BlobTip? <==> odb[r.value.Leaf()].Blob?)
  {
    var visited: set<Oid> := {};
    var tagChain: seq<Oid> := [];
    var current := tip;
    while true
      invariant visited == set o | o in tagChain
      invariant visited <= odb.Keys
      invariant NoDup(tagChain)
      invariant IsTagChain(odb, tip, tagChain, current)
      invariant PeelLeaf(odb, tip, {}) == PeelLeaf(odb, current, visited)
      decreases odb.Keys - visited
    {
      if current in visited {
        return Err(TagChainCycle(current));
      }
      if current !in odb {
        return Err(FindObject(current));
      }
      match odb[current] {
        case Commit(_) => return Ok(CommitTip(current, tagChain));
        case Tree => return Ok(TreeTip(current, tagChain));
        case Blob => return Ok(BlobTip(current, tagChain));
        case CorruptTag => return Err(PeelToKind(current));
        case Tag(target) =>
          ChainSnoc(odb, tip, tagChain, current);
          visited := visited + {current};
          tagChain := tagChain + [current];
          current := target;
      }
    }
  }

  lemma {:induction false} ChainSnoc(odb: Odb, tip: Oid, chain: seq<Oid>, last: Oid)
    requires IsTagChain(odb, tip, chain, last) && IsTag(odb, last)
    ensures IsTagChain(odb, tip, chain + [last], odb[last].target)
    decreases |chain|
  {
    if chain == [] {
      assert ([last] + [])[1..] == [];
    } else {
      ChainSnoc(odb, odb[tip].target, chain[1..], last);
      assert (chain + [last])[1..] == chain[1..] + [last];
    }
  }

  // ---------------------------------------------------------------
  // What the outcome means, for every database and tip.
  // ---------------------------------------------------------------

  /** One more step from the front: the n+1st object from a tag is the nth from its target. */
  lemma {:induction false} NthShift(odb: Odb, tip: Oid, n: nat)
    requires IsTag(odb, tip)
    ensures Nth(odb, tip, n + 1) == Nth(odb, odb[tip].target, n)
  {
    if n == 0 {
      assert Nth(odb, tip, 0) == Some(tip);
    } else {
      NthShift(odb, tip, n - 1);
    }
  }

  /** A walk that comes back to an earlier object goes through tags for ever. */
  lemma {:induction false} RevisitNeverEnds(odb: Odb, tip: Oid, i: nat, j: nat, n: nat)
    requires i < j && Nth(odb, tip, i) == Nth(odb, tip, j)
    requires forall k: nat :: k < j ==> TagAt(odb, tip, k)
    ensures TagAt(odb, tip, n)
    decreases n
  {
    if n >= j {
      RevisitNeverEnds(odb, tip, i, j, n - (j - i));
      SameTail(odb, tip, i, j, n - j);
    }
  }

  lemma {:induction false} SameTail(odb: Odb, tip: Oid, i: nat, j: nat, m: nat)
    requires Nth(odb, tip, i) == Nth(odb, tip, j)
    ensures Nth(odb, tip, i + m) == Nth(odb, tip, j + m)
  {
    if m > 0 {
      SameTail(odb, tip, i, j, m - 1);
    }
  }

  /** The guarded walk, tracked against the unguarded one it abbreviates. */
  lemma {:induction false} PeelTrace(odb: Odb, tip: Oid, o: Oid, visited: set<Oid>, n: nat)
    requires Nth(odb, tip, n) == Some(o)
    requires forall k: nat :: k < n ==> TagAt(odb, tip, k)
    requires forall v :: v in visited ==> ReachesBefore(odb, tip, v, n)
    ensures var r := PeelLeaf(odb, o, visited);
            match r
            case Ok(leaf) => Reaches(odb, tip, leaf)
            case Err(FindObject(e)) => e !in odb && Reaches(odb, tip, e)
            case Err(PeelToKind(e)) => e in odb && odb[e].CorruptTag? && Reaches(odb, tip, e)
            case Err(TagChainCycle(_)) => forall k: nat :: TagAt(odb, tip, k)
    decreases odb.Keys - visited
  {
    if o in visited {
      var i: nat :| i < n && Nth(odb, tip, i) == Some(o);
      forall k: nat ensures TagAt(odb, tip, k) {
        RevisitNeverEnds(odb, tip, i, n, k);
      }
    } else if IsTag(odb, o) {
      assert TagAt(odb, tip, n);
      assert Nth(odb, tip, n + 1) == Some(odb[o].target);
      forall v | v in visited + {o}
        ensures ReachesBefore(odb, tip, v, n + 1)
      {
        if v == o {
          assert Nth(odb, tip, n) == Some(v);
        }
      }
      PeelTrace(odb, tip, odb[o].target, visited + {o}, n + 1);
    }
  }

  /** If some step leaves the tags, every longer walk is undefined. */
  lemma {:induction false} StopIsFinal(odb: Odb, tip: Oid, n: nat, m: nat)
    requires Nth(odb, tip, n).Some? && !TagAt(odb, tip, n) && n < m
    ensures Nth(odb, tip, m).None?
  {
    if m > n + 1 {
      StopIsFinal(odb, tip, n, m - 1);
    }
  }

  /** Two objects that both stop the iteration are the same object. */
  lemma StopsAgree(odb: Odb, tip: Oid, a: Oid, b: Oid)
    requires Reaches(odb, tip, a) && Reaches(odb, tip, b) && !IsTag(odb, a) && !IsTag(odb, b)
    ensures a == b
  {
    var i: nat :| Nth(odb, tip, i) == Some(a);
    var j: nat :| Nth(odb, tip, j) == Some(b);
    if i < j {
      StopIsFinal(odb, tip, i, j);
    } else if j < i {
      StopIsFinal(odb, tip, j, i);
    }
  }

  /**
   * Exactly one of four outcomes, each characterised by unguarded target iteration:
   * success with the leaf it reaches, a missing object it reaches, an undecodable tag it
   * reaches, and a cycle report when, and only when, it never leaves the tags.
   */
  lemma PeelOutcome(odb: Odb, tip: Oid)
    ensures var r := PeelLeaf(odb, tip, {});
            && (forall leaf :: r == Ok(leaf) <==> IsLeaf(odb, leaf) && Reaches(odb, tip, leaf))
            && (forall o :: r == Err(FindObject(o)) <==> o !in odb && Reaches(odb, tip, o))
            && (forall o :: r == Err(PeelToKind(o)) <==>
                  o in odb && odb[o].CorruptTag? && Reaches(odb, tip, o))
            && ((r.Err? && r.error.TagChainCycle?) <==> (forall k: nat :: TagAt(odb, tip, k)))
  {
    PeelTrace(odb, tip, tip, {}, 0);
    var r := PeelLeaf(odb, tip, {});
    forall o | Reaches(odb, tip, o) && !IsTag(odb, o)
      ensures r == if o !in odb then Err(FindObject(o)) else if odb[o].CorruptTag? then Err(PeelToKind(o)) else Ok(o)
    {
      var k: nat :| Nth(odb, tip, k) == Some(o);
      assert !TagAt(odb, tip, k);
      var stop := if r.Ok? then r.value else r.error.oid;
      StopsAgree(odb, tip, o, stop);
    }
    if r.Ok? || !r.error.TagChainCycle? {
      var stop := if r.Ok? then r.value else r.error.oid;
      var k: nat :| Nth(odb, tip, k) == Some(stop);
      assert !TagAt(odb, tip, k);
    }
  }

  // ---------------------------------------------------------------
  // `find_object(oid)?.peel_to_kind(Commit)`: the parents a walk follows.
  // ---------------------------------------------------------------

  function DecodeCommit(odb: Odb, o: Oid): (r: Result<seq<Oid>>)
    ensures r.Ok? ==> o in odb
  {
    if o !in odb then Err(FindObject(o))
    else match PeelLeaf(odb, o, {})
      case Ok(leaf) => if odb[leaf].Commit? then Ok(odb[leaf].parents) else Err(PeelToKind(o))
      case Err(_) => Err(PeelToKind(o))
  }

  /** An id decodes to the parents of the commit that its tags lead to; an absent one is told apart. */
  lemma DecodesIff(odb: Odb, o: Oid, parents: seq<Oid>)
    ensures DecodeCommit(odb, o) == Ok(parents) <==>
              exists c :: c in odb && odb[c] == Commit(parents) && Reaches(odb, o, c)
    ensures DecodeCommit(odb, o) == Err(FindObject(o)) <==> o !in odb
  {
    PeelOutcome(odb, o);
    if DecodeCommit(odb, o) == Ok(parents) {
      var c := PeelLeaf(odb, o, {}).value;
      assert odb[c] == Commit(parents);
    }
    if c :| c in odb && odb[c] == Commit(parents) && Reaches(odb, o, c) {
      assert PeelLeaf(odb, o, {}) == Ok(c);
      var k: nat :| Nth(odb, o, k) == Some(c);
      StartsThere(odb, o, k);
    }
  }

  /** Iteration gets anywhere else only from an object that is there. */
  lemma {:induction false} StartsThere(odb: Odb, tip: Oid, k: nat)
    requires Nth(odb, tip, k).Some? && Nth(odb, tip, k).value in odb
    ensures tip in odb
  {
    if k > 0 {
      var p := Nth(odb, tip, k - 1).value;
      StartsThere(odb, tip, k - 1);
    }
  }
}
