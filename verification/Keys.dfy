// Object-store keys: how they are built (src/keys.rs) and what a listed key is
// (src/manage/mod.rs). Prefix is "" for a repository at the bucket root.
module Keys {
  import opened Base

  datatype ObjectMeta = ObjectMeta(key: string, lastModified: int)

  const PROTECTED_MARKER_SEGMENT := "PROTECTED#"
  const LOCK_SEGMENT := "LOCK#.lock"
  const SHA_WIDTH := 40

  // ---------------------------------------------------------------
  // Strings.
  // ---------------------------------------------------------------

  predicate StartsWith(s: string, p: string) {
    p <= s
  }

  predicate EndsWith(s: string, t: string) {
    |t| <= |s| && s[|s| - |t|..] == t
  }

  /** The order of strings: the smaller first character goes first, and a prefix before what it begins. */
  predicate Before(a: string, b: string) {
    b != "" && (a == "" || a[0] < b[0] || (a[0] == b[0] && Before(a[1..], b[1..])))
  }

  lemma {:induction false} BeforeIsTotal(a: string, b: string)
    ensures a == b || Before(a, b) || Before(b, a)
    ensures !(Before(a, b) && Before(b, a)) && !Before(a, a)
  {
    if a != "" && b != "" && a[0] == b[0] {
      BeforeIsTotal(a[1..], b[1..]);
      assert a == [a[0]] + a[1..] && b == [b[0]] + b[1..];
    }
    if a != "" {
      BeforeIsTotal(a[1..], a[1..]);
    }
  }

  lemma {:induction false} BeforeGoesOn(a: string, b: string, c: string)
    requires Before(a, b) && Before(b, c)
    ensures Before(a, c)
  {
    if a != "" && a[0] == b[0] == c[0] {
      BeforeGoesOn(a[1..], b[1..], c[1..]);
    }
  }

  predicate IsSorted(list: seq<string>) {
    forall i, j :: 0 <= i < j < |list| ==> Before(list[i], list[j])
  }

  /** There is one sorted list of the same strings. */
  lemma {:induction false} SortedIsOne(list: seq<string>, other: seq<string>)
    requires IsSorted(list) && IsSorted(other) && forall s :: s in list <==> s in other
    ensures list == other
  {
    if list == [] {
      assert forall i :: 0 <= i < |other| ==> other[i] in other;
    } else {
      assert list[0] in list && other != [];
      FirstIsLeast(list, other);
      FirstIsLeast(other, list);
      BeforeIsTotal(list[0], other[0]);
      assert list == [list[0]] + list[1..] && other == [other[0]] + other[1..];
      forall s ensures s in list[1..] <==> s in other[1..] {
        RestIsOthers(list, s);
        RestIsOthers(other, s);
      }
      SortedIsOne(list[1..], other[1..]);
    }
  }

  lemma FirstIsLeast(list: seq<string>, other: seq<string>)
    requires IsSorted(list) && list != [] && other != [] && other[0] in list
    ensures other[0] == list[0] || Before(list[0], other[0])
  {
  }

  lemma RestIsOthers(list: seq<string>, s: string)
    requires IsSorted(list) && list != []
    ensures s in list[1..] <==> s in list && s != list[0]
  {
    BeforeIsTotal(s, s);
    if i :| 0 <= i < |list| && list[i] == s && i > 0 {
      assert list[1..][i - 1] == s;
    }
  }

  predicate IsLeast(s: string, among: set<string>) {
    s in among && forall other :: other in among && other != s ==> Before(s, other)
  }

  lemma {:induction false} LeastExists(among: set<string>) returns (least: string)
    requires among != {}
    ensures IsLeast(least, among)
    decreases |among|
  {
    var s :| s in among;
    least := s;
    var rest := among - {s};
    if rest != {} {
      var next := LeastExists(rest);
      BeforeIsTotal(s, next);
      if Before(next, s) {
        least := next;
      } else {
        forall other | other in rest && other != next ensures Before(s, other) {
          BeforeGoesOn(s, next, other);
        }
      }
    }
  }

  /** `rsplit_once('/')`. */
  function RSplitOnce(s: string): (r: Option<(string, string)>)
    ensures r.Some? ==> s == r.value.0 + "/" + r.value.1 && '/' !in r.value.1
    ensures r.None? <==> '/' !in s
  {
    if s == [] then None
    else if s[|s| - 1] == '/' then Some((s[..|s| - 1], ""))
    else
      match RSplitOnce(s[..|s| - 1])
      case None => None
      case Some(halves) => Some((halves.0, halves.1 + [s[|s| - 1]]))
  }

  /** The part after the last slash, or the whole key. */
  function LastSegment(s: string): string {
    match RSplitOnce(s)
    case None => s
    case Some(halves) => halves.1
  }

  /** There is one way to split at the last slash. */
  lemma {:induction false} SplitIsUnique(dir: string, last: string)
    requires '/' !in last
    ensures RSplitOnce(dir + "/" + last) == Some((dir, last))
  {
    var s := dir + "/" + last;
    if last == "" {
      assert s[..|s| - 1] == dir;
    } else {
      var init := last[..|last| - 1];
      assert s[..|s| - 1] == dir + "/" + init;
      SplitIsUnique(dir, init);
      assert last == init + [last[|last| - 1]];
    }
  }

  // ---------------------------------------------------------------
  // Building keys.
  // ---------------------------------------------------------------

  /** `join`: no separator and no prefix when the prefix is empty. */
  function Join(prefix: string, suffix: string): string {
    if prefix == "" then suffix else prefix + "/" + suffix
  }

  /** `ref_listing_prefix`. */
  function RefListingPrefix(prefix: string, refPath: string): string {
    if prefix == "" then refPath + "/" else prefix + "/" + refPath + "/"
  }

  /** `bundle_key`. */
  function BundleKey(prefix: string, refPath: string, sha: string): string {
    if prefix == "" then refPath + "/" + sha + ".bundle" else prefix + "/" + refPath + "/" + sha + ".bundle"
  }

  /** `lock_key` (src/protocol/push.rs). */
  function LockKey(prefix: string, refPath: string): string {
    RefListingPrefix(prefix, refPath) + LOCK_SEGMENT
  }

  /** `protected_key`. */
  function ProtectedKey(prefix: string, refPath: string): string {
    RefListingPrefix(prefix, refPath) + PROTECTED_MARKER_SEGMENT
  }

  /** `chain_key` (src/packchain/keys.rs). */
  function ChainKey(prefix: string, refPath: string): string {
    RefListingPrefix(prefix, refPath) + "chain.json"
  }

  /** `baseline_tombstone_key` (src/packchain/gc.rs). */
  function TombstoneKey(prefix: string, runId: string): string {
    Join(prefix, "gc/baseline-tomb-" + runId + ".json")
  }

  /** `is_valid_bundle_stem`. */
  predicate IsValidBundleStem(stem: string) {
    |stem| == SHA_WIDTH && forall i :: 0 <= i < |stem| ==> '0' <= stem[i] <= '9' || 'a' <= stem[i] <= 'f'
  }

  // ---------------------------------------------------------------
  // Reading keys.
  // ---------------------------------------------------------------

  predicate IsProtectedMarkerSegment(last: string) {
    last == PROTECTED_MARKER_SEGMENT
  }

  predicate IsMarkerKey(key: string) {
    RSplitOnce(key).Some? && IsProtectedMarkerSegment(RSplitOnce(key).value.1)
  }

  /** `entries_have_protected_marker`. */
  predicate EntriesHaveProtectedMarker(entries: seq<ObjectMeta>) {
    exists i :: 0 <= i < |entries| && IsMarkerKey(entries[i].key)
  }

  /** `is_lock_key`. */
  predicate IsLockKey(key: string) {
    EndsWith(key, ".lock")
  }

  /** Neither a lock file nor a protection marker. */
  predicate CarriesData(key: string) {
    !IsLockKey(key) && !IsProtectedMarkerSegment(LastSegment(key))
  }

  /** `has_branch_data`. */
  predicate HasBranchData(entries: seq<ObjectMeta>) {
    exists i :: 0 <= i < |entries| && CarriesData(entries[i].key)
  }

  /** The marker key is a marker, and neither data nor a lock. */
  lemma MarkerKeyIsMarker(prefix: string, refPath: string)
    ensures IsMarkerKey(ProtectedKey(prefix, refPath)) && !IsLockKey(ProtectedKey(prefix, refPath))
    ensures !CarriesData(ProtectedKey(prefix, refPath))
    ensures StartsWith(ProtectedKey(prefix, refPath), RefListingPrefix(prefix, refPath))
  {
    var dir := if prefix == "" then refPath else prefix + "/" + refPath;
    var marker := ProtectedKey(prefix, refPath);
    assert marker == dir + "/" + PROTECTED_MARKER_SEGMENT;
    SplitIsUnique(dir, PROTECTED_MARKER_SEGMENT);
    assert marker[|marker| - 1] == '#';
    if EndsWith(marker, ".lock") {
      SuffixEnd(marker, ".lock");
    }
  }

  /** The lock key is a lock, and neither data nor a marker. */
  lemma LockKeyIsLock(prefix: string, refPath: string)
    ensures IsLockKey(LockKey(prefix, refPath)) && !IsMarkerKey(LockKey(prefix, refPath))
    ensures !CarriesData(LockKey(prefix, refPath))
    ensures StartsWith(LockKey(prefix, refPath), RefListingPrefix(prefix, refPath))
  {
    var dir := if prefix == "" then refPath else prefix + "/" + refPath;
    var lock := LockKey(prefix, refPath);
    assert lock == dir + "/" + LOCK_SEGMENT;
    SplitIsUnique(dir, LOCK_SEGMENT);
    EndsLikeTail(dir + "/", LOCK_SEGMENT, ".lock");
    assert LOCK_SEGMENT[4] != PROTECTED_MARKER_SEGMENT[4];
  }

  lemma TailCancels(a: string, b: string, t: string)
    requires a + t == b + t
    ensures a == b
  {
    assert (a + t)[..|a|] == a && (b + t)[..|b|] == b;
  }

  lemma JoinIsInjective(prefix: string, a: string, b: string)
    requires Join(prefix, a) == Join(prefix, b)
    ensures a == b
  {
    if prefix != "" {
      assert Join(prefix, a)[|prefix + "/"|..] == a && Join(prefix, b)[|prefix + "/"|..] == b;
    }
  }

  lemma EndsLikeTail(a: string, b: string, t: string)
    requires EndsWith(b, t)
    ensures EndsWith(a + b, t)
  {
    assert (a + b)[|a| + |b| - |t|..] == b[|b| - |t|..];
  }

  lemma SuffixEnd(s: string, t: string)
    requires EndsWith(s, t) && t != ""
    ensures s[|s| - 1] == t[|t| - 1]
  {
    assert s[|s| - |t|..][|t| - 1] == s[|s| - 1];
  }

  lemma BundleKeyParts(prefix: string, ref: string, sha: string)
    ensures BundleKey(prefix, ref, sha) == Join(prefix, ref) + "/" + (sha + ".bundle")
  {
    Associates(Join(prefix, ref) + "/", sha, ".bundle");
  }

  /** A bundle key names its ref and its commit. */
  lemma BundleKeyDeterminesParts(prefix: string, ref1: string, sha1: string, ref2: string, sha2: string)
    requires IsValidBundleStem(sha1) && IsValidBundleStem(sha2)
    requires BundleKey(prefix, ref1, sha1) == BundleKey(prefix, ref2, sha2)
    ensures ref1 == ref2 && sha1 == sha2
  {
    assert forall i :: 0 <= i < |sha1| ==> sha1[i] != '/' && sha2[i] != '/';
    BundleKeyParts(prefix, ref1, sha1);
    BundleKeyParts(prefix, ref2, sha2);
    SplitIsUnique(Join(prefix, ref1), sha1 + ".bundle");
    SplitIsUnique(Join(prefix, ref2), sha2 + ".bundle");
    var base := if prefix == "" then "" else prefix + "/";
    assert Join(prefix, ref1)[|base|..] == ref1 && Join(prefix, ref2)[|base|..] == ref2;
    assert (sha1 + ".bundle")[..SHA_WIDTH] == sha1 && (sha2 + ".bundle")[..SHA_WIDTH] == sha2;
  }
}
