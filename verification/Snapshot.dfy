// From a listing to the state of a repository (src/manage/snapshot.rs).
module Snapshot {
  import opened Base
  import opened Keys
  import opened Store

  // ---------------------------------------------------------------
  // What one key says.
  // ---------------------------------------------------------------

  datatype BundleEntry = BundleEntry(sha: string, key: string, lastModified: int)

  datatype MalformedBundleKey = MalformedBundleKey(refPath: string, key: string)

  datatype Item =
    | Marker(ref: string)
    | Bundle(ref: string, entry: BundleEntry)
    | Malformed(bad: MalformedBundleKey)
    | Chain(ref: string)

  /** `<prefix>/`, or nothing at the bucket root. */
  function ListPrefix(prefix: string): string {
    Join(prefix, "")
  }

  function HeadKey(prefix: string): string {
    Join(prefix, "HEAD")
  }

  /** `is_bookkeeping_dir`. */
  predicate IsBookkeepingDir(relative: string) {
    StartsWith(relative, "gc/") || StartsWith(relative, "lfs/") || StartsWith(relative, "packs/")
  }

  /** The branches of `classify_into` on the last segment of a key under a ref. */
  function ReadLast(ref: string, last: string, meta: ObjectMeta): Option<Item> {
    if IsLockKey(last) || last == "repo.zip" then None
    else if IsProtectedMarkerSegment(last) then Some(Marker(ref))
    else if EndsWith(last, ".bundle") then
      var stem := last[..|last| - 7];
      if IsValidBundleStem(stem) then Some(Bundle(ref, BundleEntry(stem, meta.key, meta.lastModified)))
      else Some(Malformed(MalformedBundleKey(ref, meta.key)))
    else if last == "chain.json" then Some(Chain(ref))
    else None
  }

  function ItemAt(relative: string, meta: ObjectMeta): Option<Item> {
    if IsBookkeepingDir(relative) then None
    else
      match RSplitOnce(relative)
      case None => None
      case Some(halves) => ReadLast(halves.0, halves.1, meta)
  }

  function ItemOf(prefix: string, hidden: set<string>, meta: ObjectMeta): Option<Item> {
    if meta.key in hidden || !StartsWith(meta.key, ListPrefix(prefix)) then None
    else ItemAt(meta.key[|ListPrefix(prefix)|..], meta)
  }

  /** Everything a listing says, in listing order. */
  function Items(prefix: string, hidden: set<string>, objects: seq<ObjectMeta>): seq<Item> {
    if objects == [] then []
    else
      var rest := Items(prefix, hidden, objects[..|objects| - 1]);
      match ItemOf(prefix, hidden, objects[|objects| - 1])
      case None => rest
      case Some(item) => rest + [item]
  }

  function BundlesOf(items: seq<Item>, ref: string): seq<BundleEntry> {
    if items == [] then []
    else
      var rest := BundlesOf(items[..|items| - 1], ref);
      match items[|items| - 1]
      case Bundle(r, entry) => if r == ref then rest + [entry] else rest
      case _ => rest
  }

  function MalformedOf(items: seq<Item>): seq<MalformedBundleKey> {
    if items == [] then []
    else
      var rest := MalformedOf(items[..|items| - 1]);
      match items[|items| - 1]
      case Malformed(bad) => rest + [bad]
      case _ => rest
  }

  // ---------------------------------------------------------------
  // HEAD.
  // ---------------------------------------------------------------

  /** The code points with the Unicode White_Space property. */
  predicate IsWhitespace(c: char) {
    || '\U{0009}' <= c <= '\U{000D}' || c == '\U{0020}' || c == '\U{0085}' || c == '\U{00A0}' || c == '\U{1680}'
    || '\U{2000}' <= c <= '\U{200A}' || c == '\U{2028}' || c == '\U{2029}' || c == '\U{202F}' || c == '\U{205F}'
         || c == '\U{3000}'
  }

  function TrimStart(s: string): string {
    if s != "" && IsWhitespace(s[0]) then TrimStart(s[1..]) else s
  }

  function TrimEnd(s: string): string {
    if s != "" && IsWhitespace(s[|s| - 1]) then TrimEnd(s[..|s| - 1]) else s
  }

  function Trim(s: string): string {
    TrimEnd(TrimStart(s))
  }

  predicate HasOuterWhitespace(s: string) {
    s != "" && (IsWhitespace(s[0]) || IsWhitespace(s[|s| - 1]))
  }

  /** Trimming changes exactly the strings with whitespace at an end. */
  lemma {:induction false} TrimIsIdentityIff(s: string)
    ensures Trim(s) == s <==> !HasOuterWhitespace(s)
  {
    if HasOuterWhitespace(s) {
      TrimShortens(TrimStart(s));
      TrimShortens(s[1..]);
      TrimShortens(s[..|s| - 1]);
    }
  }

  /** It takes the whitespace at both ends and nothing else. */
  lemma TrimIs(before: string, s: string, after: string)
    requires IsBlank(before) && IsBlank(after) && !HasOuterWhitespace(s)
    ensures Trim(before + s + after) == s
  {
    if s == "" {
      BlankIsTrimmed(before + after);
      assert before + s + after == before + after;
    } else {
      TrimsStart(before, s + after);
      assert before + s + after == before + (s + after);
      TrimsEnd(s, after);
    }
  }

  predicate IsBlank(s: string) {
    forall i :: 0 <= i < |s| ==> IsWhitespace(s[i])
  }

  lemma {:induction false} BlankIsTrimmed(s: string)
    requires IsBlank(s)
    ensures TrimStart(s) == ""
  {
    if s != "" {
      BlankIsTrimmed(s[1..]);
    }
  }

  lemma {:induction false} TrimsStart(before: string, s: string)
    requires IsBlank(before) && s != "" && !IsWhitespace(s[0])
    ensures TrimStart(before + s) == s
  {
    if before == "" {
      assert before + s == s;
    } else {
      TrimsStart(before[1..], s);
      assert (before + s)[1..] == before[1..] + s;
    }
  }

  lemma {:induction false} TrimsEnd(s: string, after: string)
    requires IsBlank(after) && s != "" && !IsWhitespace(s[|s| - 1])
    ensures TrimEnd(s + after) == s
  {
    if after == "" {
      assert s + after == s;
    } else {
      var n := |after| - 1;
      TrimsEnd(s, after[..n]);
      assert (s + after)[..|s + after| - 1] == s + after[..n];
    }
  }

  lemma {:induction false} TrimShortens(s: string)
    ensures |TrimStart(s)| <= |s| && |TrimEnd(s)| <= |s|
    decreases |s|
  {
    if s != "" {
      TrimShortens(s[1..]);
      TrimShortens(s[..|s| - 1]);
    }
  }

  /** What HEAD names: its trimmed text, if it is text and anything is left. */
  function DecodeHead(body: Body): Option<string> {
    match body
    case NotUtf8(_) => None
    case Utf8(text) => if Trim(text) == "" then None else Some(Trim(text))
  }

  /** A name written to HEAD is read back as itself unless it is empty or has whitespace at an end. */
  lemma HeadReadsBackIff(name: string)
    ensures DecodeHead(Utf8(name)) == Some(name) <==> name != "" && !HasOuterWhitespace(name)
  {
    TrimIsIdentityIff(name);
  }

  // ---------------------------------------------------------------
  // Facts about what a listing says.
  // ---------------------------------------------------------------

  lemma BundleReadsBack(ref: string, sha: string, meta: ObjectMeta)
    requires IsValidBundleStem(sha)
    ensures ReadLast(ref, sha + ".bundle", meta) == Some(Bundle(ref, BundleEntry(sha, meta.key, meta.lastModified)))
    ensures '/' !in sha + ".bundle"
  {
    var last := sha + ".bundle";
    assert last[|last| - 7..] == ".bundle" && last[..|last| - 7] == sha;
    assert last[|last| - 1] == 'e' && sha[0] == last[0];
    if IsLockKey(last) {
      SuffixEnd(last, ".lock");
    }
  }

  lemma LastNamesItem(ref: string, last: string, meta: ObjectMeta)
    requires ReadLast(ref, last, meta).Some?
    ensures !IsLockKey(last)
    ensures match ReadLast(ref, last, meta).value
            case Bundle(r, entry) =>
              && r == ref && last == entry.sha + ".bundle" && IsValidBundleStem(entry.sha)
              && entry.key == meta.key && entry.lastModified == meta.lastModified
            case Chain(r) => r == ref && last == "chain.json"
            case Marker(r) => r == ref && last == PROTECTED_MARKER_SEGMENT
            case Malformed(bad) => bad == MalformedBundleKey(ref, meta.key)
  {
    if EndsWith(last, ".bundle") {
      assert last == last[..|last| - 7] + ".bundle";
    }
  }

  /** The key of a ref's last segment, and its relative part. */
  function KeyUnder(prefix: string, ref: string, last: string): (key: string)
    ensures StartsWith(key, ListPrefix(prefix)) && key[|ListPrefix(prefix)|..] == ref + "/" + last
  {
    ListPrefix(prefix) + (ref + "/" + last)
  }

  lemma KeyUnderIs(prefix: string, ref: string, last: string)
    ensures KeyUnder(prefix, ref, last) == RefListingPrefix(prefix, ref) + last
  {
    Associates(ListPrefix(prefix), ref + "/", last);
    Associates(ListPrefix(prefix), ref, "/");
  }

  lemma BundleKeyUnder(prefix: string, ref: string, sha: string)
    ensures BundleKey(prefix, ref, sha) == KeyUnder(prefix, ref, sha + ".bundle")
  {
    KeyUnderIs(prefix, ref, sha + ".bundle");
    Associates(RefListingPrefix(prefix, ref), sha, ".bundle");
  }

  /** A bundle key reads back as its ref and commit. */
  lemma BundleKeyReadsBack(prefix: string, hidden: set<string>, ref: string, sha: string, meta: ObjectMeta)
    requires IsValidBundleStem(sha) && meta.key == BundleKey(prefix, ref, sha) && meta.key !in hidden
    requires !IsBookkeepingDir(ref + "/" + (sha + ".bundle"))
    ensures ItemOf(prefix, hidden, meta) == Some(Bundle(ref, BundleEntry(sha, meta.key, meta.lastModified)))
  {
    var last := sha + ".bundle";
    BundleKeyUnder(prefix, ref, sha);
    BundleReadsBack(ref, sha, meta);
    SplitIsUnique(ref, last);
  }

  /** What an item says about its key: the other way round. */
  lemma ItemNamesItsKey(prefix: string, hidden: set<string>, meta: ObjectMeta)
    requires ItemOf(prefix, hidden, meta).Some?
    ensures match ItemOf(prefix, hidden, meta).value
            case Bundle(ref, entry) =>
              && meta.key == BundleKey(prefix, ref, entry.sha) && IsValidBundleStem(entry.sha)
              && entry.key == meta.key && entry.lastModified == meta.lastModified
            case Chain(ref) => meta.key == ChainKey(prefix, ref)
            case Marker(ref) => meta.key == ProtectedKey(prefix, ref)
            case Malformed(bad) => bad.key == meta.key
  {
    var relative := meta.key[|ListPrefix(prefix)|..];
    var (ref, last) := RSplitOnce(relative).value;
    KeyUnderIs(prefix, ref, last);
    assert meta.key == ListPrefix(prefix) + relative == RefListingPrefix(prefix, ref) + last;
    assert ItemOf(prefix, hidden, meta) == ReadLast(ref, last, meta);
    LastNamesItem(ref, last, meta);
    match ReadLast(ref, last, meta).value
    case Bundle(_, entry) => BundleKeyUnder(prefix, ref, entry.sha);
    case _ =>
  }

  // ---------------------------------------------------------------
  // The snapshot.
  // ---------------------------------------------------------------

  datatype RefSnapshot = RefSnapshot(isProtected: bool, bundles: seq<BundleEntry>, hasChain: bool) {
    predicate HasBranchData() {
      bundles != [] || hasChain
    }
  }

  const EMPTY_REF := RefSnapshot(false, [], false)

  /** The entry of a ref is what the items say about it. */
  predicate RefShows(r: RefSnapshot, items: seq<Item>, ref: string) {
    && r.isProtected == (Marker(ref) in items)
    && r.bundles == BundlesOf(items, ref)
    && r.hasChain == (Chain(ref) in items)
  }

  function EntryOf(refs: map<string, RefSnapshot>, ref: string): RefSnapshot {
    if ref in refs then refs[ref] else EMPTY_REF
  }

  /** Refs without an entry are refs nothing is said about. */
  ghost predicate RefsShow(refs: map<string, RefSnapshot>, items: seq<Item>) {
    forall ref :: RefShows(EntryOf(refs, ref), items, ref) && (ref in refs ==> EntryOf(refs, ref) != EMPTY_REF)
  }

  lemma OneMoreItem(items: seq<Item>, item: Item)
    ensures (items + [item])[..|items|] == items
    ensures MalformedOf(items + [item]) == MalformedOf(items) + (if item.Malformed? then [item.bad] else [])
    ensures forall ref :: BundlesOf(items + [item], ref) ==
                            BundlesOf(items, ref) + (if item.Bundle? && item.ref == ref then [item.entry] else [])
    ensures forall other: Item :: other in items + [item] <==> other in items || other == item
  {
    assert (items + [item])[..|items|] == items;
  }

  /** What one more item says about a ref. */
  function WithSaid(r: RefSnapshot, item: Item, ref: string): RefSnapshot {
    match item
    case Marker(q) => if q == ref then r.(isProtected := true) else r
    case Bundle(q, entry) => if q == ref then r.(bundles := r.bundles + [entry]) else r
    case Malformed(_) => r
    case Chain(q) => if q == ref then r.(hasChain := true) else r
  }

  lemma SaidShows(r: RefSnapshot, items: seq<Item>, item: Item, ref: string)
    requires RefShows(r, items, ref)
    ensures RefShows(WithSaid(r, item, ref), items + [item], ref)
  {
    OneMoreItem(items, item);
  }

  /** One more entry shows one more item. */
  lemma EntryShows(refs: map<string, RefSnapshot>, items: seq<Item>, item: Item)
    requires RefsShow(refs, items) && !item.Malformed?
    ensures RefsShow(refs[item.ref := WithSaid(EntryOf(refs, item.ref), item, item.ref)], items + [item])
  {
    var refs' := refs[item.ref := WithSaid(EntryOf(refs, item.ref), item, item.ref)];
    forall ref
      ensures RefShows(EntryOf(refs', ref), items + [item], ref) && (ref in refs' ==> EntryOf(refs', ref) != EMPTY_REF)
    {
      assert RefShows(EntryOf(refs, ref), items, ref);
      SaidShows(EntryOf(refs, ref), items, item, ref);
    }
  }

  /** A malformed key changes no entry. */
  lemma MalformedShows(refs: map<string, RefSnapshot>, items: seq<Item>, item: Item)
    requires RefsShow(refs, items) && item.Malformed?
    ensures RefsShow(refs, items + [item])
  {
    forall ref ensures RefShows(EntryOf(refs, ref), items + [item], ref) {
      assert RefShows(EntryOf(refs, ref), items, ref);
      SaidShows(EntryOf(refs, ref), items, item, ref);
    }
  }

  function WithItem(items: seq<Item>, item: Option<Item>): seq<Item> {
    match item
    case None => items
    case Some(it) => items + [it]
  }

  /** HEAD names a ref with branch data. */
  predicate HeadValid(head: Option<string>, refs: map<string, RefSnapshot>) {
    head.Some? && head.value in refs && refs[head.value].HasBranchData()
  }

  class RepoSnapshot {
    var head: Option<string>
    var refs: map<string, RefSnapshot>
    var malformed: seq<MalformedBundleKey>

    constructor ()
      ensures head == None && Shows([])
    {
      head, refs, malformed := None, map[], [];
    }

    ghost predicate Shows(items: seq<Item>)
      reads this
    {
      RefsShow(refs, items) && malformed == MalformedOf(items)
    }

    predicate IsHeadValid()
      reads this
    {
      HeadValid(head, refs)
    }

    /** Slot one item in. */
    method Insert(item: Item, ghost items: seq<Item>)
      requires Shows(items)
      modifies this`refs, this`malformed
      ensures Shows(items + [item])
    {
      OneMoreItem(items, item);
      if item.Malformed? {
        MalformedShows(refs, items, item);
      } else {
        EntryShows(refs, items, item);
      }
      match item
      case Marker(ref) => refs := refs[ref := EntryOf(refs, ref).(isProtected := true)];
      case Bundle(ref, entry) =>
        refs := refs[ref := EntryOf(refs, ref).(bundles := EntryOf(refs, ref).bundles + [entry])];
      case Malformed(bad) => malformed := malformed + [bad];
      case Chain(ref) => refs := refs[ref := EntryOf(refs, ref).(hasChain := true)];
    }

    /** The branch of `classify_into` for HEAD: fetch its body and decode it. */
    method FetchHead(store: ObjectStore, key: string) returns (r: Reply<Done>)
      requires store.Valid()
      modifies this`head, store
      ensures store.Valid() && OnlyFetched(old(store.log), store.log)
      ensures |store.log| == |old(store.log)| + 1
      ensures store.quiet ==> store.bucket == old(store.bucket)
      ensures r.Err? && store.quiet && key in store.bucket ==> !FaultFree(old(store.log), store.log)
      ensures r.Ok? && store.quiet ==> key in store.bucket && head == DecodeHead(store.bucket[key].body)
    {
      var body := store.GetBytes(key);
      match body
      case Err(NotFound) => r := Err(NotFound);
      case Err(OtherError) => r := Err(OtherError);
      case Ok(octets) =>
        head := DecodeHead(octets);
        r := Ok(Done);
    }

    /**
     * `classify_into`: slot one listed object in. HEAD's body is fetched; a key that is
     * neither HEAD nor under a ref, and every lock or archive, is left out.
     */
    method ClassifyInto(store: ObjectStore, prefix: string, meta: ObjectMeta, ghost hidden: set<string>,
                        ghost items: seq<Item>)
      returns (r: Reply<Done>)
      requires store.Valid() && Shows(items) && meta.key !in hidden
      modifies this, store
      ensures store.Valid() && OnlyFetched(old(store.log), store.log)
      ensures |store.log| == |old(store.log)| + (if meta.key == HeadKey(prefix) then 1 else 0)
      ensures store.quiet ==> store.bucket == old(store.bucket)
      ensures r.Err? && store.quiet && meta.key in store.bucket ==> !FaultFree(old(store.log), store.log)
      ensures r.Ok? ==> Shows(WithItem(items, ItemOf(prefix, hidden, meta)))
      ensures r.Ok? && meta.key != HeadKey(prefix) ==> head == old(head)
      ensures r.Ok? && meta.key == HeadKey(prefix) && store.quiet ==>
                meta.key in store.bucket && head == DecodeHead(store.bucket[meta.key].body)
    {
      r := Ok(Done);
      var listPrefix := ListPrefix(prefix);
      HeadKeyIs(prefix, meta.key);
      if !StartsWith(meta.key, listPrefix) {
        return;
      }
      var relative := meta.key[|listPrefix|..];
      if relative == "HEAD" {
        r := FetchHead(store, meta.key);
        return;
      }
      if IsBookkeepingDir(relative) {
        return;
      }
      var split := RSplitOnce(relative);
      if split.None? {
        return;
      }
      var item := ReadLast(split.value.0, split.value.1, meta);
      if item.Some? {
        Insert(item.value, items);
      }
    }
  }

  lemma HeadKeyIs(prefix: string, key: string)
    ensures key == HeadKey(prefix) <==> StartsWith(key, ListPrefix(prefix)) && key[|ListPrefix(prefix)|..] == "HEAD"
    ensures RSplitOnce("HEAD") == None
  {
    var base := ListPrefix(prefix);
    assert HeadKey(prefix) == base + "HEAD";
    if StartsWith(key, base) {
      assert key == base + key[|base|..];
    }
    assert HeadKey(prefix)[|base|..] == "HEAD";
  }

  /** The first `i` objects are folded in: what the snapshot shows, and what was asked since `was`. */
  ghost predicate Folded(snapshot: RepoSnapshot, store: ObjectStore, prefix: string, hidden: set<string>,
                         objects: seq<ObjectMeta>, i: nat, was: seq<Event>, start: Bucket)
    requires i <= |objects|
    reads snapshot, store
  {
    && store.Valid() && OnlyFetched(was, store.log) && (store.quiet ==> store.bucket == start)
    && snapshot.Shows(Items(prefix, hidden, objects[..i]))
    && |store.log| == |was| + HeadsListed(prefix, hidden, objects[..i])
    && (store.quiet ==> snapshot.head == HeadIn(prefix, hidden, objects[..i], start))
  }

  /** One turn of the fold: a hidden object is passed over, any other is classified. */
  method FoldObject(snapshot: RepoSnapshot, store: ObjectStore, prefix: string, hidden: set<string>,
                    objects: seq<ObjectMeta>, i: nat, ghost was: seq<Event>, ghost start: Bucket)
    returns (r: Reply<Done>)
    requires i < |objects| && Folded(snapshot, store, prefix, hidden, objects, i, was, start)
    modifies store, snapshot
    ensures store.Valid() && OnlyFetched(was, store.log) && (store.quiet ==> store.bucket == start)
    ensures r.Ok? ==> Folded(snapshot, store, prefix, hidden, objects, i + 1, was, start)
    ensures r.Err? && store.quiet && objects[i].key in start ==> !FaultFree(was, store.log)
  {
    OneMoreObject(prefix, hidden, objects, i, start);
    if objects[i].key in hidden {
      return Ok(Done);
    }
    ghost var items, log := Items(prefix, hidden, objects[..i]), store.log;
    r := snapshot.ClassifyInto(store, prefix, objects[i], hidden, items);
    FetchedMore(was, log, store.log);
    ExtendsFurther(was, log, store.log);
  }

  /** `analyze_objects`: fold a listing, hidden bundles aside. */
  method AnalyzeObjects(store: ObjectStore, prefix: string, hidden: set<string>, objects: seq<ObjectMeta>)
    returns (r: Reply<Done>, snapshot: RepoSnapshot)
    requires store.Valid()
    modifies store
    ensures store.Valid() && OnlyFetched(old(store.log), store.log)
    ensures store.quiet ==> store.bucket == old(store.bucket)
    ensures fresh(snapshot)
    ensures r.Ok? ==> |store.log| == |old(store.log)| + HeadsListed(prefix, hidden, objects)
    ensures r.Err? && store.quiet && (forall i :: 0 <= i < |objects| ==> objects[i].key in store.bucket)
            ==> !FaultFree(old(store.log), store.log)
    ensures r.Ok? ==> snapshot.Shows(Items(prefix, hidden, objects))
    ensures r.Ok? && store.quiet ==> snapshot.head == HeadIn(prefix, hidden, objects, store.bucket)
  {
    r := Ok(Done);
    snapshot := new RepoSnapshot();
    for i := 0 to |objects|
      invariant r.Ok? && fresh(snapshot)
      invariant Folded(snapshot, store, prefix, hidden, objects, i, old(store.log), old(store.bucket))
    {
      r := FoldObject(snapshot, store, prefix, hidden, objects, i, old(store.log), old(store.bucket));
      if r.Err? {
        return;
      }
    }
    assert objects[..|objects|] == objects;
  }

  /** How often HEAD is listed and visible. */
  function HeadsListed(prefix: string, hidden: set<string>, objects: seq<ObjectMeta>): nat {
    if objects == [] then 0
    else
      var last := objects[|objects| - 1];
      HeadsListed(prefix, hidden, objects[..|objects| - 1])
          + (if last.key == HeadKey(prefix) && last.key !in hidden then 1 else 0)
  }

  /** A listing has it once at most, so it is fetched once at most. */
  lemma {:induction false} HeadIsListedOnce(prefix: string, hidden: set<string>, objects: seq<ObjectMeta>)
    requires DistinctKeys(objects)
    ensures HeadsListed(prefix, hidden, objects)
              == if Lists(objects, HeadKey(prefix)) && HeadKey(prefix) !in hidden then 1 else 0
  {
    if objects != [] {
      var init, last := objects[..|objects| - 1], objects[|objects| - 1];
      HeadIsListedOnce(prefix, hidden, init);
      ListsMore(init, last);
      assert objects == init + [last];
    }
  }

  lemma OneMoreObject(prefix: string, hidden: set<string>, objects: seq<ObjectMeta>, i: nat, bucket: Bucket)
    requires i < |objects|
    ensures Items(prefix, hidden, objects[..i + 1])
              == WithItem(Items(prefix, hidden, objects[..i]), ItemOf(prefix, hidden, objects[i]))
    ensures HeadIn(prefix, hidden, objects[..i + 1], bucket) ==
              if objects[i].key != HeadKey(prefix) then HeadIn(prefix, hidden, objects[..i], bucket)
              else if HeadKey(prefix) !in hidden && HeadKey(prefix) in bucket
              then DecodeHead(bucket[HeadKey(prefix)].body)
              else None
    ensures HeadsListed(prefix, hidden, objects[..i + 1]) ==
              HeadsListed(prefix, hidden, objects[..i])
                  + (if objects[i].key == HeadKey(prefix) && objects[i].key !in hidden then 1 else 0)
  {
    assert objects[..i + 1] == objects[..i] + [objects[i]] && objects[..i + 1][..i] == objects[..i];
    ListsMore(objects[..i], objects[i]);
  }

  /** HEAD as the snapshot shows it: absent unless the listing has the object. */
  function HeadIn(prefix: string, hidden: set<string>, objects: seq<ObjectMeta>, bucket: Bucket): Option<string> {
    if Lists(objects, HeadKey(prefix)) && HeadKey(prefix) !in hidden && HeadKey(prefix) in bucket
    then DecodeHead(bucket[HeadKey(prefix)].body) else None
  }

  // ---------------------------------------------------------------
  // What the snapshot means for the listing.
  // ---------------------------------------------------------------

  /** The readings of a listing, given what each object reads as. */
  function Collect(reading: map<ObjectMeta, Option<Item>>, objects: seq<ObjectMeta>): seq<Item>
    requires forall o :: o in objects ==> o in reading
  {
    if objects == [] then [] else WithItem(Collect(reading, objects[..|objects| - 1]), reading[objects[|objects| - 1]])
  }

  function Readings(prefix: string, hidden: set<string>, objects: seq<ObjectMeta>): map<ObjectMeta, Option<Item>> {
    map o | o in objects :: ItemOf(prefix, hidden, o)
  }

  lemma {:induction false} ItemsAreCollected(prefix: string, hidden: set<string>, objects: seq<ObjectMeta>,
                                             reading: map<ObjectMeta, Option<Item>>)
    requires forall o :: o in objects ==> o in reading
    requires forall o :: o in objects ==> reading[o] == ItemOf(prefix, hidden, o)
    ensures Items(prefix, hidden, objects) == Collect(reading, objects)
  {
    if objects != [] {
      assert objects[|objects| - 1] in objects;
      ItemsAreCollected(prefix, hidden, objects[..|objects| - 1], reading);
    }
  }

  lemma {:induction false} CollectedIsRead(reading: map<ObjectMeta, Option<Item>>, objects: seq<ObjectMeta>, item: Item)
    requires forall o :: o in objects ==> o in reading
    ensures item in Collect(reading, objects) <==> exists i :: 0 <= i < |objects| && reading[objects[i]] == Some(item)
  {
    if objects != [] {
      var n := |objects| - 1;
      CollectedIsRead(reading, objects[..n], item);
      assert forall i :: 0 <= i < n ==> objects[..n][i] == objects[i];
    }
  }

  lemma {:induction false} CollectParts(reading: map<ObjectMeta, Option<Item>>, a: seq<ObjectMeta>, b: seq<ObjectMeta>)
    requires forall o :: o in a + b ==> o in reading
    ensures Collect(reading, a + b) == Collect(reading, a) + Collect(reading, b)
  {
    if b == [] {
      assert a + b == a;
    } else {
      var n := |b| - 1;
      assert (a + b)[..|a| + n] == a + b[..n] && b == b[..n] + [b[n]];
      CollectParts(reading, a, b[..n]);
    }
  }

  lemma CollectMiddle(reading: map<ObjectMeta, Option<Item>>, x: seq<ObjectMeta>, o: ObjectMeta, y: seq<ObjectMeta>)
    requires o in reading && forall p :: p in x + y ==> p in reading
    ensures multiset(Collect(reading, x + ([o] + y))) == multiset(WithItem(Collect(reading, x + y), reading[o]))
  {
    CollectParts(reading, x, y);
    CollectParts(reading, x, [o] + y);
    CollectParts(reading, [o], y);
  }

  lemma WithoutLast(init: seq<ObjectMeta>, last: ObjectMeta, objects: seq<ObjectMeta>)
    requires objects == init + [last]
    ensures multiset(init) == multiset(objects) - multiset{last}
  {
  }

  lemma WithoutMiddle(x: seq<ObjectMeta>, o: ObjectMeta, y: seq<ObjectMeta>)
    ensures multiset(x + y) == multiset(x + ([o] + y)) - multiset{o}
  {
  }

  lemma {:induction false} CollectUpToOrder(reading: map<ObjectMeta, Option<Item>>, objects: seq<ObjectMeta>,
                                            objects': seq<ObjectMeta>)
    requires multiset(objects) == multiset(objects')
    requires forall o :: o in objects ==> o in reading
    requires forall o :: o in objects' ==> o in reading
    ensures multiset(Collect(reading, objects)) == multiset(Collect(reading, objects'))
    decreases |objects|
  {
    if objects == [] {
      assert |multiset(objects)| == 0 == |multiset(objects')|;
    } else {
      var n, last := |objects| - 1, objects[|objects| - 1];
      assert objects == objects[..n] + [last];
      assert last in multiset(objects');
      var j :| 0 <= j < |objects'| && objects'[j] == last;
      var x, y := objects'[..j], objects'[j + 1..];
      assert objects' == x + ([last] + y);
      assert multiset(objects[..n]) == multiset(x + y) by {
        WithoutLast(objects[..n], last, objects);
        WithoutMiddle(x, last, y);
      }
      CollectUpToOrder(reading, objects[..n], x + y);
      CollectMiddle(reading, x, last, y);
    }
  }

  lemma ItemIsListed(prefix: string, hidden: set<string>, objects: seq<ObjectMeta>, item: Item)
    ensures item in Items(prefix, hidden, objects) <==>
              exists i :: 0 <= i < |objects| && ItemOf(prefix, hidden, objects[i]) == Some(item)
  {
    var reading := Readings(prefix, hidden, objects);
    ItemsAreCollected(prefix, hidden, objects, reading);
    CollectedIsRead(reading, objects, item);
  }

  lemma {:induction false} BundleCount(items: seq<Item>, ref: string, entry: BundleEntry)
    ensures multiset(BundlesOf(items, ref))[entry] == multiset(items)[Bundle(ref, entry)]
  {
    if items != [] {
      BundleCount(items[..|items| - 1], ref, entry);
      assert items == items[..|items| - 1] + [items[|items| - 1]];
    }
  }

  lemma {:induction false} MalformedCount(items: seq<Item>, bad: MalformedBundleKey)
    ensures multiset(MalformedOf(items))[bad] == multiset(items)[Malformed(bad)]
  {
    if items != [] {
      MalformedCount(items[..|items| - 1], bad);
      assert items == items[..|items| - 1] + [items[|items| - 1]];
    }
  }

  /** A ref has an entry exactly when a visible marker, well-formed bundle or manifest is listed under it. */
  lemma EntryIffMentioned(refs: map<string, RefSnapshot>, prefix: string, hidden: set<string>,
                          objects: seq<ObjectMeta>, ref: string)
    requires RefsShow(refs, Items(prefix, hidden, objects))
    ensures ref in refs <==>
              exists i :: 0 <= i < |objects| && GivesEntry(ItemOf(prefix, hidden, objects[i]), ref)
  {
    var items := Items(prefix, hidden, objects);
    if ref in refs {
      var item := WhatGivesEntry(refs, items, ref);
      ItemIsListed(prefix, hidden, objects, item);
      assert GivesEntry(Some(item), ref);
    }
    if i :| 0 <= i < |objects| && GivesEntry(ItemOf(prefix, hidden, objects[i]), ref) {
      var item := ItemOf(prefix, hidden, objects[i]).value;
      ItemIsListed(prefix, hidden, objects, item);
      ItemGivesEntry(refs, items, ref, item);
    }
  }

  lemma WhatGivesEntry(refs: map<string, RefSnapshot>, items: seq<Item>, ref: string) returns (item: Item)
    requires RefsShow(refs, items) && ref in refs
    ensures item in items && GivesEntry(Some(item), ref)
  {
    var r := EntryOf(refs, ref);
    assert RefShows(r, items, ref);
    item := if r.isProtected then Marker(ref) else if r.hasChain then Chain(ref) else Bundle(ref, r.bundles[0]);
    if item.Bundle? {
      BundleIsItem(items, ref, r.bundles[0]);
    }
  }

  lemma ItemGivesEntry(refs: map<string, RefSnapshot>, items: seq<Item>, ref: string, item: Item)
    requires RefsShow(refs, items) && item in items && GivesEntry(Some(item), ref)
    ensures ref in refs
  {
    assert RefShows(EntryOf(refs, ref), items, ref);
    if item.Bundle? {
      BundleIsItem(items, ref, item.entry);
    }
  }

  predicate GivesEntry(item: Option<Item>, ref: string) {
    item.Some? && !item.value.Malformed? && item.value.ref == ref
  }

  /** Listing the same objects in another order shows the same repository, lists up to order. */
  lemma OrderDoesNotMatter(prefix: string, hidden: set<string>, objects: seq<ObjectMeta>, objects': seq<ObjectMeta>,
                           refs: map<string, RefSnapshot>, refs': map<string, RefSnapshot>)
    requires multiset(objects) == multiset(objects')
    requires RefsShow(refs, Items(prefix, hidden, objects)) && RefsShow(refs', Items(prefix, hidden, objects'))
    ensures forall ref :: ref in refs <==> ref in refs'
    ensures forall ref :: SameUpToOrder(EntryOf(refs, ref), EntryOf(refs', ref))
    ensures multiset(MalformedOf(Items(prefix, hidden, objects)))
              == multiset(MalformedOf(Items(prefix, hidden, objects')))
    ensures forall bucket :: HeadIn(prefix, hidden, objects, bucket) == HeadIn(prefix, hidden, objects', bucket)
  {
    ItemsUpToOrder(prefix, hidden, objects, objects');
    SameSnapshot(refs, refs', Items(prefix, hidden, objects), Items(prefix, hidden, objects'));
    SameKeysListed(objects, objects', HeadKey(prefix));
  }

  lemma ItemsUpToOrder(prefix: string, hidden: set<string>, objects: seq<ObjectMeta>, objects': seq<ObjectMeta>)
    requires multiset(objects) == multiset(objects')
    ensures multiset(Items(prefix, hidden, objects)) == multiset(Items(prefix, hidden, objects'))
  {
    var reading := Readings(prefix, hidden, objects);
    ItemsAreCollected(prefix, hidden, objects, reading);
    assert forall o :: o in objects' ==> o in multiset(objects') && o in multiset(objects) && o in objects;
    CollectUpToOrder(reading, objects, objects');
    ItemsAreCollected(prefix, hidden, objects', reading);
  }

  lemma SameKeysListed(objects: seq<ObjectMeta>, objects': seq<ObjectMeta>, key: string)
    requires multiset(objects) == multiset(objects')
    ensures Lists(objects, key) <==> Lists(objects', key)
  {
    assert forall o :: o in multiset(objects) <==> o in objects;
    assert forall o :: o in multiset(objects') <==> o in objects';
    if i :| 0 <= i < |objects| && objects[i].key == key {
      assert objects[i] in objects';
    }
    if i :| 0 <= i < |objects'| && objects'[i].key == key {
      assert objects'[i] in objects;
    }
  }

  predicate SameUpToOrder(r: RefSnapshot, r': RefSnapshot) {
    r.isProtected == r'.isProtected && r.hasChain == r'.hasChain && multiset(r.bundles) == multiset(r'.bundles)
  }

  lemma SameSnapshot(refs: map<string, RefSnapshot>, refs': map<string, RefSnapshot>, items: seq<Item>,
                     items': seq<Item>)
    requires RefsShow(refs, items) && RefsShow(refs', items') && multiset(items) == multiset(items')
    ensures forall ref :: ref in refs <==> ref in refs'
    ensures forall ref :: SameUpToOrder(EntryOf(refs, ref), EntryOf(refs', ref))
    ensures multiset(MalformedOf(items)) == multiset(MalformedOf(items'))
  {
    forall ref
      ensures ref in refs <==> ref in refs'
      ensures SameUpToOrder(EntryOf(refs, ref), EntryOf(refs', ref))
    {
      SameEntry(refs, refs', items, items', ref);
    }
    forall bad ensures multiset(MalformedOf(items))[bad] == multiset(MalformedOf(items'))[bad] {
      MalformedCount(items, bad);
      MalformedCount(items', bad);
    }
  }

  lemma SameEntry(refs: map<string, RefSnapshot>, refs': map<string, RefSnapshot>, items: seq<Item>, items': seq<Item>,
                  ref: string)
    requires RefsShow(refs, items) && RefsShow(refs', items') && multiset(items) == multiset(items')
    ensures ref in refs <==> ref in refs'
    ensures SameUpToOrder(EntryOf(refs, ref), EntryOf(refs', ref))
  {
    var r, r' := EntryOf(refs, ref), EntryOf(refs', ref);
    assert RefShows(r, items, ref) && RefShows(r', items', ref);
    assert Marker(ref) in items <==> Marker(ref) in multiset(items);
    assert Marker(ref) in items' <==> Marker(ref) in multiset(items');
    assert Chain(ref) in items <==> Chain(ref) in multiset(items);
    assert Chain(ref) in items' <==> Chain(ref) in multiset(items');
    forall entry ensures multiset(r.bundles)[entry] == multiset(r'.bundles)[entry] {
      BundleCount(items, ref, entry);
      BundleCount(items', ref, entry);
    }
    var m, m' := multiset(r.bundles), multiset(r'.bundles);
    assert m == m' && |m| == |r.bundles| && |m'| == |r'.bundles|;
  }

  // ---------------------------------------------------------------
  // The snapshot and the bucket.
  // ---------------------------------------------------------------

  /** A visible bundle of the ref is on the bucket. */
  predicate HasBundle(prefix: string, hidden: set<string>, bucket: Bucket, ref: string, sha: string) {
    && IsValidBundleStem(sha) && !IsBookkeepingDir(ref + "/" + (sha + ".bundle"))
    && BundleKey(prefix, ref, sha) in bucket && BundleKey(prefix, ref, sha) !in hidden
  }

  /** A visible chain manifest of the ref is on the bucket. */
  predicate HasChain(prefix: string, hidden: set<string>, bucket: Bucket, ref: string) {
    !IsBookkeepingDir(ref + "/" + "chain.json") && ChainKey(prefix, ref) in bucket && ChainKey(prefix, ref) !in hidden
  }

  ghost predicate HasDataAt(prefix: string, hidden: set<string>, bucket: Bucket, ref: string) {
    HasChain(prefix, hidden, bucket, ref) || exists sha :: HasBundle(prefix, hidden, bucket, ref, sha)
  }

  predicate ShowsBundle(bundles: seq<BundleEntry>, sha: string) {
    exists i :: 0 <= i < |bundles| && bundles[i].sha == sha
  }

  lemma BundleIsItem(items: seq<Item>, ref: string, entry: BundleEntry)
    ensures entry in BundlesOf(items, ref) <==> Bundle(ref, entry) in items
  {
    BundleCount(items, ref, entry);
    assert entry in BundlesOf(items, ref) <==> entry in multiset(BundlesOf(items, ref));
    assert Bundle(ref, entry) in items <==> Bundle(ref, entry) in multiset(items);
  }

  /** The snapshot shows exactly the visible bundles of the bucket. */
  lemma BundlesAreOnBucket(prefix: string, hidden: set<string>, bucket: Bucket, objects: seq<ObjectMeta>, ref: string,
                           sha: string)
    requires IsListing(objects, ListPrefix(prefix), bucket)
    ensures ShowsBundle(BundlesOf(Items(prefix, hidden, objects), ref), sha) <==>
              HasBundle(prefix, hidden, bucket, ref, sha)
  {
    var items := Items(prefix, hidden, objects);
    var bundles := BundlesOf(items, ref);
    if i :| 0 <= i < |bundles| && bundles[i].sha == sha {
      BundleIsItem(items, ref, bundles[i]);
      ShownIsOnBucket(prefix, hidden, bucket, objects, ref, bundles[i]);
    }
    if HasBundle(prefix, hidden, bucket, ref, sha) {
      var entry := OnBucketIsShown(prefix, hidden, bucket, objects, ref, sha);
      BundleIsItem(items, ref, entry);
    }
  }

  lemma ShownIsOnBucket(prefix: string, hidden: set<string>, bucket: Bucket, objects: seq<ObjectMeta>, ref: string,
                        entry: BundleEntry)
    requires IsListing(objects, ListPrefix(prefix), bucket) && Bundle(ref, entry) in Items(prefix, hidden, objects)
    ensures HasBundle(prefix, hidden, bucket, ref, entry.sha) && entry.key == BundleKey(prefix, ref, entry.sha)
  {
    ItemIsListed(prefix, hidden, objects, Bundle(ref, entry));
    var j :| 0 <= j < |objects| && ItemOf(prefix, hidden, objects[j]) == Some(Bundle(ref, entry));
    ItemNamesItsKey(prefix, hidden, objects[j]);
    NotBookkeeping(prefix, hidden, objects[j], ref, entry.sha + ".bundle") by {
      BundleKeyUnder(prefix, ref, entry.sha);
    }
  }

  lemma NotBookkeeping(prefix: string, hidden: set<string>, meta: ObjectMeta, ref: string, last: string)
    requires ItemOf(prefix, hidden, meta).Some? && meta.key == KeyUnder(prefix, ref, last)
    ensures !IsBookkeepingDir(ref + "/" + last) && meta.key !in hidden
  {
  }

  lemma OnBucketIsShown(prefix: string, hidden: set<string>, bucket: Bucket, objects: seq<ObjectMeta>, ref: string,
                        sha: string) returns (entry: BundleEntry)
    requires IsListing(objects, ListPrefix(prefix), bucket) && HasBundle(prefix, hidden, bucket, ref, sha)
    ensures entry.sha == sha && Bundle(ref, entry) in Items(prefix, hidden, objects)
  {
    var key := BundleKey(prefix, ref, sha);
    BundleKeyUnder(prefix, ref, sha);
    assert StartsWith(key, ListPrefix(prefix));
    var j :| 0 <= j < |objects| && objects[j].key == key;
    BundleKeyReadsBack(prefix, hidden, ref, sha, objects[j]);
    entry := BundleEntry(sha, key, objects[j].lastModified);
    ItemIsListed(prefix, hidden, objects, Bundle(ref, entry));
  }

  /** The same for the manifest. */
  lemma ChainIsOnBucket(prefix: string, hidden: set<string>, bucket: Bucket, objects: seq<ObjectMeta>, ref: string)
    requires IsListing(objects, ListPrefix(prefix), bucket)
    ensures Chain(ref) in Items(prefix, hidden, objects) <==> HasChain(prefix, hidden, bucket, ref)
  {
    ItemIsListed(prefix, hidden, objects, Chain(ref));
    if j :| 0 <= j < |objects| && ItemOf(prefix, hidden, objects[j]) == Some(Chain(ref)) {
      ItemNamesItsKey(prefix, hidden, objects[j]);
      KeyUnderIs(prefix, ref, "chain.json");
      NotBookkeeping(prefix, hidden, objects[j], ref, "chain.json");
    }
    if HasChain(prefix, hidden, bucket, ref) {
      KeyUnderIs(prefix, ref, "chain.json");
      var j :| 0 <= j < |objects| && objects[j].key == ChainKey(prefix, ref);
      ChainKeyReadsBack(prefix, hidden, ref, objects[j]);
    }
  }

  lemma ChainKeyReadsBack(prefix: string, hidden: set<string>, ref: string, meta: ObjectMeta)
    requires meta.key == ChainKey(prefix, ref) && meta.key !in hidden && !IsBookkeepingDir(ref + "/" + "chain.json")
    ensures ItemOf(prefix, hidden, meta) == Some(Chain(ref))
  {
    KeyUnderIs(prefix, ref, "chain.json");
    ChainReadsBack(ref, meta);
    SplitIsUnique(ref, "chain.json");
  }

  lemma ChainReadsBack(ref: string, meta: ObjectMeta)
    ensures ReadLast(ref, "chain.json", meta) == Some(Chain(ref))
  {
    var last := "chain.json";
    if IsLockKey(last) {
      SuffixEnd(last, ".lock");
    }
    if EndsWith(last, ".bundle") {
      SuffixEnd(last, ".bundle");
    }
    assert last[0] == 'c';
  }

  /** A visible protection marker of the ref is on the bucket. */
  predicate HasMarker(prefix: string, hidden: set<string>, bucket: Bucket, ref: string) {
    && !IsBookkeepingDir(ref + "/" + PROTECTED_MARKER_SEGMENT)
    && ProtectedKey(prefix, ref) in bucket && ProtectedKey(prefix, ref) !in hidden
  }

  /** The same for the protection marker: the snapshot shows a ref as protected exactly when it is there. */
  lemma MarkerIsOnBucket(prefix: string, hidden: set<string>, bucket: Bucket, objects: seq<ObjectMeta>, ref: string)
    requires IsListing(objects, ListPrefix(prefix), bucket)
    ensures Marker(ref) in Items(prefix, hidden, objects) <==> HasMarker(prefix, hidden, bucket, ref)
  {
    ItemIsListed(prefix, hidden, objects, Marker(ref));
    KeyUnderIs(prefix, ref, PROTECTED_MARKER_SEGMENT);
    if j :| 0 <= j < |objects| && ItemOf(prefix, hidden, objects[j]) == Some(Marker(ref)) {
      ItemNamesItsKey(prefix, hidden, objects[j]);
      NotBookkeeping(prefix, hidden, objects[j], ref, PROTECTED_MARKER_SEGMENT);
    }
    if HasMarker(prefix, hidden, bucket, ref) {
      var j :| 0 <= j < |objects| && objects[j].key == ProtectedKey(prefix, ref);
      MarkerKeyReadsBack(prefix, hidden, ref, objects[j]);
    }
  }

  lemma MarkerKeyReadsBack(prefix: string, hidden: set<string>, ref: string, meta: ObjectMeta)
    requires meta.key == ProtectedKey(prefix, ref) && meta.key !in hidden
    requires !IsBookkeepingDir(ref + "/" + PROTECTED_MARKER_SEGMENT)
    ensures ItemOf(prefix, hidden, meta) == Some(Marker(ref))
  {
    KeyUnderIs(prefix, ref, PROTECTED_MARKER_SEGMENT);
    MarkerReadsBack(ref, meta);
    SplitIsUnique(ref, PROTECTED_MARKER_SEGMENT);
  }

  lemma MarkerReadsBack(ref: string, meta: ObjectMeta)
    ensures ReadLast(ref, PROTECTED_MARKER_SEGMENT, meta) == Some(Marker(ref))
  {
    if IsLockKey(PROTECTED_MARKER_SEGMENT) {
      SuffixEnd(PROTECTED_MARKER_SEGMENT, ".lock");
    }
    assert PROTECTED_MARKER_SEGMENT[0] == 'P';
  }

  /** The key ends like a bundle right under the ref, but what stands before the ending is no commit. */
  predicate IsMalformedAt(prefix: string, bad: MalformedBundleKey, last: string) {
    && bad.key == RefListingPrefix(prefix, bad.refPath) + last && '/' !in last
    && EndsWith(last, ".bundle") && !IsValidBundleStem(last[..|last| - 7])
    && !IsBookkeepingDir(bad.refPath + "/" + last)
  }

  ghost predicate HasMalformed(prefix: string, hidden: set<string>, bucket: Bucket, bad: MalformedBundleKey) {
    bad.key in bucket && bad.key !in hidden && exists last :: IsMalformedAt(prefix, bad, last)
  }

  /** The malformed bundle keys that the snapshot lists are exactly the visible ones of the bucket. */
  lemma MalformedIsOnBucket(prefix: string, hidden: set<string>, bucket: Bucket, objects: seq<ObjectMeta>,
                            bad: MalformedBundleKey)
    requires IsListing(objects, ListPrefix(prefix), bucket)
    ensures bad in MalformedOf(Items(prefix, hidden, objects)) <==> HasMalformed(prefix, hidden, bucket, bad)
  {
    var items := Items(prefix, hidden, objects);
    MalformedCount(items, bad);
    assert bad in MalformedOf(items) <==> bad in multiset(MalformedOf(items));
    assert Malformed(bad) in items <==> Malformed(bad) in multiset(items);
    ItemIsListed(prefix, hidden, objects, Malformed(bad));
    if j :| 0 <= j < |objects| && ItemOf(prefix, hidden, objects[j]) == Some(Malformed(bad)) {
      MalformedIsThere(prefix, hidden, objects[j], bad);
    }
    if HasMalformed(prefix, hidden, bucket, bad) {
      var last :| IsMalformedAt(prefix, bad, last);
      KeyUnderIs(prefix, bad.refPath, last);
      var j :| 0 <= j < |objects| && objects[j].key == bad.key;
      MalformedReadsBack(prefix, hidden, objects[j], bad, last);
    }
  }

  lemma MalformedIsThere(prefix: string, hidden: set<string>, meta: ObjectMeta, bad: MalformedBundleKey)
    requires ItemOf(prefix, hidden, meta) == Some(Malformed(bad))
    ensures meta.key == bad.key && bad.key !in hidden && exists last :: IsMalformedAt(prefix, bad, last)
  {
    var relative := meta.key[|ListPrefix(prefix)|..];
    var (ref, last) := RSplitOnce(relative).value;
    assert meta.key == ListPrefix(prefix) + relative;
    KeyUnderIs(prefix, ref, last);
    LastNamesItem(ref, last, meta);
    assert IsMalformedAt(prefix, bad, last);
  }

  lemma MalformedReadsBack(prefix: string, hidden: set<string>, meta: ObjectMeta, bad: MalformedBundleKey, last: string)
    requires IsMalformedAt(prefix, bad, last) && meta.key == bad.key && bad.key !in hidden
    ensures ItemOf(prefix, hidden, meta) == Some(Malformed(bad))
  {
    KeyUnderIs(prefix, bad.refPath, last);
    SplitIsUnique(bad.refPath, last);
    SuffixEnd(last, ".bundle");
    if IsLockKey(last) {
      SuffixEnd(last, ".lock");
    }
    assert PROTECTED_MARKER_SEGMENT[9] == '#';
  }

  /** A ref never shows two bundles of one commit. */
  lemma {:induction false} DistinctShas(prefix: string, hidden: set<string>, objects: seq<ObjectMeta>, ref: string,
                                        i: nat, j: nat)
    requires DistinctKeys(objects) && i < j < |BundlesOf(Items(prefix, hidden, objects), ref)|
    ensures BundlesOf(Items(prefix, hidden, objects), ref)[i].sha
              != BundlesOf(Items(prefix, hidden, objects), ref)[j].sha
  {
    var n := |objects| - 1;
    var init := Items(prefix, hidden, objects[..n]);
    var before := BundlesOf(init, ref);
    if j < |before| {
      DistinctShas(prefix, hidden, objects[..n], ref, i, j);
    } else {
      OlderShaDiffers(prefix, hidden, objects, ref, before[i]);
    }
  }

  lemma OlderShaDiffers(prefix: string, hidden: set<string>, objects: seq<ObjectMeta>, ref: string, older: BundleEntry)
    requires DistinctKeys(objects) && objects != []
    requires older in BundlesOf(Items(prefix, hidden, objects[..|objects| - 1]), ref)
    requires var item := ItemOf(prefix, hidden, objects[|objects| - 1]);
             item.Some? && item.value.Bundle? && item.value.ref == ref
    ensures older.sha != ItemOf(prefix, hidden, objects[|objects| - 1]).value.entry.sha
  {
    var n := |objects| - 1;
    BundleIsItem(Items(prefix, hidden, objects[..n]), ref, older);
    ItemIsListed(prefix, hidden, objects[..n], Bundle(ref, older));
    var m :| 0 <= m < n && ItemOf(prefix, hidden, objects[m]) == Some(Bundle(ref, older));
    ItemNamesItsKey(prefix, hidden, objects[m]);
    ItemNamesItsKey(prefix, hidden, objects[n]);
  }

  lemma LastCarriesData(prefix: string, ref: string, last: string)
    requires '/' !in last && |last| >= 5 && !IsLockKey(last) && !IsProtectedMarkerSegment(last)
    ensures CarriesData(RefListingPrefix(prefix, ref) + last)
    ensures StartsWith(RefListingPrefix(prefix, ref) + last, RefListingPrefix(prefix, ref))
  {
    var dir := if prefix == "" then ref else prefix + "/" + ref;
    var key := RefListingPrefix(prefix, ref) + last;
    assert key == dir + "/" + last;
    SplitIsUnique(dir, last);
    assert key[|key| - 5..] == last[|last| - 5..];
  }

  /** A key that the snapshot counts as data of the ref: visible, and a 40-hex bundle or the manifest right under it. */
  predicate ShowsAsData(prefix: string, hidden: set<string>, ref: string, key: string) {
    && StartsWith(key, RefListingPrefix(prefix, ref)) && key !in hidden
    && var last := key[|RefListingPrefix(prefix, ref)|..];
    && '/' !in last && !IsBookkeepingDir(ref + "/" + last)
    && (last == "chain.json" || (EndsWith(last, ".bundle") && IsValidBundleStem(last[..|last| - 7])))
  }

  /** What a shown key is. */
  lemma ShownIs(prefix: string, hidden: set<string>, ref: string, key: string)
    requires ShowsAsData(prefix, hidden, ref, key)
    ensures CarriesData(key)
    ensures key == ChainKey(prefix, ref) || exists sha :: IsValidBundleStem(sha) && key == BundleKey(prefix, ref, sha)
    ensures forall bucket: Bucket :: key in bucket ==> HasDataAt(prefix, hidden, bucket, ref)
  {
    var dir := RefListingPrefix(prefix, ref);
    var last := key[|dir|..];
    assert key == dir + last;
    if last == "chain.json" {
      ChainReadsBack(ref, ObjectMeta("", 0));
      LastNamesItem(ref, last, ObjectMeta("", 0));
      LastCarriesData(prefix, ref, last);
    } else {
      var sha := last[..|last| - 7];
      assert last == sha + ".bundle";
      BundleReadsBack(ref, sha, ObjectMeta("", 0));
      LastNamesItem(ref, last, ObjectMeta("", 0));
      LastCarriesData(prefix, ref, last);
      BundleKeyUnder(prefix, ref, sha);
      KeyUnderIs(prefix, ref, last);
      forall bucket: Bucket | key in bucket ensures HasDataAt(prefix, hidden, bucket, ref) {
        assert HasBundle(prefix, hidden, bucket, ref, sha);
      }
    }
  }

  lemma ChainShows(prefix: string, hidden: set<string>, bucket: Bucket, ref: string)
    requires HasChain(prefix, hidden, bucket, ref)
    ensures ShowsAsData(prefix, hidden, ref, ChainKey(prefix, ref))
  {
    assert ChainKey(prefix, ref)[|RefListingPrefix(prefix, ref)|..] == "chain.json";
  }

  lemma BundleShows(prefix: string, hidden: set<string>, bucket: Bucket, ref: string, sha: string)
    requires HasBundle(prefix, hidden, bucket, ref, sha)
    ensures ShowsAsData(prefix, hidden, ref, BundleKey(prefix, ref, sha))
  {
    var last := sha + ".bundle";
    BundleKeyUnder(prefix, ref, sha);
    KeyUnderIs(prefix, ref, last);
    BundleReadsBack(ref, sha, ObjectMeta("", 0));
    assert BundleKey(prefix, ref, sha)[|RefListingPrefix(prefix, ref)|..] == last;
    assert last[|last| - 7..] == ".bundle" && last[..|last| - 7] == sha;
  }

  /** The snapshot has data for a ref exactly when the ref's own listing has a key that shows as data. */
  lemma DataIffShown(prefix: string, hidden: set<string>, bucket: Bucket, ref: string, listed: seq<ObjectMeta>)
    requires IsListing(listed, RefListingPrefix(prefix, ref), bucket)
    ensures HasDataAt(prefix, hidden, bucket, ref) <==>
              exists i :: 0 <= i < |listed| && ShowsAsData(prefix, hidden, ref, listed[i].key)
  {
    if i :| 0 <= i < |listed| && ShowsAsData(prefix, hidden, ref, listed[i].key) {
      assert IsEntry(listed[i], RefListingPrefix(prefix, ref), bucket);
      ShownIs(prefix, hidden, ref, listed[i].key);
    }
    if HasDataAt(prefix, hidden, bucket, ref) {
      var key := ChainKey(prefix, ref);
      if HasChain(prefix, hidden, bucket, ref) {
        ChainShows(prefix, hidden, bucket, ref);
      } else {
        var sha :| HasBundle(prefix, hidden, bucket, ref, sha);
        BundleShows(prefix, hidden, bucket, ref, sha);
        key := BundleKey(prefix, ref, sha);
      }
      var i :| 0 <= i < |listed| && listed[i].key == key;
    }
  }

  /** Data the snapshot shows under a ref is branch data in the ref's own listing. */
  lemma DataIsListed(prefix: string, hidden: set<string>, bucket: Bucket, ref: string, listed: seq<ObjectMeta>)
    requires HasDataAt(prefix, hidden, bucket, ref) && IsListing(listed, RefListingPrefix(prefix, ref), bucket)
    ensures HasBranchData(listed)
  {
    DataIffShown(prefix, hidden, bucket, ref, listed);
    var i :| 0 <= i < |listed| && ShowsAsData(prefix, hidden, ref, listed[i].key);
    ShownIs(prefix, hidden, ref, listed[i].key);
  }

  /**
   * The key-level test is the weaker one. The two disagree about a ref exactly when some key
   * under it carries data and none of those shows as data: each is hidden by a tombstone, in a
   * bookkeeping directory, nested deeper, or neither a 40-hex bundle nor the manifest.
   */
  lemma OnlyKeyDataIff(prefix: string, hidden: set<string>, bucket: Bucket, ref: string, listed: seq<ObjectMeta>)
    requires IsListing(listed, RefListingPrefix(prefix, ref), bucket)
    ensures HasBranchData(listed) != HasDataAt(prefix, hidden, bucket, ref) <==>
              && (exists i :: 0 <= i < |listed| && CarriesData(listed[i].key))
              && forall i :: 0 <= i < |listed| && CarriesData(listed[i].key) ==>
                   !ShowsAsData(prefix, hidden, ref, listed[i].key)
  {
    DataIffShown(prefix, hidden, bucket, ref, listed);
    if i :| 0 <= i < |listed| && ShowsAsData(prefix, hidden, ref, listed[i].key) {
      ShownIs(prefix, hidden, ref, listed[i].key);
    }
  }

  /** An archive alone is such a listing: branch data to protect and delete-branch, and nothing to the snapshot. */
  lemma ArchiveIsOnlyKeyData(prefix: string, ref: string, lastModified: int)
    ensures var meta := ObjectMeta(RefListingPrefix(prefix, ref) + "repo.zip", lastModified);
            HasBranchData([meta]) && Items(prefix, {}, [meta]) == []
  {
    var meta := ObjectMeta(RefListingPrefix(prefix, ref) + "repo.zip", lastModified);
    ArchiveIsNoLock();
    LastCarriesData(prefix, ref, "repo.zip");
    assert [meta][0] == meta && [meta][..0] == [];
    ArchiveIsNoItem(prefix, ref, meta);
  }

  lemma ArchiveIsNoLock()
    ensures !IsLockKey("repo.zip") && !IsProtectedMarkerSegment("repo.zip")
  {
    var last := "repo.zip";
    assert last[|last| - 1] == 'p' && last[0] == 'r';
    if IsLockKey(last) {
      SuffixEnd(last, ".lock");
    }
  }

  lemma ArchiveIsNoItem(prefix: string, ref: string, meta: ObjectMeta)
    requires meta.key == RefListingPrefix(prefix, ref) + "repo.zip"
    ensures ItemOf(prefix, {}, meta).None?
  {
    KeyUnderIs(prefix, ref, "repo.zip");
    SplitIsUnique(ref, "repo.zip");
  }
}
