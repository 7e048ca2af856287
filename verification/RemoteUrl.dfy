// Remote URLs and their canonical form (src/url.rs), on parsed URLs: scheme, host, path and
// query pairs.
module RemoteUrl {
  import opened Base

  datatype Backend = S3 | Azure

  datatype Addressing = VirtualHosted | PathStyle

  /** A parsed URL; `isLoopback` is what its host says. */
  datatype Endpoint = Endpoint(scheme: string, host: string, isLoopback: bool, path: string,
      query: seq<(string, string)>)

  datatype Flags = Flags(
    zip: bool, profile: Option<string>, credential: Option<string>, region: Option<string>, engine: Option<string>,
    bundleUri: bool, presignTtl: Option<nat>)

  const NO_FLAGS := Flags(false, None, None, None, None, false, None)

  /** The longest presigning, seven days in seconds. */
  const MAX_PRESIGN_TTL := 604_800

  /** `account` is the Azure storage account; S3 has none. */
  datatype Remote = Remote(backend: Backend, endpoint: Endpoint, account: Option<string>, container: string,
                           prefix: Option<string>, addressing: Addressing, flags: Flags)

  datatype ParseError =
    | CleartextHttpForbidden | MissingBucket | MissingContainer | MissingAccount | InvalidBucket | InvalidContainer
    | InvalidAccount | InvalidAwsS3Endpoint | UnknownAddressing | UnknownEngine | UnknownFlag | InvalidFlagValue
    | FlagNotApplicable | PresignTtlTooLarge | PresignTtlWithoutBundleUri

  datatype Parsed<+T> = Accepted(value: T) | Rejected(error: ParseError)

  /** The single tokens: names, words for booleans and engines, positive numbers; and whether cleartext is allowed. */
  datatype Vocabulary = Vocabulary(
    boolOf: string -> Option<bool>, isEngine: string -> bool, ttlOf: string -> Option<nat>, isBucket: string -> bool,
    isAccount: string -> bool, isContainer: string -> bool, httpAllowed: bool)

  // ---------------------------------------------------------------
  // Paths.
  // ---------------------------------------------------------------

  /** The pieces between separators. */
  function Split(s: string, sep: char): (pieces: seq<string>)
    ensures pieces != []
  {
    if s == "" then [""]
    else
      var rest := Split(s[1..], sep);
      if s[0] == sep then [""] + rest else [[s[0]] + rest[0]] + rest[1..]
  }

  function NonEmpty(pieces: seq<string>): seq<string> {
    if pieces == [] then [] else (if pieces[0] == "" then [] else [pieces[0]]) + NonEmpty(pieces[1..])
  }

  /** `path_segments`: the non-empty ones. */
  function PathSegments(path: string): seq<string> {
    NonEmpty(Split(path, '/'))
  }

  function JoinSlash(segments: seq<string>): string {
    if segments == [] then "" else if |segments| == 1 then segments[0] else segments[0] + "/" + JoinSlash(segments[1..])
  }

  /** `set_canonical_path`. */
  function CanonicalPath(segments: seq<string>): string {
    "/" + JoinSlash(segments)
  }

  predicate IsSegment(s: string) {
    s != "" && '/' !in s
  }

  lemma FirstGrows(c: char, x: seq<string>, y: seq<string>)
    requires x != []
    ensures [[c] + (x + y)[0]] + (x + y)[1..] == [[c] + x[0]] + x[1..] + y
  {
    assert (x + y)[1..] == x[1..] + y;
  }

  /** A separator splits whatever stands on its two sides. */
  lemma {:induction false} SplitJoined(a: string, sep: char, b: string)
    ensures Split(a + [sep] + b, sep) == Split(a, sep) + Split(b, sep)
  {
    var s := a + [sep] + b;
    if a == "" {
      assert s[1..] == b;
    } else {
      var x, y := Split(a[1..], sep), Split(b, sep);
      SplitJoined(a[1..], sep, b);
      assert s[0] == a[0] && s[1..] == a[1..] + [sep] + b;
      if a[0] == sep {
        Associates([""], x, y);
      } else {
        FirstGrows(a[0], x, y);
      }
    }
  }

  lemma {:induction false} SplitWhole(s: string, sep: char)
    requires sep !in s
    ensures Split(s, sep) == [s]
  {
    if s != "" {
      SplitWhole(s[1..], sep);
      assert [s[0]] + s[1..] == s;
    }
  }

  lemma {:induction false} PiecesHaveNone(s: string, sep: char)
    ensures forall i :: 0 <= i < |Split(s, sep)| ==> sep !in Split(s, sep)[i]
  {
    if s != "" {
      PiecesHaveNone(s[1..], sep);
    }
  }

  /** The first piece ends at the first separator. */
  lemma {:induction false} FirstPiece(s: string, sep: char) returns (rest: string)
    ensures sep !in Split(s, sep)[0]
    ensures |Split(s, sep)| == 1 ==> s == Split(s, sep)[0]
    ensures |Split(s, sep)| > 1 ==> s == Split(s, sep)[0] + [sep] + rest && Split(rest, sep) == Split(s, sep)[1..]
  {
    rest := "";
    if s != "" && s[0] == sep {
      rest := s[1..];
    } else if s != "" {
      rest := FirstPiece(s[1..], sep);
      assert s == [s[0]] + s[1..];
    }
  }

  lemma {:induction false} NonEmptyAre(pieces: seq<string>)
    requires forall i :: 0 <= i < |pieces| ==> '/' !in pieces[i]
    ensures forall i :: 0 <= i < |NonEmpty(pieces)| ==> IsSegment(NonEmpty(pieces)[i])
  {
    if pieces != [] {
      NonEmptyAre(pieces[1..]);
    }
  }

  lemma SegmentsAre(path: string)
    ensures forall i :: 0 <= i < |PathSegments(path)| ==> IsSegment(PathSegments(path)[i])
  {
    PiecesHaveNone(path, '/');
    NonEmptyAre(Split(path, '/'));
  }

  lemma {:induction false} NonEmptyConcat(a: seq<string>, b: seq<string>)
    ensures NonEmpty(a + b) == NonEmpty(a) + NonEmpty(b)
  {
    if a == [] {
      assert a + b == b;
    } else {
      var s, first := a + b, if a[0] == "" then [] else [a[0]];
      NonEmptyConcat(a[1..], b);
      assert s[0] == a[0] && s[1..] == a[1..] + b;
      Associates(first, NonEmpty(a[1..]), NonEmpty(b));
    }
  }

  /** A slash separates the segments on its two sides, and a segment by itself is the only one. */
  lemma SlashSeparates(a: string, b: string)
    ensures PathSegments(a + "/" + b) == PathSegments(a) + PathSegments(b)
    ensures PathSegments("") == []
    ensures IsSegment(a) ==> PathSegments(a) == [a]
  {
    SplitJoined(a, '/', b);
    NonEmptyConcat(Split(a, '/'), Split(b, '/'));
    if IsSegment(a) {
      SplitWhole(a, '/');
    }
  }

  /** What is joined splits into the same pieces: one slash between two, none at the ends. */
  lemma {:induction false} JoinedSplits(segments: seq<string>)
    requires segments != [] && forall i :: 0 <= i < |segments| ==> '/' !in segments[i]
    ensures Split(JoinSlash(segments), '/') == segments
  {
    SplitWhole(segments[0], '/');
    if |segments| > 1 {
      JoinedSplits(segments[1..]);
      SplitJoined(segments[0], '/', JoinSlash(segments[1..]));
    }
  }

  lemma {:induction false} NoneEmpty(segments: seq<string>)
    requires forall i :: 0 <= i < |segments| ==> segments[i] != ""
    ensures NonEmpty(segments) == segments
  {
    if segments != [] {
      NoneEmpty(segments[1..]);
    }
  }

  /** The path is a slash and the segments, one slash between two. */
  predicate IsPathOf(path: string, segments: seq<string>) {
    Split(path, '/') == [""] + if segments == [] then [""] else segments
  }

  /** A canonical path is spelled with single slashes and has the segments it was made of. */
  lemma CanonicalSegments(segments: seq<string>)
    requires forall i :: 0 <= i < |segments| ==> IsSegment(segments[i])
    ensures IsPathOf(CanonicalPath(segments), segments) && PathSegments(CanonicalPath(segments)) == segments
  {
    SplitJoined("", '/', JoinSlash(segments));
    assert "" + ['/'] + JoinSlash(segments) == CanonicalPath(segments);
    if segments != [] {
      JoinedSplits(segments);
    }
    NonEmptyConcat([""], Split(JoinSlash(segments), '/'));
    NoneEmpty(segments);
  }

  // ---------------------------------------------------------------
  // The query.
  // ---------------------------------------------------------------

  type Settings = (Flags, Option<Addressing>)

  datatype Slot = Zip | Profile | Credential | Region | Style | Engine | BundleUri | PresignTtl | NoSlot

  /** What a pair of this name sets. */
  function SlotOf(key: string): Slot {
    if key == "zip" then Zip else if key == "profile" then Profile else if key == "credential" then Credential
    else if key == "region" then Region else if key == "addressing" then Style else if key == "engine" then Engine
    else if key == "bundle_uri" then BundleUri else if key == "bundle_uri_presign_ttl" then PresignTtl else NoSlot
  }

  /** One query pair sets what its name says, if its value is one for it. */
  function Apply(v: Vocabulary, settings: Settings, pair: (string, string)): Parsed<Settings> {
    var (flags, addressing) := settings;
    var value := pair.1;
    match SlotOf(pair.0)
    case Zip =>
      if v.boolOf(value).Some? then Accepted((flags.(zip := v.boolOf(value).value), addressing))
      else Rejected(InvalidFlagValue)
    case Profile => Accepted((flags.(profile := Some(value)), addressing))
    case Credential => Accepted((flags.(credential := Some(value)), addressing))
    case Region => Accepted((flags.(region := Some(value)), addressing))
    case Style =>
      if value == "path" then Accepted((flags, Some(PathStyle)))
      else if value == "virtual" then Accepted((flags, Some(VirtualHosted)))
      else Rejected(UnknownAddressing)
    case Engine =>
      if v.isEngine(value) then Accepted((flags.(engine := Some(value)), addressing)) else Rejected(UnknownEngine)
    case BundleUri =>
      if v.boolOf(value).Some? then Accepted((flags.(bundleUri := v.boolOf(value).value), addressing))
      else Rejected(InvalidFlagValue)
    case PresignTtl =>
      if v.ttlOf(value).None? then Rejected(InvalidFlagValue)
      else if v.ttlOf(value).value > MAX_PRESIGN_TTL then Rejected(PresignTtlTooLarge)
      else Accepted((flags.(presignTtl := v.ttlOf(value)), addressing))
    case NoSlot => Rejected(UnknownFlag)
  }

  /** The settings of a query, from the left; the first bad pair is the error. */
  function SettingsOf(v: Vocabulary, query: seq<(string, string)>): Parsed<Settings> {
    if query == [] then Accepted((NO_FLAGS, None))
    else
      match SettingsOf(v, query[..|query| - 1])
      case Rejected(e) => Rejected(e)
      case Accepted(settings) => Apply(v, settings, query[|query| - 1])
  }

  /** `extract_flags`. */
  method ExtractFlags(v: Vocabulary, query: seq<(string, string)>) returns (r: Parsed<Settings>)
    ensures r == SettingsOf(v, query)
  {
    var settings: Settings := (NO_FLAGS, None);
    for i := 0 to |query|
      invariant SettingsOf(v, query[..i]) == Accepted(settings)
    {
      assert query[..i + 1][..i] == query[..i];
      var next := Apply(v, settings, query[i]);
      if next.Rejected? {
        FirstErrorStands(v, query, i + 1);
        return next;
      }
      settings := next.value;
    }
    assert query[..|query|] == query;
    r := Accepted(settings);
  }

  /** The pair at `i` is the last of this name, and says this. */
  predicate IsLastNamed(query: seq<(string, string)>, name: string, value: string, i: nat) {
    i < |query| && query[i] == (name, value) && forall j :: i < j < |query| ==> query[j].0 != name
  }

  /** The value of the last pair of this name. */
  function LastNamed(query: seq<(string, string)>, name: string): (value: Option<string>)
    ensures value.None? ==> forall i :: 0 <= i < |query| ==> query[i].0 != name
    ensures value.Some? ==> exists i: nat :: IsLastNamed(query, name, value.value, i)
  {
    if query == [] then None
    else
      var n := |query| - 1;
      if query[n].0 == name then
        assert IsLastNamed(query, name, query[n].1, n);
        Some(query[n].1)
      else
        var value := LastNamed(query[..n], name);
        assert forall j :: 0 <= j < n ==> query[..n][j] == query[j];
        assert value.Some? ==> exists i: nat :: IsLastNamed(query, name, value.value, i) by {
          if i: nat :| value.Some? && IsLastNamed(query[..n], name, value.value, i) {
            assert IsLastNamed(query, name, value.value, i);
          }
        }
        value
  }

  datatype Setting = Switch(on: bool) | Text(text: Option<string>) | Form(addressing: Option<Addressing>)
                   | Number(number: Option<nat>)

  /** What a query has set. */
  function SettingAt(settings: Settings, slot: Slot): Setting {
    match slot
    case Zip => Switch(settings.0.zip)
    case Profile => Text(settings.0.profile)
    case Credential => Text(settings.0.credential)
    case Region => Text(settings.0.region)
    case Style => Form(settings.1)
    case Engine => Text(settings.0.engine)
    case BundleUri => Switch(settings.0.bundleUri)
    case PresignTtl => Number(settings.0.presignTtl)
    case NoSlot => Text(None)
  }

  /** What a value sets it to; without one, its default. */
  function Meant(v: Vocabulary, slot: Slot, value: Option<string>): Setting {
    match slot
    case Zip => Switch(value.Some? && v.boolOf(value.value) == Some(true))
    case BundleUri => Switch(value.Some? && v.boolOf(value.value) == Some(true))
    case Style => Form(if value.None? then None else Some(if value.value == "path" then PathStyle else VirtualHosted))
    case PresignTtl => Number(if value.None? then None else v.ttlOf(value.value))
    case NoSlot => Text(None)
    case _ => Text(value)
  }

  lemma ApplySets(v: Vocabulary, settings: Settings, pair: (string, string), slot: Slot)
    requires Apply(v, settings, pair).Accepted?
    ensures SettingAt(Apply(v, settings, pair).value, slot) ==
              if slot == SlotOf(pair.0) then Meant(v, slot, Some(pair.1)) else SettingAt(settings, slot)
  {
  }

  /** The settings of an accepted query, one by one. */
  lemma {:induction false} LaterPairsReplace(v: Vocabulary, query: seq<(string, string)>, name: string)
    requires SettingsOf(v, query).Accepted?
    ensures SettingAt(SettingsOf(v, query).value, SlotOf(name)) == Meant(v, SlotOf(name), LastNamed(query, name))
  {
    if query != [] {
      var n := |query| - 1;
      LaterPairsReplace(v, query[..n], name);
      ApplySets(v, SettingsOf(v, query[..n]).value, query[n], SlotOf(name));
      SlotsDiffer(name, query[n].0);
    }
  }

  lemma SlotsDiffer(name: string, other: string)
    ensures SlotOf(name) == SlotOf(other) && SlotOf(name) != NoSlot ==> name == other
  {
  }

  /** The last pair of this name turns the switch on. */
  predicate IsOn(v: Vocabulary, query: seq<(string, string)>, name: string) {
    match LastNamed(query, name)
    case None => false
    case Some(value) => v.boolOf(value) == Some(true)
  }

  /** Every flag is what the last pair of its name says, whatever earlier ones said. */
  predicate FlagsAre(v: Vocabulary, query: seq<(string, string)>, flags: Flags) {
    && flags.zip == IsOn(v, query, "zip") && flags.bundleUri == IsOn(v, query, "bundle_uri")
    && flags.profile == LastNamed(query, "profile") && flags.credential == LastNamed(query, "credential")
    && flags.region == LastNamed(query, "region") && flags.engine == LastNamed(query, "engine")
    && flags.presignTtl == match LastNamed(query, "bundle_uri_presign_ttl")
                           case None => None
                           case Some(value) => v.ttlOf(value)
  }

  /** And so is the style asked for. */
  predicate StyleIs(query: seq<(string, string)>, forced: Option<Addressing>) {
    match LastNamed(query, "addressing")
    case None => forced == None
    case Some(value) =>
      || (value == "path" && forced == Some(PathStyle))
      || (value == "virtual" && forced == Some(VirtualHosted))
  }

  lemma FlagsMean(v: Vocabulary, query: seq<(string, string)>)
    requires SettingsOf(v, query).Accepted?
    ensures FlagsAre(v, query, SettingsOf(v, query).value.0)
  {
    TextsMean(v, query);
    SwitchesMean(v, query);
    LaterPairsReplace(v, query, "bundle_uri_presign_ttl");
  }

  lemma SwitchesMean(v: Vocabulary, query: seq<(string, string)>)
    requires SettingsOf(v, query).Accepted?
    ensures var flags := SettingsOf(v, query).value.0;
            flags.zip == IsOn(v, query, "zip") && flags.bundleUri == IsOn(v, query, "bundle_uri")
  {
    LaterPairsReplace(v, query, "zip");
    LaterPairsReplace(v, query, "bundle_uri");
  }

  lemma TextsMean(v: Vocabulary, query: seq<(string, string)>)
    requires SettingsOf(v, query).Accepted?
    ensures var flags := SettingsOf(v, query).value.0;
            && flags.profile == LastNamed(query, "profile") && flags.credential == LastNamed(query, "credential")
            && flags.region == LastNamed(query, "region") && flags.engine == LastNamed(query, "engine")
  {
    LaterPairsReplace(v, query, "profile");
    LaterPairsReplace(v, query, "credential");
    LaterPairsReplace(v, query, "region");
    LaterPairsReplace(v, query, "engine");
  }

  lemma StyleMeans(v: Vocabulary, query: seq<(string, string)>)
    requires SettingsOf(v, query).Accepted?
    ensures StyleIs(query, SettingsOf(v, query).value.1)
  {
    LaterPairsReplace(v, query, "addressing");
    QueryAcceptedIff(v, query);
    if LastNamed(query, "addressing").Some? {
      var i: nat :| IsLastNamed(query, "addressing", LastNamed(query, "addressing").value, i);
      assert FlagFits(v, query[i]);
    }
  }

  /** The pair is a documented flag with a value for it. */
  predicate FlagFits(v: Vocabulary, pair: (string, string)) {
    var (name, value) := pair;
    || (name in ["zip", "bundle_uri"] && v.boolOf(value).Some?)
    || name in ["profile", "credential", "region"]
    || (name == "addressing" && value in ["path", "virtual"])
    || (name == "engine" && v.isEngine(value))
    || (name == "bundle_uri_presign_ttl" && v.ttlOf(value).Some? && v.ttlOf(value).value <= MAX_PRESIGN_TTL)
  }

  /** What is wrong with a pair that is not. */
  function FlagError(v: Vocabulary, pair: (string, string)): ParseError {
    var (name, value) := pair;
    if name == "addressing" then UnknownAddressing
    else if name == "engine" then UnknownEngine
    else if name == "bundle_uri_presign_ttl" && v.ttlOf(value).Some? then PresignTtlTooLarge
    else if name in ["zip", "bundle_uri", "bundle_uri_presign_ttl"] then InvalidFlagValue
    else UnknownFlag
  }

  lemma ApplyFits(v: Vocabulary, settings: Settings, pair: (string, string))
    ensures Apply(v, settings, pair).Accepted? <==> FlagFits(v, pair)
    ensures Apply(v, settings, pair).Rejected? ==> Apply(v, settings, pair).error == FlagError(v, pair)
  {
  }

  predicate QueryFits(v: Vocabulary, query: seq<(string, string)>) {
    forall i :: 0 <= i < |query| ==> FlagFits(v, query[i])
  }

  predicate IsFirstBad(v: Vocabulary, query: seq<(string, string)>, i: nat) {
    i < |query| && !FlagFits(v, query[i]) && QueryFits(v, query[..i])
  }

  /** A query is accepted exactly when every pair is. */
  lemma {:induction false} QueryAcceptedIff(v: Vocabulary, query: seq<(string, string)>)
    ensures SettingsOf(v, query).Accepted? <==> QueryFits(v, query)
  {
    if query != [] {
      var n := |query| - 1;
      QueryAcceptedIff(v, query[..n]);
      assert QueryFits(v, query) <==> QueryFits(v, query[..n]) && FlagFits(v, query[n]);
      if SettingsOf(v, query[..n]).Accepted? {
        ApplyFits(v, SettingsOf(v, query[..n]).value, query[n]);
      }
    }
  }

  /** Otherwise the error is that of the first that is not. */
  lemma QueryErrorIsFirst(v: Vocabulary, query: seq<(string, string)>, i: nat)
    requires IsFirstBad(v, query, i)
    ensures SettingsOf(v, query) == Rejected(FlagError(v, query[i]))
  {
    QueryAcceptedIff(v, query[..i]);
    ApplyFits(v, SettingsOf(v, query[..i]).value, query[i]);
    assert query[..i + 1][..i] == query[..i];
    FirstErrorStands(v, query, i + 1);
  }

  lemma {:induction false} FirstBad(v: Vocabulary, query: seq<(string, string)>) returns (i: nat)
    requires !QueryFits(v, query)
    ensures IsFirstBad(v, query, i)
  {
    var n := |query| - 1;
    if QueryFits(v, query[..n]) {
      assert forall j :: 0 <= j < n ==> query[..n][j] == query[j];
      i := n;
    } else {
      i := FirstBad(v, query[..n]);
      assert query[..n][..i] == query[..i];
    }
  }

  lemma {:induction false} FirstErrorStands(v: Vocabulary, query: seq<(string, string)>, n: nat)
    requires n <= |query| && SettingsOf(v, query[..n]).Rejected?
    ensures SettingsOf(v, query) == SettingsOf(v, query[..n])
  {
    if n == |query| {
      assert query[..n] == query;
    } else {
      assert query[..|query| - 1][..n] == query[..n];
      FirstErrorStands(v, query[..|query| - 1], n);
    }
  }

  // ---------------------------------------------------------------
  // Hosts.
  // ---------------------------------------------------------------

  predicate OccursAt(s: string, infix: string, i: nat) {
    i + |infix| <= |s| && s[i..i + |infix|] == infix
  }

  predicate IsS3Marker(s: string, i: nat) {
    OccursAt(s, ".s3.", i) || OccursAt(s, ".s3-", i)
  }

  /** The rightmost service marker before index `n`. */
  function LastMarker(host: string, n: nat): Option<nat> {
    if n == 0 then None else if IsS3Marker(host, n - 1) then Some(n - 1) else LastMarker(host, n - 1)
  }

  /** `s3_virtual_hosted_bucket`. */
  function VirtualHostedBucket(host: string): Option<string> {
    match LastMarker(host, |host|)
    case None => None
    case Some(i) => if 0 < i <= |host| then Some(host[..i]) else None
  }

  /** `rest` begins with the only service marker in it. */
  predicate IsMarked(rest: string) {
    IsS3Marker(rest, 0) && forall j: nat :: 0 < j < |rest| ==> !IsS3Marker(rest, j)
  }

  /** The bucket is everything before the last service marker, dots and earlier markers included. */
  lemma {:induction false} BucketIsBeforeLastMarker(bucket: string, rest: string)
    requires bucket != "" && IsMarked(rest)
    ensures VirtualHostedBucket(bucket + rest) == Some(bucket)
  {
    var host := bucket + rest;
    forall j: nat ensures IsS3Marker(host, |bucket| + j) == IsS3Marker(rest, j) {
      OccursShifted(bucket, rest, ".s3.", j);
      OccursShifted(bucket, rest, ".s3-", j);
    }
    forall i: nat | |bucket| < i < |host| ensures !IsS3Marker(host, i) {
      assert IsS3Marker(host, |bucket| + (i - |bucket|)) == IsS3Marker(rest, i - |bucket|);
    }
    assert IsS3Marker(host, |bucket| + 0);
    LastMarkerIs(host, |bucket|, |host|);
    assert host[..|bucket|] == bucket;
  }

  lemma OccursShifted(s: string, t: string, infix: string, j: nat)
    ensures OccursAt(s + t, infix, |s| + j) == OccursAt(t, infix, j)
  {
    if j + |infix| <= |t| {
      assert (s + t)[|s| + j..|s| + j + |infix|] == t[j..j + |infix|];
    }
  }

  lemma {:induction false} LastMarkerIs(host: string, i: nat, n: nat)
    requires i < n && IsS3Marker(host, i) && forall j: nat :: i < j < n ==> !IsS3Marker(host, j)
    ensures LastMarker(host, n) == Some(i)
  {
    if n - 1 > i {
      LastMarkerIs(host, i, n - 1);
    }
  }

  /** Only such hosts name a bucket. */
  lemma MarkedWhenBucket(host: string) returns (rest: string)
    requires VirtualHostedBucket(host).Some?
    ensures var bucket := VirtualHostedBucket(host).value;
            bucket != "" && host == bucket + rest && IsMarked(rest)
  {
    var i := LastMarker(host, |host|).value;
    LastMarkerIsLast(host, |host|);
    rest := host[i..];
    assert host == host[..i] + rest;
    forall j: nat ensures IsS3Marker(host, i + j) == IsS3Marker(rest, j) {
      OccursShifted(host[..i], rest, ".s3.", j);
      OccursShifted(host[..i], rest, ".s3-", j);
    }
    assert IsS3Marker(host, i + 0);
  }

  lemma {:induction false} LastMarkerIsLast(host: string, n: nat)
    requires LastMarker(host, n).Some?
    ensures var i := LastMarker(host, n).value;
            i < n && IsS3Marker(host, i) && forall j: nat :: i < j < n ==> !IsS3Marker(host, j)
  {
    if !IsS3Marker(host, n - 1) {
      LastMarkerIsLast(host, n - 1);
    }
  }

  function LeftmostLabel(host: string): Option<string> {
    if Split(host, '.')[0] == "" then None else Some(Split(host, '.')[0])
  }

  /** `detect_azure_addressing`. */
  function DetectAzureAddressing(host: string): Addressing {
    if |Split(host, '.')| > 1 && Split(host, '.')[1] == "blob" then VirtualHosted else PathStyle
  }

  /** What stands before the first dot. */
  predicate IsFirstLabel(host: string, first: string) {
    '.' !in first && (host == first || first + "." <= host)
  }

  lemma LeftmostIsFirst(host: string, first: string)
    requires IsFirstLabel(host, first)
    ensures Split(host, '.')[0] == first
  {
    SplitWhole(first, '.');
    if host != first {
      var rest := host[|first| + 1..];
      assert host == first + ['.'] + rest;
      SplitJoined(first, '.', rest);
    }
  }

  lemma FirstIsLeftmost(host: string)
    ensures IsFirstLabel(host, Split(host, '.')[0])
  {
    var _ := FirstPiece(host, '.');
  }

  /** An account's own host: the account, then the label `blob`, then more labels or nothing. */
  predicate IsBlobHost(host: string, account: string, rest: string) {
    '.' !in account && (rest == "" || rest[0] == '.') && host == account + ".blob" + rest
  }

  ghost predicate IsBlob(host: string) {
    exists account, rest :: IsBlobHost(host, account, rest)
  }

  lemma BlobIsDetected(host: string, account: string, rest: string)
    requires IsBlobHost(host, account, rest)
    ensures DetectAzureAddressing(host) == VirtualHosted && IsFirstLabel(host, account)
  {
    var tail := "blob" + rest;
    assert host == account + ['.'] + tail;
    SplitJoined(account, '.', tail);
    SplitWhole(account, '.');
    BlobFirst(rest);
  }

  lemma BlobFirst(rest: string)
    requires rest == "" || rest[0] == '.'
    ensures Split("blob" + rest, '.')[0] == "blob"
  {
    assert rest != "" ==> "blob" + "." <= "blob" + rest;
    LeftmostIsFirst("blob" + rest, "blob");
  }

  lemma DetectedIsBlob(host: string)
    requires DetectAzureAddressing(host) == VirtualHosted
    ensures IsBlob(host)
  {
    var account := Split(host, '.')[0];
    var tail := FirstPiece(host, '.');
    var more := FirstPiece(tail, '.');
    var rest := if |Split(tail, '.')| > 1 then ['.'] + more else "";
    assert tail == "blob" + rest;
    assert host == account + ".blob" + rest;
    assert IsBlobHost(host, account, rest);
  }

  /** An Azure host is taken as virtual-hosted exactly when `blob` is its second label. */
  lemma BlobIff(host: string)
    ensures DetectAzureAddressing(host) == VirtualHosted <==> IsBlob(host)
  {
    if DetectAzureAddressing(host) == VirtualHosted {
      DetectedIsBlob(host);
    }
    if account, rest :| IsBlobHost(host, account, rest) {
      BlobIsDetected(host, account, rest);
    }
  }

  predicate Contains(s: string, infix: string) {
    exists i: nat :: i <= |s| && OccursAt(s, infix, i)
  }

  const AWS_CHINA := ".amazonaws.com.cn"

  const AWS := ".amazonaws.com"

  function StripSuffix(host: string, suffix: string): (lead: Option<string>)
    ensures lead.Some? <==> exists s :: host == s + suffix
    ensures lead.Some? ==> host == lead.value + suffix
  {
    var n := |host| - |suffix|;
    if n >= 0 && host[n..] == suffix then
      assert host == host[..n] + suffix;
      Some(host[..n])
    else
      assert forall s :: host == s + suffix ==> n == |s| && host[n..] == suffix;
      None
  }

  /** `strip_aws_host_suffix`. */
  function StripAwsSuffix(host: string): Option<string> {
    if StripSuffix(host, AWS_CHINA).Some? then StripSuffix(host, AWS_CHINA) else StripSuffix(host, AWS)
  }

  /** A host that AWS owns, with what stands before its suffix. */
  predicate IsAwsHost(host: string, lead: string) {
    host == lead + AWS || host == lead + AWS_CHINA
  }

  /** No host has both suffixes. */
  lemma AwsLeadIff(host: string, lead: string)
    ensures StripAwsSuffix(host) == Some(lead) <==> IsAwsHost(host, lead)
  {
    if host == lead + AWS {
      assert host[|host| - 1] == 'm';
      assert AWS_CHINA[16] == 'n';
      assert forall s :: host != s + AWS_CHINA;
    }
  }

  /** What `check_aws_s3_host` looks for in the rest of an AWS host. */
  predicate ShowsS3(trimmed: string) {
    var labels := Split(trimmed, '.');
    || trimmed == "s3" || "s3." <= trimmed || "s3-" <= trimmed || labels[|labels| - 1] == "s3"
    || Contains(trimmed, ".s3.") || Contains(trimmed, ".s3-")
  }

  /** `check_aws_s3_host`. */
  predicate IsS3Host(host: string) {
    match StripAwsSuffix(host)
    case None => true
    case Some(trimmed) => ShowsS3(trimmed)
  }

  predicate IsS3Label(name: string) {
    name == "s3" || "s3-" <= name
  }

  lemma OccursAfter(first: string, rest: string, infix: string, i: nat)
    requires '.' !in first && infix != "" && infix[0] == '.' && OccursAt(first + ['.'] + rest, infix, i)
    ensures infix[1..] <= rest || Contains(rest, infix)
  {
    var s, head := first + ['.'] + rest, first + ['.'];
    assert s[i..i + |infix|][0] == '.' && s[i] == '.';
    if i > |first| {
      OccursShifted(head, rest, infix, i - |head|);
    } else {
      assert i == |first|;
      assert s[i..i + |infix|][1..] == rest[..|infix| - 1];
    }
  }

  lemma ContainsAfter(first: string, rest: string, infix: string)
    requires '.' !in first && infix != "" && infix[0] == '.'
    ensures Contains(first + ['.'] + rest, infix) <==> infix[1..] <= rest || Contains(rest, infix)
  {
    var s, head := first + ['.'] + rest, first + ['.'];
    if i: nat :| i <= |s| && OccursAt(s, infix, i) {
      OccursAfter(first, rest, infix, i);
    }
    if infix[1..] <= rest {
      assert infix == ['.'] + infix[1..] && rest[..|infix| - 1] == infix[1..];
      assert s[|first|..|first| + |infix|] == ['.'] + rest[..|infix| - 1];
      assert OccursAt(s, infix, |first|);
    }
    if i: nat :| i <= |rest| && OccursAt(rest, infix, i) {
      OccursShifted(head, rest, infix, i);
      assert OccursAt(s, infix, |head| + i);
    }
  }

  lemma NoDotNoMarker(s: string, infix: string)
    requires '.' !in s && infix != "" && infix[0] == '.'
    ensures !Contains(s, infix)
  {
    forall i: nat | i + |infix| <= |s| ensures !OccursAt(s, infix, i) {
      assert s[i..i + |infix|][0] == s[i];
    }
  }

  lemma ShowsMore(first: string, rest: string)
    requires '.' !in first
    ensures ShowsS3(first + ['.'] + rest) <==> IsS3Label(first) || ShowsS3(rest)
  {
    var s := first + ['.'] + rest;
    SplitJoined(first, '.', rest);
    ContainsAfter(first, rest, ".s3.");
    ContainsAfter(first, rest, ".s3-");
    assert s[|first|] == '.' && s != "s3";
    assert "s3." <= s <==> first == "s3" by {
      if "s3." <= s {
        assert s[0] == 's' && s[1] == '3' && s[2] == '.' && first == s[..|first|];
        assert forall k :: 0 <= k < |first| ==> s[k] == first[k] && s[k] != '.';
      }
    }
    assert "s3-" <= s <==> "s3-" <= first;
    SplitWhole("s3", '.');
  }

  /** One of the labels names the service. */
  predicate NamesService(lead: string) {
    exists i :: 0 <= i < |Split(lead, '.')| && IsS3Label(Split(lead, '.')[i])
  }

  lemma NamesMore(first: string, rest: string)
    requires '.' !in first
    ensures NamesService(first + ['.'] + rest) <==> IsS3Label(first) || NamesService(rest)
  {
    var labels, more := Split(first + ['.'] + rest, '.'), Split(rest, '.');
    SplitJoined(first, '.', rest);
    SplitWhole(first, '.');
    assert labels == [first] + more;
    assert IsS3Label(first) ==> IsS3Label(labels[0]);
    if i :| 0 <= i < |more| && IsS3Label(more[i]) {
      assert IsS3Label(labels[i + 1]);
    }
    if i :| 0 <= i < |labels| && IsS3Label(labels[i]) {
      assert i > 0 ==> IsS3Label(more[i - 1]);
    }
  }

  /** That is exactly what it looks for. */
  lemma {:induction false} ShowsS3Iff(trimmed: string)
    ensures ShowsS3(trimmed) <==> NamesService(trimmed)
    decreases |trimmed|
  {
    var labels := Split(trimmed, '.');
    var rest := FirstPiece(trimmed, '.');
    if |labels| == 1 {
      NoDotNoMarker(trimmed, ".s3.");
      NoDotNoMarker(trimmed, ".s3-");
      assert IsS3Label(labels[0]) <==> NamesService(trimmed);
    } else {
      ShowsS3Iff(rest);
      ShowsMore(labels[0], rest);
      NamesMore(labels[0], rest);
    }
  }

  // ---------------------------------------------------------------
  // Parsing.
  // ---------------------------------------------------------------

  function JoinPrefix(segments: seq<string>): Option<string> {
    if segments == [] then None else Some(JoinSlash(segments))
  }

  /** `resolve_s3_components`: the style, the bucket, and how many segments precede the prefix. */
  function ResolveS3(host: string, segments: seq<string>,
                     forced: Option<Addressing>): (r: Parsed<(Addressing, string, nat)>)
    ensures r.Accepted? ==> r.value.2 <= |segments|
  {
    var aws := if forced == Some(PathStyle) then None else VirtualHostedBucket(host);
    var style := match forced case Some(a) => a case None => if aws.Some? then VirtualHosted else PathStyle;
    match style
    case VirtualHosted =>
      if aws.Some? then Accepted((style, aws.value, 0))
      else if LeftmostLabel(host).None? then Rejected(MissingBucket)
      else Accepted((style, LeftmostLabel(host).value, 0))
    case PathStyle =>
      if segments == [] then Rejected(MissingBucket) else Accepted((style, segments[0], 1))
  }

  /** `finish_s3`. */
  function FinishS3(v: Vocabulary, endpoint: Endpoint, flags: Flags, forced: Option<Addressing>): Parsed<Remote> {
    if flags.credential.Some? then Rejected(FlagNotApplicable)
    else if !IsS3Host(endpoint.host) then Rejected(InvalidAwsS3Endpoint)
    else
      var segments := PathSegments(endpoint.path);
      match ResolveS3(endpoint.host, segments, forced)
      case Rejected(e) => Rejected(e)
      case Accepted((style, bucket, n)) =>
        if !v.isBucket(bucket) then Rejected(InvalidBucket)
        else
          var canonical := if style == VirtualHosted then segments[n..] else [bucket] + segments[n..];
          Accepted(Remote(S3, endpoint.(path := CanonicalPath(canonical)), None, bucket, JoinPrefix(segments[n..]),
              style, flags))
  }

  /** `resolve_azure_components`. */
  function ResolveAzure(style: Addressing, host: string, segments: seq<string>): (r: Parsed<(string, string, nat)>)
    ensures r.Accepted? ==> r.value.2 <= |segments|
  {
    match style
    case VirtualHosted =>
      if LeftmostLabel(host).None? then Rejected(MissingAccount)
      else if segments == [] then Rejected(MissingContainer)
      else Accepted((LeftmostLabel(host).value, segments[0], 1))
    case PathStyle =>
      if segments == [] then Rejected(MissingAccount)
      else if |segments| == 1 then Rejected(MissingContainer)
      else Accepted((segments[0], segments[1], 2))
  }

  /** `finish_azure`. */
  function FinishAzure(v: Vocabulary, endpoint: Endpoint, flags: Flags, forced: Option<Addressing>): Parsed<Remote> {
    if flags.profile.Some? || flags.region.Some? then Rejected(FlagNotApplicable)
    else
      var segments := PathSegments(endpoint.path);
      var style := match forced case Some(a) => a case None => DetectAzureAddressing(endpoint.host);
      match ResolveAzure(style, endpoint.host, segments)
      case Rejected(e) => Rejected(e)
      case Accepted((account, container, n)) =>
        if !v.isAccount(account) then Rejected(InvalidAccount)
        else if !v.isContainer(container) then Rejected(InvalidContainer)
        else
          var canonical := if style == VirtualHosted then [container] + segments[n..]
              else [account, container] + segments[n..];
          Accepted(Remote(Azure, endpoint.(path := CanonicalPath(canonical)), Some(account), container,
              JoinPrefix(segments[n..]), style, flags))
  }

  /** `parse`, from the backend tag and the parsed body. */
  function Parse(v: Vocabulary, backend: Backend, endpoint: Endpoint): Parsed<Remote> {
    if endpoint.scheme == "http" && !endpoint.isLoopback && !v.httpAllowed then Rejected(CleartextHttpForbidden)
    else
      match SettingsOf(v, endpoint.query)
      case Rejected(e) => Rejected(e)
      case Accepted((flags, forced)) =>
        if flags.presignTtl.Some? && !flags.bundleUri then Rejected(PresignTtlWithoutBundleUri)
        else
          match backend
          case S3 => FinishS3(v, endpoint, flags, forced)
          case Azure => FinishAzure(v, endpoint, flags, forced)
  }

  // ---------------------------------------------------------------
  // The text form.
  // ---------------------------------------------------------------

  function Tag(backend: Backend): string {
    match backend
    case S3 => "s3+"
    case Azure => "az+"
  }

  predicate IsHttpBody(body: string) {
    "https://" <= body || "http://" <= body
  }

  /** `detect_backend`. */
  function DetectBackend(input: string): Option<(Backend, string)> {
    if "s3+" <= input && IsHttpBody(input[3..]) then Some((S3, input[3..]))
    else if "az+" <= input && IsHttpBody(input[3..]) then Some((Azure, input[3..]))
    else None
  }

  /** The tag that Display writes is the one that parsing strips. */
  lemma TagIsRecovered(backend: Backend, body: string)
    requires IsHttpBody(body)
    ensures DetectBackend(Tag(backend) + body) == Some((backend, body))
  {
    var input := Tag(backend) + body;
    assert input[3..] == body && input[0] == Tag(backend)[0];
  }

  // ---------------------------------------------------------------
  // Canonical form.
  // ---------------------------------------------------------------

  lemma Reassembled(segments: seq<string>)
    ensures |segments| >= 1 ==> [segments[0]] + segments[1..] == segments
    ensures |segments| >= 2 ==> [segments[0], segments[1]] + segments[2..] == segments
    ensures segments[0..] == segments
  {
  }

  /** The bucket, when it is on the path, and the prefix are all of the segments. */
  lemma S3Segments(host: string, segments: seq<string>, forced: Option<Addressing>)
    requires ResolveS3(host, segments, forced).Accepted?
    ensures var (style, bucket, n) := ResolveS3(host, segments, forced).value;
            (if style == VirtualHosted then segments[n..] else [bucket] + segments[n..]) == segments
  {
    Reassembled(segments);
  }

  lemma S3IsCanonical(v: Vocabulary, endpoint: Endpoint, flags: Flags, forced: Option<Addressing>)
    requires FinishS3(v, endpoint, flags, forced).Accepted?
    ensures FinishS3(v, endpoint, flags, forced).value.endpoint.path == CanonicalPath(PathSegments(endpoint.path))
  {
    S3Segments(endpoint.host, PathSegments(endpoint.path), forced);
  }

  /** The canonical path has the segments of the original. */
  lemma S3KeepsSegments(v: Vocabulary, endpoint: Endpoint, flags: Flags, forced: Option<Addressing>)
    requires FinishS3(v, endpoint, flags, forced).Accepted?
    ensures PathSegments(FinishS3(v, endpoint, flags, forced).value.endpoint.path) == PathSegments(endpoint.path)
  {
    S3IsCanonical(v, endpoint, flags, forced);
    SegmentsAre(endpoint.path);
    CanonicalSegments(PathSegments(endpoint.path));
  }

  lemma AzureIsCanonical(v: Vocabulary, endpoint: Endpoint, flags: Flags, forced: Option<Addressing>)
    requires FinishAzure(v, endpoint, flags, forced).Accepted?
    ensures FinishAzure(v, endpoint, flags, forced).value.endpoint.path == CanonicalPath(PathSegments(endpoint.path))
  {
    Reassembled(PathSegments(endpoint.path));
  }

  lemma AzureKeepsSegments(v: Vocabulary, endpoint: Endpoint, flags: Flags, forced: Option<Addressing>)
    requires FinishAzure(v, endpoint, flags, forced).Accepted?
    ensures PathSegments(FinishAzure(v, endpoint, flags, forced).value.endpoint.path) == PathSegments(endpoint.path)
  {
    AzureIsCanonical(v, endpoint, flags, forced);
    SegmentsAre(endpoint.path);
    CanonicalSegments(PathSegments(endpoint.path));
  }

  /** Parsing what an accepted URL displays as gives the same remote, in both backends and styles. */
  lemma CanonicalIsFixpoint(v: Vocabulary, backend: Backend, endpoint: Endpoint)
    requires Parse(v, backend, endpoint).Accepted?
    ensures var r := Parse(v, backend, endpoint).value;
            r.backend == backend && Parse(v, r.backend, r.endpoint) == Accepted(r)
  {
    var (flags, forced) := SettingsOf(v, endpoint.query).value;
    match backend
    case S3 =>
      S3KeepsSegments(v, endpoint, flags, forced);
      SlashesDoNotMatter(v, S3, endpoint, FinishS3(v, endpoint, flags, forced).value.endpoint.path);
    case Azure =>
      AzureKeepsSegments(v, endpoint, flags, forced);
      SlashesDoNotMatter(v, Azure, endpoint, FinishAzure(v, endpoint, flags, forced).value.endpoint.path);
  }

  /** URLs that differ only in doubled or trailing slashes are one remote. */
  lemma SlashesDoNotMatter(v: Vocabulary, backend: Backend, endpoint: Endpoint, path: string)
    requires PathSegments(path) == PathSegments(endpoint.path)
    ensures Parse(v, backend, endpoint.(path := path)) == Parse(v, backend, endpoint)
  {
    var other := endpoint.(path := path);
    assert other.query == endpoint.query && other.scheme == endpoint.scheme && other.isLoopback == endpoint.isLoopback;
    forall flags, forced ensures FinishS3(v, other, flags, forced) == FinishS3(v, endpoint, flags, forced) {
      SlashesS3(v, endpoint, path, flags, forced);
    }
    forall flags, forced ensures FinishAzure(v, other, flags, forced) == FinishAzure(v, endpoint, flags, forced) {
      SlashesAzure(v, endpoint, path, flags, forced);
    }
  }

  lemma SlashesS3(v: Vocabulary, endpoint: Endpoint, path: string, flags: Flags, forced: Option<Addressing>)
    requires PathSegments(path) == PathSegments(endpoint.path)
    ensures FinishS3(v, endpoint.(path := path), flags, forced) == FinishS3(v, endpoint, flags, forced)
  {
  }

  lemma SlashesAzure(v: Vocabulary, endpoint: Endpoint, path: string, flags: Flags, forced: Option<Addressing>)
    requires PathSegments(path) == PathSegments(endpoint.path)
    ensures FinishAzure(v, endpoint.(path := path), flags, forced) == FinishAzure(v, endpoint, flags, forced)
  {
  }

  // ---------------------------------------------------------------
  // What a URL means.
  // ---------------------------------------------------------------

  /** Cleartext to a host that is not this one, without the override. */
  predicate IsCleartext(v: Vocabulary, endpoint: Endpoint) {
    endpoint.scheme == "http" && !endpoint.isLoopback && !v.httpAllowed
  }

  predicate Names(query: seq<(string, string)>, name: string) {
    exists i :: 0 <= i < |query| && query[i].0 == name
  }

  /** A lifetime for presigned URLs that will not be advertised. */
  predicate IsTtlAlone(v: Vocabulary, query: seq<(string, string)>) {
    Names(query, "bundle_uri_presign_ttl") && !IsOn(v, query, "bundle_uri")
  }

  /** A flag that only the other backend has. */
  predicate IsMisplaced(backend: Backend, query: seq<(string, string)>) {
    match backend
    case S3 => Names(query, "credential")
    case Azure => Names(query, "profile") || Names(query, "region")
  }

  /** An AWS host none of whose labels names the service. */
  ghost predicate IsWrongAwsHost(host: string) {
    exists lead :: IsAwsHost(host, lead) && !NamesService(lead)
  }

  /** Nothing is wrong apart from, perhaps, where the container is. */
  ghost predicate Passes(v: Vocabulary, backend: Backend, endpoint: Endpoint) {
    && !IsCleartext(v, endpoint) && QueryFits(v, endpoint.query) && !IsTtlAlone(v, endpoint.query)
    && !IsMisplaced(backend, endpoint.query) && (backend == S3 ==> !IsWrongAwsHost(endpoint.host))
  }

  /** The flags of a query say which names are in it. */
  lemma FlagsTell(v: Vocabulary, query: seq<(string, string)>)
    requires SettingsOf(v, query).Accepted?
    ensures var flags := SettingsOf(v, query).value.0;
            && (flags.presignTtl.Some? && !flags.bundleUri <==> IsTtlAlone(v, query))
            && (flags.credential.Some? <==> IsMisplaced(S3, query))
            && (flags.profile.Some? || flags.region.Some? <==> IsMisplaced(Azure, query))
  {
    FlagsMean(v, query);
    QueryAcceptedIff(v, query);
    var ttl := LastNamed(query, "bundle_uri_presign_ttl");
    if ttl.Some? {
      var i: nat :| IsLastNamed(query, "bundle_uri_presign_ttl", ttl.value, i);
      assert FlagFits(v, query[i]);
    }
  }

  /** Each early refusal is for what it says, with nothing earlier to refuse. */
  lemma EarlyRefusals(v: Vocabulary, backend: Backend, endpoint: Endpoint)
    ensures var (p, query) := (Parse(v, backend, endpoint), endpoint.query);
            && (p == Rejected(CleartextHttpForbidden) <==> IsCleartext(v, endpoint))
            && (p == Rejected(PresignTtlWithoutBundleUri) <==>
                !IsCleartext(v, endpoint) && QueryFits(v, query) && IsTtlAlone(v, query))
  {
    QueryAcceptedIff(v, endpoint.query);
    if QueryFits(v, endpoint.query) {
      FlagsTell(v, endpoint.query);
    } else {
      var i := FirstBad(v, endpoint.query);
      QueryErrorIsFirst(v, endpoint.query, i);
    }
  }

  lemma MisplacedRefusals(v: Vocabulary, backend: Backend, endpoint: Endpoint)
    ensures var (p, query) := (Parse(v, backend, endpoint), endpoint.query);
            && (p == Rejected(FlagNotApplicable) <==>
                && !IsCleartext(v, endpoint) && QueryFits(v, query) && !IsTtlAlone(v, query)
                && IsMisplaced(backend, query))
            && (p == Rejected(InvalidAwsS3Endpoint) <==>
                && !IsCleartext(v, endpoint) && QueryFits(v, query) && !IsTtlAlone(v, query)
                && !IsMisplaced(backend, query) && backend == S3 && IsWrongAwsHost(endpoint.host))
  {
    QueryAcceptedIff(v, endpoint.query);
    if QueryFits(v, endpoint.query) {
      FlagsTell(v, endpoint.query);
      AwsHostIff(endpoint.host);
    } else {
      var i := FirstBad(v, endpoint.query);
      QueryErrorIsFirst(v, endpoint.query, i);
    }
  }

  lemma AwsHostIff(host: string)
    ensures IsS3Host(host) <==> !IsWrongAwsHost(host)
  {
    forall lead ensures IsAwsHost(host, lead) <==> StripAwsSuffix(host) == Some(lead) {
      AwsLeadIff(host, lead);
    }
    match StripAwsSuffix(host)
    case None =>
    case Some(lead) =>
      ShowsS3Iff(lead);
      assert IsAwsHost(host, lead);
  }

  /** A query with a bad pair is refused with the error of the first. */
  lemma BadQueryRefused(v: Vocabulary, backend: Backend, endpoint: Endpoint, i: nat)
    requires !IsCleartext(v, endpoint) && IsFirstBad(v, endpoint.query, i)
    ensures Parse(v, backend, endpoint) == Rejected(FlagError(v, endpoint.query[i]))
  {
    QueryErrorIsFirst(v, endpoint.query, i);
  }

  /** The text that `segments` are joined to; none for none. */
  predicate IsJoined(text: Option<string>, segments: seq<string>) {
    match text
    case None => segments == []
    case Some(t) => segments != [] && Split(t, '/') == segments
  }

  /**
   * The whole remote: where the container is, the rest of the path as prefix, the flags of the
   * query, and the endpoint as it came apart from the spelling of its path.
   */
  predicate Locates(r: Remote, v: Vocabulary, endpoint: Endpoint, backend: Backend, style: Addressing,
                    account: Option<string>, container: string, prefix: seq<string>)
  {
    && r.backend == backend && r.addressing == style && r.account == account && r.container == container
    && IsJoined(r.prefix, prefix) && FlagsAre(v, endpoint.query, r.flags)
    && r.endpoint == endpoint.(path := r.endpoint.path) && IsPathOf(r.endpoint.path, PathSegments(endpoint.path))
  }

  /** That remote, if the bucket has a name for one. */
  predicate GivesBucket(p: Parsed<Remote>, v: Vocabulary, endpoint: Endpoint, style: Addressing, bucket: string,
                        prefix: seq<string>)
  {
    if !v.isBucket(bucket) then p == Rejected(InvalidBucket)
    else p.Accepted? && Locates(p.value, v, endpoint, S3, style, None, bucket, prefix)
  }

  predicate GivesContainer(p: Parsed<Remote>, v: Vocabulary, endpoint: Endpoint, style: Addressing, account: string,
                           container: string, prefix: seq<string>)
  {
    if !v.isAccount(account) then p == Rejected(InvalidAccount)
    else if !v.isContainer(container) then p == Rejected(InvalidContainer)
    else p.Accepted? && Locates(p.value, v, endpoint, Azure, style, Some(account), container, prefix)
  }

  lemma PrefixIs(segments: seq<string>, n: nat)
    requires n <= |segments| && forall i :: 0 <= i < |segments| ==> IsSegment(segments[i])
    ensures IsJoined(JoinPrefix(segments[n..]), segments[n..])
  {
    if segments[n..] != [] {
      JoinedSplits(segments[n..]);
    }
  }

  /** What is made of the endpoint's settings and segments is that remote. */
  lemma MadeLocates(r: Remote, v: Vocabulary, endpoint: Endpoint, n: nat)
    requires SettingsOf(v, endpoint.query).Accepted? && n <= |PathSegments(endpoint.path)|
    requires r.endpoint == endpoint.(path := CanonicalPath(PathSegments(endpoint.path)))
    requires r.flags == SettingsOf(v, endpoint.query).value.0
    requires r.prefix == JoinPrefix(PathSegments(endpoint.path)[n..])
    ensures Locates(r, v, endpoint, r.backend, r.addressing, r.account, r.container, PathSegments(endpoint.path)[n..])
  {
    FlagsMean(v, endpoint.query);
    SegmentsAre(endpoint.path);
    CanonicalSegments(PathSegments(endpoint.path));
    PrefixIs(PathSegments(endpoint.path), n);
  }

  /** The host names a bucket of its own. */
  ghost predicate NamesBucket(host: string) {
    exists bucket, rest :: IsBucketHost(host, bucket, rest)
  }

  predicate IsBucketHost(host: string, bucket: string, rest: string) {
    bucket != "" && IsMarked(rest) && host == bucket + rest
  }

  lemma BucketIff(host: string)
    ensures VirtualHostedBucket(host).Some? <==> NamesBucket(host)
  {
    if VirtualHostedBucket(host).Some? {
      var rest := MarkedWhenBucket(host);
      assert IsBucketHost(host, VirtualHostedBucket(host).value, rest);
    }
    if bucket, rest :| IsBucketHost(host, bucket, rest) {
      BucketIsBeforeLastMarker(bucket, rest);
    }
  }

  lemma PassedS3(v: Vocabulary, endpoint: Endpoint) returns (flags: Flags, forced: Option<Addressing>)
    requires Passes(v, S3, endpoint)
    ensures SettingsOf(v, endpoint.query) == Accepted((flags, forced)) && StyleIs(endpoint.query, forced)
    ensures Parse(v, S3, endpoint) == FinishS3(v, endpoint, flags, forced)
    ensures flags.credential.None? && IsS3Host(endpoint.host)
  {
    QueryAcceptedIff(v, endpoint.query);
    FlagsTell(v, endpoint.query);
    StyleMeans(v, endpoint.query);
    AwsHostIff(endpoint.host);
    flags, forced := SettingsOf(v, endpoint.query).value.0, SettingsOf(v, endpoint.query).value.1;
  }

  lemma FinishedS3(v: Vocabulary, endpoint: Endpoint, style: Addressing, bucket: string, n: nat)
    requires Passes(v, S3, endpoint)
    requires SettingsOf(v, endpoint.query).Accepted?
    requires ResolveS3(endpoint.host, PathSegments(endpoint.path), SettingsOf(v, endpoint.query).value.1)
             == Accepted((style, bucket, n))
    ensures GivesBucket(Parse(v, S3, endpoint), v, endpoint, style, bucket, PathSegments(endpoint.path)[n..])
  {
    var flags, forced := PassedS3(v, endpoint);
    if v.isBucket(bucket) {
      S3IsCanonical(v, endpoint, flags, forced);
      MadeLocates(FinishS3(v, endpoint, flags, forced).value, v, endpoint, n);
    }
  }

  /** A host with a service marker names the bucket unless path style is asked for; all of the path is prefix. */
  lemma S3MarkedUrl(v: Vocabulary, endpoint: Endpoint, bucket: string, rest: string)
    requires Passes(v, S3, endpoint) && LastNamed(endpoint.query, "addressing") != Some("path")
    requires bucket != "" && IsMarked(rest) && endpoint.host == bucket + rest
    ensures GivesBucket(Parse(v, S3, endpoint), v, endpoint, VirtualHosted, bucket, PathSegments(endpoint.path))
  {
    var segments := PathSegments(endpoint.path);
    var flags, forced := PassedS3(v, endpoint);
    BucketIsBeforeLastMarker(bucket, rest);
    FinishedS3(v, endpoint, VirtualHosted, bucket, 0);
    assert segments[0..] == segments;
  }

  /** Any other host asked for as virtual names it by its first label. */
  lemma S3LabelUrl(v: Vocabulary, endpoint: Endpoint, first: string)
    requires Passes(v, S3, endpoint) && LastNamed(endpoint.query, "addressing") == Some("virtual")
    requires !NamesBucket(endpoint.host) && IsFirstLabel(endpoint.host, first)
    ensures if first == "" then Parse(v, S3, endpoint) == Rejected(MissingBucket)
            else GivesBucket(Parse(v, S3, endpoint), v, endpoint, VirtualHosted, first, PathSegments(endpoint.path))
  {
    var segments := PathSegments(endpoint.path);
    var flags, forced := PassedS3(v, endpoint);
    BucketIff(endpoint.host);
    LeftmostIsFirst(endpoint.host, first);
    if first != "" {
      FinishedS3(v, endpoint, VirtualHosted, first, 0);
      assert segments[0..] == segments;
    }
  }

  /** The S3 endpoint is taken in path style. */
  ghost predicate IsS3Path(endpoint: Endpoint) {
    match LastNamed(endpoint.query, "addressing")
    case None => !NamesBucket(endpoint.host)
    case Some(value) => value == "path"
  }

  /** In path style the first segment is the bucket. */
  lemma S3PathUrl(v: Vocabulary, endpoint: Endpoint)
    requires Passes(v, S3, endpoint) && IsS3Path(endpoint)
    ensures var (p, segments) := (Parse(v, S3, endpoint), PathSegments(endpoint.path));
            if segments == [] then p == Rejected(MissingBucket)
            else GivesBucket(p, v, endpoint, PathStyle, segments[0], segments[1..])
  {
    var flags, forced := PassedS3(v, endpoint);
    BucketIff(endpoint.host);
    if PathSegments(endpoint.path) != [] {
      FinishedS3(v, endpoint, PathStyle, PathSegments(endpoint.path)[0], 1);
    }
  }

  lemma PassedAzure(v: Vocabulary, endpoint: Endpoint) returns (flags: Flags, forced: Option<Addressing>)
    requires Passes(v, Azure, endpoint)
    ensures SettingsOf(v, endpoint.query) == Accepted((flags, forced)) && StyleIs(endpoint.query, forced)
    ensures Parse(v, Azure, endpoint) == FinishAzure(v, endpoint, flags, forced)
    ensures flags.profile.None? && flags.region.None?
  {
    QueryAcceptedIff(v, endpoint.query);
    FlagsTell(v, endpoint.query);
    StyleMeans(v, endpoint.query);
    flags, forced := SettingsOf(v, endpoint.query).value.0, SettingsOf(v, endpoint.query).value.1;
  }

  lemma FinishedAzure(v: Vocabulary, endpoint: Endpoint, flags: Flags, forced: Option<Addressing>, style: Addressing,
                      account: string, container: string, n: nat)
    requires SettingsOf(v, endpoint.query) == Accepted((flags, forced)) && flags.profile.None? && flags.region.None?
    requires style == match forced case Some(a) => a case None => DetectAzureAddressing(endpoint.host)
    requires ResolveAzure(style, endpoint.host, PathSegments(endpoint.path)) == Accepted((account, container, n))
    ensures GivesContainer(FinishAzure(v, endpoint, flags, forced), v, endpoint, style, account, container,
                           PathSegments(endpoint.path)[n..])
  {
    if v.isAccount(account) && v.isContainer(container) {
      AzureIsCanonical(v, endpoint, flags, forced);
      MadeLocates(FinishAzure(v, endpoint, flags, forced).value, v, endpoint, n);
    }
  }

  /** The Azure endpoint is taken as virtual-hosted. */
  ghost predicate IsAzureVirtual(endpoint: Endpoint) {
    match LastNamed(endpoint.query, "addressing")
    case None => IsBlob(endpoint.host)
    case Some(value) => value == "virtual"
  }

  /** Then the first label is the account and the first segment the container. */
  lemma AzureVirtualUrl(v: Vocabulary, endpoint: Endpoint, account: string)
    requires Passes(v, Azure, endpoint) && IsAzureVirtual(endpoint) && IsFirstLabel(endpoint.host, account)
    ensures var (p, segments) := (Parse(v, Azure, endpoint), PathSegments(endpoint.path));
            if account == "" then p == Rejected(MissingAccount)
            else if segments == [] then p == Rejected(MissingContainer)
            else GivesContainer(p, v, endpoint, VirtualHosted, account, segments[0], segments[1..])
  {
    var flags, forced := PassedAzure(v, endpoint);
    BlobIff(endpoint.host);
    LeftmostIsFirst(endpoint.host, account);
    if account != "" && PathSegments(endpoint.path) != [] {
      FinishedAzure(v, endpoint, flags, forced, VirtualHosted, account, PathSegments(endpoint.path)[0], 1);
    }
  }

  /** Otherwise the first segment is the account and the second the container. */
  lemma AzurePathUrl(v: Vocabulary, endpoint: Endpoint)
    requires Passes(v, Azure, endpoint) && !IsAzureVirtual(endpoint)
    ensures var (p, segments) := (Parse(v, Azure, endpoint), PathSegments(endpoint.path));
            if segments == [] then p == Rejected(MissingAccount)
            else if |segments| == 1 then p == Rejected(MissingContainer)
            else GivesContainer(p, v, endpoint, PathStyle, segments[0], segments[1], segments[2..])
  {
    var flags, forced := PassedAzure(v, endpoint);
    BlobIff(endpoint.host);
    if |PathSegments(endpoint.path)| > 1 {
      FinishedAzure(v, endpoint, flags, forced, PathStyle, PathSegments(endpoint.path)[0],
                    PathSegments(endpoint.path)[1], 2);
    }
  }

  /** The URL of a container in an account's own host, with no style asked for, is that container. */
  lemma AzureBlobUrl(v: Vocabulary, endpoint: Endpoint, account: string, rest: string, container: string,
                     prefix: seq<string>)
    requires Passes(v, Azure, endpoint) && LastNamed(endpoint.query, "addressing") == None
    requires account != "" && '.' !in account && (rest == "" || rest[0] == '.')
    requires endpoint.host == account + ".blob" + rest && PathSegments(endpoint.path) == [container] + prefix
    ensures GivesContainer(Parse(v, Azure, endpoint), v, endpoint, VirtualHosted, account, container, prefix)
  {
    assert IsBlobHost(endpoint.host, account, rest);
    BlobIsDetected(endpoint.host, account, rest);
    AzureVirtualUrl(v, endpoint, account);
    assert PathSegments(endpoint.path)[1..] == prefix;
  }

  /** Nothing before the first dot. */
  predicate HasNoLabel(host: string) {
    host == "" || host[0] == '.'
  }

  lemma NoLabelIff(host: string)
    ensures HasNoLabel(host) <==> IsFirstLabel(host, "")
  {
  }

  /** What is missing, if anything is. */
  lemma MissingPlaces(v: Vocabulary, endpoint: Endpoint)
    ensures var segments := PathSegments(endpoint.path);
            && (Passes(v, S3, endpoint) ==>
                (Parse(v, S3, endpoint) == Rejected(MissingBucket) <==>
                 if IsS3Path(endpoint) then segments == []
                 else !NamesBucket(endpoint.host) && HasNoLabel(endpoint.host)))
            && (Passes(v, Azure, endpoint) ==>
                (Parse(v, Azure, endpoint) == Rejected(MissingAccount) <==>
                 if IsAzureVirtual(endpoint) then HasNoLabel(endpoint.host) else segments == [])
                && (Parse(v, Azure, endpoint) == Rejected(MissingContainer) <==>
                    if IsAzureVirtual(endpoint) then !HasNoLabel(endpoint.host) && segments == [] else |segments| == 1))
  {
    FirstIsLeftmost(endpoint.host);
    NoLabelIff(endpoint.host);
    if Passes(v, S3, endpoint) {
      S3Missing(v, endpoint);
    }
    if Passes(v, Azure, endpoint) {
      if IsAzureVirtual(endpoint) {
        AzureVirtualUrl(v, endpoint, Split(endpoint.host, '.')[0]);
      } else {
        AzurePathUrl(v, endpoint);
      }
    }
  }

  lemma S3Missing(v: Vocabulary, endpoint: Endpoint)
    requires Passes(v, S3, endpoint)
    ensures Parse(v, S3, endpoint) == Rejected(MissingBucket) <==>
            if IsS3Path(endpoint) then PathSegments(endpoint.path) == []
            else !NamesBucket(endpoint.host) && HasNoLabel(endpoint.host)
  {
    FirstIsLeftmost(endpoint.host);
    NoLabelIff(endpoint.host);
    if IsS3Path(endpoint) {
      S3PathUrl(v, endpoint);
    } else if bucket, rest :| IsBucketHost(endpoint.host, bucket, rest) {
      S3MarkedUrl(v, endpoint, bucket, rest);
    } else {
      var _, forced := PassedS3(v, endpoint);
      S3LabelUrl(v, endpoint, Split(endpoint.host, '.')[0]);
    }
  }
}
