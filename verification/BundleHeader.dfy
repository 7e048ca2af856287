// The text header of a git bundle: its bounded reader and its writer (src/bundle.rs).
module BundleHeader {
  import opened Base
  import opened ObjectDb
  import ShallowFile

  const LF: byte := 10
  const CR: byte := 13
  const SPACE: byte := 32
  const DASH: byte := 45

  const MAX_HEADER_LINE_BYTES := 16 * 1_024
  const MAX_HEADER_TOTAL_BYTES := 64 * 1_024 * 1_024

  /** "# v2 git bundle" and "# v3 git bundle". */
  const BUNDLE_V2_MAGIC: Bytes := [35, 32, 118, 50, 32, 103, 105, 116, 32, 98, 117, 110, 100, 108, 101]
  const BUNDLE_V3_MAGIC: Bytes := [35, 32, 118, 51, 32, 103, 105, 116, 32, 98, 117, 110, 100, 108, 101]

  const PACK: Bytes := [80, 65, 67, 75]

  // ---------------------------------------------------------------
  // Bytes and lines.
  // ---------------------------------------------------------------

  predicate IsCont(b: byte) {
    0x80 <= b <= 0xBF
  }

  /** The length of the character `s` begins with, 0 when it is ill-formed (table 3-7 of the Unicode standard). */
  function CharLen(s: Bytes): (n: nat)
    requires s != []
    ensures n <= |s|
  {
    if s[0] <= 0x7F then 1
    else if 0xC2 <= s[0] <= 0xDF && |s| >= 2 && IsCont(s[1]) then 2
    else if 0xE0 <= s[0] <= 0xEF && |s| >= 3 && IsCont(s[1]) && IsCont(s[2])
            && (s[0] == 0xE0 ==> s[1] >= 0xA0) && (s[0] == 0xED ==> s[1] <= 0x9F) then 3
    else if 0xF0 <= s[0] <= 0xF4 && |s| >= 4 && IsCont(s[1]) && IsCont(s[2]) && IsCont(s[3])
            && (s[0] == 0xF0 ==> s[1] >= 0x90) && (s[0] == 0xF4 ==> s[1] <= 0x8F) then 4
    else 0
  }

  predicate IsUtf8(s: Bytes) {
    s == [] || (CharLen(s) > 0 && IsUtf8(s[CharLen(s)..]))
  }

  /** `trim_end_matches(['\n', '\r'])`. */
  function TrimEol(s: Bytes): Bytes {
    if s != [] && (s[|s| - 1] == LF || s[|s| - 1] == CR) then TrimEol(s[..|s| - 1]) else s
  }

  /** `split_once(' ')`. */
  function SplitAtSpace(s: Bytes): (r: Option<(Bytes, Bytes)>)
    ensures r.Some? ==> s == r.value.0 + [SPACE] + r.value.1 && SPACE !in r.value.0
    ensures r.None? <==> SPACE !in s
  {
    if s == [] then None
    else if s[0] == SPACE then Some(([], s[1..]))
    else
      match SplitAtSpace(s[1..])
      case None => None
      case Some(halves) => Some(([s[0]] + halves.0, halves.1))
  }

  /** One line of a text: it ends in a newline and has no other. */
  predicate IsLine(line: Bytes) {
    line != [] && line[|line| - 1] == LF && LF !in line[..|line| - 1]
  }

  // ---------------------------------------------------------------
  // Entries.
  // ---------------------------------------------------------------

  datatype Entry = End | Prerequisite(oid: Oid) | Ref(oid: Oid, name: Bytes)

  /** `parse_header_entry`; None is a malformed line. */
  function ParseEntry(line: Bytes): Option<Entry> {
    var trimmed := TrimEol(line);
    if trimmed == [] then Some(End)
    else if trimmed[0] == DASH then
      var rest := trimmed[1..];
      match ShallowFile.FromHex(FirstWord(rest))
      case None => None
      case Some(oid) => Some(Prerequisite(oid))
    else
      match SplitAtSpace(trimmed)
      case None => None
      case Some(halves) =>
        if halves.0 == [] || halves.1 == [] then None
        else
          match ShallowFile.FromHex(halves.0)
          case None => None
          case Some(oid) => Some(Ref(oid, halves.1))
  }

  function PrerequisitesOf(lines: seq<Bytes>): seq<Oid> {
    if lines == [] then []
    else
      var rest := PrerequisitesOf(lines[..|lines| - 1]);
      match ParseEntry(lines[|lines| - 1])
      case Some(Prerequisite(oid)) => rest + [oid]
      case _ => rest
  }

  function RefsOf(lines: seq<Bytes>): seq<(Oid, Bytes)> {
    if lines == [] then []
    else
      var rest := RefsOf(lines[..|lines| - 1]);
      match ParseEntry(lines[|lines| - 1])
      case Some(Ref(oid, name)) => rest + [(oid, name)]
      case _ => rest
  }

  // ---------------------------------------------------------------
  // What a well-formed header is.
  // ---------------------------------------------------------------

  predicate IsBoundedLine(line: Bytes) {
    IsLine(line) && |line| <= MAX_HEADER_LINE_BYTES && IsUtf8(line)
  }

  /** A line before the blank one: the magic first, then entries. */
  predicate IsBodyLine(line: Bytes, i: nat) {
    && IsBoundedLine(line)
    && if i == 0 then TrimEol(line) == BUNDLE_V2_MAGIC
       else ParseEntry(line).Some? && !ParseEntry(line).value.End?
  }

  /**
   * The file begins with these lines, the magic, the entries and a blank line, within both
   * caps, and then with PACK.
   */
  ghost predicate IsHeader(data: Bytes, lines: seq<Bytes>) {
    && |lines| >= 2
    && (forall i: nat {:trigger IsBodyLine(lines[i], i)} :: i < |lines| - 1 ==> IsBodyLine(lines[i], i))
    && IsBoundedLine(lines[|lines| - 1]) && TrimEol(lines[|lines| - 1]) == []
    && |Joined(lines)| <= MAX_HEADER_TOTAL_BYTES
    && Joined(lines) + PACK <= data
  }

  // ---------------------------------------------------------------
  // Reading.
  // ---------------------------------------------------------------

  datatype HeaderError =
    | TotalTooLong | LineTooLong | UnexpectedEnd | NotUtf8 | BadMagic | UnsupportedVersion | BadEntry | NoPack

  datatype Header = Header(prerequisites: seq<Oid>, refs: seq<(Oid, Bytes)>, packOffset: nat)

  datatype ReadResult = Parsed(header: Header) | Refused(error: HeaderError)

  /** The line that can be read at the start of `rest` when `total` bytes were read before it. */
  predicate Readable(rest: Bytes, total: nat, line: Bytes) {
    && line <= rest && line != [] && IsUtf8(line) && LF !in line[..|line| - 1]
    && |line| <= MAX_HEADER_LINE_BYTES && total + |line| <= MAX_HEADER_TOTAL_BYTES
    && (line[|line| - 1] == LF
         || (line == rest && |line| < MAX_HEADER_LINE_BYTES && total + |line| < MAX_HEADER_TOTAL_BYTES))
  }

  class HeaderReader {
    const data: Bytes
    var pos: nat
    var totalBytes: nat
    var line: Bytes

    constructor (data: Bytes)
      ensures this.data == data && pos == 0 && totalBytes == 0
    {
      this.data, pos, totalBytes, line := data, 0, 0, [];
    }

    /** `take(budget).read_until(b'\n', buf)`. */
    method ReadUntilNewline(budget: nat) returns (buf: Bytes)
      requires pos <= |data|
      modifies this`pos
      ensures old(pos) <= pos <= |data| && buf == data[old(pos)..pos] && |buf| <= budget
      ensures buf != [] ==> LF !in buf[..|buf| - 1]
      ensures |buf| == budget || pos == |data| || (buf != [] && buf[|buf| - 1] == LF)
    {
      var start := pos;
      buf := [];
      while pos < |data| && |buf| < budget && (buf == [] || buf[|buf| - 1] != LF)
        invariant start <= pos <= |data| && buf == data[start..pos] && |buf| <= budget
        invariant buf != [] ==> LF !in buf[..|buf| - 1]
        decreases |data| - pos
      {
        assert LF !in buf;
        assert data[start..pos + 1] == buf + [data[pos]];
        buf := buf + [data[pos]];
        pos := pos + 1;
      }
    }

    /** `read_header_line`: refuses exactly when no line is readable here. */
    method ReadHeaderLine() returns (error: Option<HeaderError>)
      requires pos <= |data|
      modifies this`pos, this`totalBytes, this`line
      ensures error.Some? ==> forall l :: !Readable(data[old(pos)..], old(totalBytes), l)
      ensures error.None? ==> Readable(data[old(pos)..], old(totalBytes), line)
      ensures error.None? ==>
                && pos == old(pos) + |line| <= |data| && line == data[old(pos)..pos]
                && totalBytes == old(totalBytes) + |line|
    {
      var remaining := if totalBytes <= MAX_HEADER_TOTAL_BYTES then MAX_HEADER_TOTAL_BYTES - totalBytes else 0;
      var budget := if MAX_HEADER_LINE_BYTES <= remaining then MAX_HEADER_LINE_BYTES else remaining;
      if budget == 0 {
        return Some(TotalTooLong);
      }
      var buf := ReadUntilNewline(budget);
      ghost var rest := data[old(pos)..];
      assert buf == rest[..|buf|];
      if buf == [] {
        assert rest == [];
        return Some(UnexpectedEnd);
      }
      forall l | Readable(rest, totalBytes, l) ensures l == buf {
        OneReadableLine(rest, totalBytes, l, buf);
      }
      if |buf| == budget && buf[|buf| - 1] != LF {
        return Some(if budget < MAX_HEADER_LINE_BYTES then TotalTooLong else LineTooLong);
      }
      if !IsUtf8(buf) {
        return Some(NotUtf8);
      }
      line, totalBytes := buf, totalBytes + |buf|;
      return None;
    }

    /** `verify_pack_magic`. */
    method VerifyPackMagic() returns (ok: bool)
      requires pos <= |data|
      modifies this`pos
      ensures ok <==> PACK <= data[old(pos)..]
    {
      if |data| - pos < |PACK| {
        return false;
      }
      ok := data[pos..pos + |PACK|] == PACK;
      ghost var rest := data[pos..];
      assert rest[..|PACK|] == data[pos..pos + |PACK|];
      pos := pos + |PACK|;
    }

    /** The next header line, which every well-formed header would have here. */
    method NextHeaderLine(ghost lines: seq<Bytes>) returns (error: Option<HeaderError>)
      requires ReadSoFar(data, lines) && pos == totalBytes == |Joined(lines)|
      modifies this`pos, this`totalBytes, this`line
      ensures error.Some? ==> forall ls :: !IsHeader(data, ls)
      ensures error.None? ==> IsNext(data, lines, line) && pos == totalBytes == |Joined(lines + [line])|
    {
      error := ReadHeaderLine();
      if error.Some? {
        NoNextLine(data, lines);
      } else {
        NextLineIs(data, lines, line);
        assert (lines + [line])[..|lines|] == lines;
      }
    }

    /** The magic line. */
    method ReadMagic() returns (error: Option<HeaderError>)
      requires pos == 0 && totalBytes == 0
      modifies this`pos, this`totalBytes, this`line
      ensures error.Some? ==> forall ls :: !IsHeader(data, ls)
      ensures error.None? ==> ReadSoFar(data, [line]) && pos == totalBytes == |Joined([line])|
    {
      error := NextHeaderLine([]);
      if error.Some? {
        return;
      }
      assert [] + [line] == [line];
      var magic := TrimEol(line);
      if magic != BUNDLE_V2_MAGIC {
        WrongLine(data, [], line);
        return Some(if magic == BUNDLE_V3_MAGIC then UnsupportedVersion else BadMagic);
      }
      OneMoreLine(data, [], line);
    }

    /** One more line, classified. */
    method ReadEntry(ghost lines: seq<Bytes>) returns (error: Option<HeaderError>, entry: Entry)
      requires ReadSoFar(data, lines) && pos == totalBytes == |Joined(lines)| && lines != []
      modifies this`pos, this`totalBytes, this`line
      ensures error.Some? ==> forall ls :: !IsHeader(data, ls)
      ensures error.None? ==>
                && ParseEntry(line) == Some(entry) && pos > old(pos)
                && pos == totalBytes == |Joined(lines + [line])| <= |data|
      ensures error.None? && !entry.End? ==> ReadSoFar(data, lines + [line])
      ensures error.None? && entry.End? ==> (IsHeader(data, lines + [line]) <==> PACK <= data[pos..])
      ensures error.None? && entry.End? ==> forall ls :: IsHeader(data, ls) ==> ls == lines + [line]
    {
      entry := End;
      error := NextHeaderLine(lines);
      if error.Some? {
        return;
      }
      JoinedMore(data, lines, line);
      match ParseEntry(line)
      case None =>
        WrongLine(data, lines, line);
        error := Some(BadEntry);
      case Some(e) =>
        entry := e;
        if entry.End? {
          HeaderEnds(data, lines, line);
        } else {
          OneMoreLine(data, lines, line);
        }
    }

    /** The lines read so far, with the entries they gave. */
    ghost predicate Reading(lines: seq<Bytes>, prerequisites: seq<Oid>, refs: seq<(Oid, Bytes)>)
      reads this
    {
      && ReadSoFar(data, lines) && lines != [] && pos == totalBytes == |Joined(lines)| <= |data|
      && prerequisites == PrerequisitesOf(lines[1..]) && refs == RefsOf(lines[1..])
    }

    /** One turn of the reading loop: an entry is collected, the blank line ends it. */
    method TakeEntry(prerequisites: seq<Oid>, refs: seq<(Oid, Bytes)>, ghost lines: seq<Bytes>)
      returns (error: Option<HeaderError>, atEnd: bool, prerequisites': seq<Oid>, refs': seq<(Oid, Bytes)>)
      requires Reading(lines, prerequisites, refs)
      modifies this`pos, this`totalBytes, this`line
      ensures error.Some? ==> forall ls :: !IsHeader(data, ls)
      ensures error.None? ==> pos == |Joined(lines + [line])| <= |data| && pos > old(pos)
      ensures error.None? ==>
                prerequisites' == PrerequisitesOf((lines + [line])[1..]) && refs' == RefsOf((lines + [line])[1..])
      ensures error.None? && !atEnd ==> Reading(lines + [line], prerequisites', refs')
      ensures error.None? && atEnd ==> (IsHeader(data, lines + [line]) <==> PACK <= data[pos..])
      ensures error.None? && atEnd ==> forall ls :: IsHeader(data, ls) ==> ls == lines + [line]
    {
      prerequisites', refs', atEnd := prerequisites, refs, false;
      var entry;
      error, entry := ReadEntry(lines);
      if error.Some? {
        return;
      }
      EntriesGrow(lines[1..], line);
      assert (lines + [line])[1..] == lines[1..] + [line];
      match entry
      case End => atEnd := true;
      case Prerequisite(oid) => prerequisites' := prerequisites + [oid];
      case Ref(oid, name) => refs' := refs + [(oid, name)];
    }

    /**
     * `BundleHeader::read`. It succeeds exactly on the files that begin with a well-formed
     * header, and then returns its entries in order and its length.
     */
    method Read() returns (r: ReadResult, ghost lines: seq<Bytes>)
      requires pos == 0 && totalBytes == 0
      modifies this`pos, this`totalBytes, this`line
      ensures r.Parsed? ==> IsHeader(data, lines)
      ensures r.Parsed? ==> r.header == Header(PrerequisitesOf(lines[1..]), RefsOf(lines[1..]), |Joined(lines)|)
      ensures r.Refused? ==> forall ls :: !IsHeader(data, ls)
    {
      var error := ReadMagic();
      lines := [line];
      if error.Some? {
        return Refused(error.value), lines;
      }
      var prerequisites: seq<Oid>, refs: seq<(Oid, Bytes)>, atEnd := [], [], false;
      assert lines[1..] == [];
      while !atEnd
        invariant lines != [] && pos == |Joined(lines)| <= |data|
        invariant !atEnd ==> Reading(lines, prerequisites, refs)
        invariant atEnd ==> prerequisites == PrerequisitesOf(lines[1..]) && refs == RefsOf(lines[1..])
        invariant atEnd ==> (IsHeader(data, lines) <==> PACK <= data[pos..])
        invariant atEnd ==> forall ls :: IsHeader(data, ls) ==> ls == lines
        decreases !atEnd, |data| - pos
      {
        error, atEnd, prerequisites, refs := TakeEntry(prerequisites, refs, lines);
        if error.Some? {
          return Refused(error.value), lines;
        }
        lines := lines + [line];
      }
      var packOffset := pos;
      var ok := VerifyPackMagic();
      return if ok then Parsed(Header(prerequisites, refs, packOffset)) else Refused(NoPack), lines;
    }
  }

  lemma EntriesGrow(lines: seq<Bytes>, line: Bytes)
    ensures PrerequisitesOf(lines + [line]) ==
              PrerequisitesOf(lines) + (match ParseEntry(line) case Some(Prerequisite(oid)) => [oid] case _ => [])
    ensures RefsOf(lines + [line])
              == RefsOf(lines) + (match ParseEntry(line) case Some(Ref(oid, name)) => [(oid, name)] case _ => [])
  {
    assert (lines + [line])[..|lines|] == lines;
  }

  lemma JoinedMore(data: Bytes, lines: seq<Bytes>, line: Bytes)
    requires IsNext(data, lines, line)
    ensures |Joined(lines)| < |Joined(lines + [line])| <= |data|
  {
    assert (lines + [line])[..|lines|] == lines;
  }

  /** A line accepted before the blank one; it may still lack its newline at the end of the file. */
  predicate IsReadBody(line: Bytes, i: nat) {
    && line != [] && |line| <= MAX_HEADER_LINE_BYTES && IsUtf8(line) && LF !in line[..|line| - 1]
    && if i == 0 then TrimEol(line) == BUNDLE_V2_MAGIC
       else ParseEntry(line).Some? && !ParseEntry(line).value.End?
  }

  /** These lines were read, and every well-formed header starts with them and goes on. */
  ghost predicate ReadSoFar(data: Bytes, lines: seq<Bytes>) {
    && AreReadBodies(lines)
    && (forall i: nat :: i < |lines| && lines[i][|lines[i]| - 1] != LF ==> Joined(lines) == data)
    && Joined(lines) <= data && |Joined(lines)| <= MAX_HEADER_TOTAL_BYTES
    && HeadersBegin(data, lines)
  }

  predicate AreReadBodies(lines: seq<Bytes>) {
    forall i: nat :: i < |lines| ==> IsReadBody(lines[i], i)
  }

  /** Every header there is begins with these lines and goes on. */
  ghost predicate HeadersBegin(data: Bytes, lines: seq<Bytes>) {
    forall ls {:trigger IsHeader(data, ls)} :: IsHeader(data, ls) ==> |lines| < |ls| && lines <= ls
  }

  /** The line that is read next. */
  ghost predicate IsNext(data: Bytes, lines: seq<Bytes>, line: Bytes) {
    && Joined(lines) <= data && Readable(data[|Joined(lines)|..], |Joined(lines)|, line)
    && (forall i: nat :: i < |lines| ==> lines[i] != [] && lines[i][|lines[i]| - 1] == LF)
    && forall ls {:trigger IsHeader(data, ls)} :: IsHeader(data, ls) ==> |lines| < |ls| && ls[|lines|] == line
  }

  lemma {:induction false} JoinedPrefix(lines: seq<Bytes>, n: nat)
    requires n <= |lines|
    ensures Joined(lines[..n]) <= Joined(lines)
  {
    if n < |lines| {
      JoinedPrefix(lines[..|lines| - 1], n);
      assert lines[..|lines| - 1][..n] == lines[..n];
    } else {
      assert lines[..n] == lines;
    }
  }

  lemma PrefixThen(data: Bytes, p: Bytes, q: Bytes)
    requires p <= data
    ensures p + q <= data <==> q <= data[|p|..]
  {
    if q <= data[|p|..] {
      assert data == p + data[|p|..];
    }
    if p + q <= data {
      assert forall k :: 0 <= k < |q| ==> data[|p|..][k] == (p + q)[|p| + k];
    }
  }

  /** Every line of a header is bounded; it is a body line, or the blank last one. */
  lemma BodyOrEnd(data: Bytes, ls: seq<Bytes>, n: nat)
    requires IsHeader(data, ls) && n < |ls|
    ensures IsBoundedLine(ls[n])
    ensures n < |ls| - 1 ==> IsBodyLine(ls[n], n)
    ensures n == |ls| - 1 ==> n > 0 && TrimEol(ls[n]) == []
  {
    if n < |ls| - 1 {
      assert IsBodyLine(ls[n], n);
    }
  }

  /** It lies where the lines before it end. */
  lemma HeaderLineIsThere(data: Bytes, ls: seq<Bytes>, n: nat)
    requires n < |ls| && Joined(ls) <= data
    ensures Joined(ls[..n]) <= data && ls[n] <= data[|Joined(ls[..n])|..]
    ensures |Joined(ls[..n])| + |ls[n]| <= |Joined(ls)|
  {
    var before := Joined(ls[..n]);
    JoinedPrefix(ls, n + 1);
    assert ls[..n + 1][..n] == ls[..n];
    assert Joined(ls[..n + 1]) == before + ls[n];
    assert before + ls[n] <= data;
    PrefixThen(data, before, ls[n]);
  }

  /** The next line of a well-formed header is readable. */
  lemma HeaderLineIsReadable(data: Bytes, ls: seq<Bytes>, n: nat)
    requires IsHeader(data, ls) && n < |ls|
    ensures Joined(ls[..n]) <= data && Readable(data[|Joined(ls[..n])|..], |Joined(ls[..n])|, ls[n])
  {
    BodyOrEnd(data, ls, n);
    assert Joined(ls) <= Joined(ls) + PACK <= data;
    HeaderLineIsThere(data, ls, n);
  }

  lemma NextLineIs(data: Bytes, lines: seq<Bytes>, line: Bytes)
    requires ReadSoFar(data, lines) && Readable(data[|Joined(lines)|..], |Joined(lines)|, line)
    ensures IsNext(data, lines, line)
  {
    forall ls | IsHeader(data, ls) ensures |lines| < |ls| && ls[|lines|] == line {
      HeaderLineIsReadable(data, ls, |lines|);
      assert ls[..|lines|] == lines;
      OneReadableLine(data[|Joined(lines)|..], |Joined(lines)|, ls[|lines|], line);
    }
  }

  lemma NoNextLine(data: Bytes, lines: seq<Bytes>)
    requires ReadSoFar(data, lines) && forall l :: !Readable(data[|Joined(lines)|..], |Joined(lines)|, l)
    ensures forall ls :: !IsHeader(data, ls)
  {
    forall ls ensures !IsHeader(data, ls) {
      if IsHeader(data, ls) {
        assert ls[..|lines|] == lines;
        HeaderLineIsReadable(data, ls, |lines|);
      }
    }
  }

  /** A line no header has at this place. */
  lemma WrongLine(data: Bytes, lines: seq<Bytes>, line: Bytes)
    requires IsNext(data, lines, line)
    requires if lines == [] then TrimEol(line) != BUNDLE_V2_MAGIC else ParseEntry(line).None?
    ensures forall ls :: !IsHeader(data, ls)
  {
    forall ls ensures !IsHeader(data, ls) {
      if IsHeader(data, ls) {
        BodyOrEnd(data, ls, |lines|);
      }
    }
  }

  lemma OneMoreLine(data: Bytes, lines: seq<Bytes>, line: Bytes)
    requires ReadSoFar(data, lines) && IsNext(data, lines, line) && IsReadBody(line, |lines|)
    ensures ReadSoFar(data, lines + [line])
  {
    LineIsThere(data, lines, line);
    HeadersGoOn(data, lines, line);
    LinesAreBodies(lines, line);
  }

  lemma LinesAreBodies(lines: seq<Bytes>, line: Bytes)
    requires AreReadBodies(lines) && IsReadBody(line, |lines|)
    ensures AreReadBodies(lines + [line])
  {
    forall i: nat | i < |lines + [line]| ensures IsReadBody((lines + [line])[i], i) {
      assert i < |lines| ==> IsReadBody(lines[i], i);
    }
  }

  /** The line lies behind the ones that were read; when it is cut off there, the file ends. */
  lemma LineIsThere(data: Bytes, lines: seq<Bytes>, line: Bytes)
    requires IsNext(data, lines, line)
    ensures Joined(lines + [line]) <= data && |Joined(lines + [line])| <= MAX_HEADER_TOTAL_BYTES
    ensures line != [] && (line[|line| - 1] != LF ==> Joined(lines + [line]) == data)
  {
    assert (lines + [line])[..|lines|] == lines;
    PrefixThen(data, Joined(lines), line);
  }

  /** A header that begins with what was read goes on with this line, and then further. */
  lemma HeadersGoOn(data: Bytes, lines: seq<Bytes>, line: Bytes)
    requires HeadersBegin(data, lines) && IsNext(data, lines, line) && TrimEol(line) != []
    ensures HeadersBegin(data, lines + [line])
  {
    forall ls | IsHeader(data, ls) ensures |lines| + 1 < |ls| && lines + [line] <= ls {
      BodyOrEnd(data, ls, |lines|);
      OneLonger(ls, lines, line);
    }
  }

  /** At the blank line, what was read is a header exactly when PACK follows. */
  lemma HeaderEnds(data: Bytes, lines: seq<Bytes>, line: Bytes)
    requires ReadSoFar(data, lines) && IsNext(data, lines, line) && lines != [] && TrimEol(line) == []
    ensures Joined(lines + [line]) <= data
    ensures IsHeader(data, lines + [line]) <==> PACK <= data[|Joined(lines + [line])|..]
    ensures forall ls :: IsHeader(data, ls) ==> ls == lines + [line]
  {
    LineIsThere(data, lines, line);
    HeadersStop(data, lines, line);
    PrefixThen(data, Joined(lines + [line]), PACK);
    if PACK <= data[|Joined(lines + [line])|..] {
      EndedLinesAreLines(data, lines, line);
    }
  }

  lemma HeadersStop(data: Bytes, lines: seq<Bytes>, line: Bytes)
    requires ReadSoFar(data, lines) && IsNext(data, lines, line) && TrimEol(line) == []
    ensures forall ls :: IsHeader(data, ls) ==> ls == lines + [line]
  {
    forall ls | IsHeader(data, ls) ensures ls == lines + [line] {
      BlankIffLast(data, ls, |lines|);
      OneLonger(ls, lines, line);
    }
  }

  lemma OneLonger(ls: seq<Bytes>, lines: seq<Bytes>, line: Bytes)
    requires |lines| < |ls| && lines <= ls && ls[|lines|] == line
    ensures lines + [line] <= ls && (|ls| == |lines| + 1 ==> ls == lines + [line])
  {
  }

  /** With bytes after them, all lines that were read end in their newline. */
  lemma EndedLinesAreLines(data: Bytes, lines: seq<Bytes>, line: Bytes)
    requires ReadSoFar(data, lines) && IsNext(data, lines, line) && lines != [] && TrimEol(line) == []
    requires Joined(lines + [line]) + PACK <= data
    ensures IsHeader(data, lines + [line])
  {
    var more := lines + [line];
    assert more[..|lines|] == lines;
    forall i: nat | i < |lines| ensures IsBodyLine(more[i], i) {
      assert IsReadBody(lines[i], i);
    }
  }

  /** Two prefixes that stop at their first newline, or at the end, are one. */
  lemma OneReadableLine(rest: Bytes, total: nat, l: Bytes, buf: Bytes)
    requires Readable(rest, total, l) && buf != [] && buf <= rest && LF !in buf[..|buf| - 1]
    requires buf[|buf| - 1] == LF || buf == rest
             || |buf| == MAX_HEADER_LINE_BYTES || total + |buf| == MAX_HEADER_TOTAL_BYTES
    ensures l == buf
  {
    assert forall k :: 0 <= k < |buf| && k < |l| ==> buf[k] == rest[k] == l[k];
    assert forall k :: 0 <= k < |buf| - 1 ==> buf[..|buf| - 1][k] == buf[k] && buf[k] != LF;
    assert forall k :: 0 <= k < |l| - 1 ==> l[..|l| - 1][k] == l[k] && l[k] != LF;
  }

  // ---------------------------------------------------------------
  // What a line says.
  // ---------------------------------------------------------------

  predicate IsEol(b: byte) {
    b == LF || b == CR
  }

  /** The line is this text and then line endings. */
  ghost predicate EndsIn(line: Bytes, text: Bytes, eol: Bytes) {
    && line == text + eol && (forall i :: 0 <= i < |eol| ==> IsEol(eol[i]))
    && (text == [] || !IsEol(text[|text| - 1]))
  }

  lemma {:induction false} TrimEolIs(text: Bytes, eol: Bytes)
    requires EndsIn(text + eol, text, eol)
    ensures TrimEol(text + eol) == text
  {
    if eol == [] {
      assert text + eol == text;
    } else {
      var n := |eol| - 1;
      assert (text + eol)[..|text| + n] == text + eol[..n];
      assert eol[n] == (text + eol)[|text| + n];
      TrimEolIs(text, eol[..n]);
    }
  }

  /** `hex` is 40 hex digits of either case that spell the id. */
  predicate IsHexOf(hex: Bytes, oid: Oid) {
    ShallowFile.PairsSpell(hex, oid.raw)
  }

  /** A prerequisite: a dash, the id, and nothing or a space and a comment. */
  ghost predicate SaysPrerequisite(text: Bytes, oid: Oid) {
    exists hex, rest :: IsPrerequisiteText(text, hex, rest) && IsHexOf(hex, oid)
  }

  predicate IsPrerequisiteText(text: Bytes, hex: Bytes, rest: Bytes) {
    text == [DASH] + hex + rest && (rest == [] || rest[0] == SPACE)
  }

  /** A ref: the id, a space and a name. */
  ghost predicate SaysRef(text: Bytes, oid: Oid, name: Bytes) {
    exists hex :: text == hex + [SPACE] + name && IsHexOf(hex, oid) && name != []
  }

  lemma HexHasNoSpace(hex: Bytes, oid: Oid)
    requires IsHexOf(hex, oid)
    ensures hex != [] && hex[0] != DASH && SPACE !in hex
    ensures ShallowFile.FromHex(hex) == Some(oid)
  {
    ShallowFile.UnhexIs(hex, oid.raw);
    assert ShallowFile.PairSpells(hex[2 * 0], hex[2 * 0 + 1], oid.raw[0]);
    forall i | 0 <= i < |hex| ensures hex[i] != SPACE {
      assert ShallowFile.PairSpells(hex[2 * (i / 2)], hex[2 * (i / 2) + 1], oid.raw[i / 2]);
    }
  }

  /** What any line reads as: its end, a prerequisite or a ref exactly when it says so, and nothing else. */
  lemma EntryReads(line: Bytes, text: Bytes, eol: Bytes, oid: Oid, name: Bytes)
    requires EndsIn(line, text, eol)
    ensures ParseEntry(line) == Some(End) <==> text == []
    ensures ParseEntry(line) == Some(Prerequisite(oid)) <==> SaysPrerequisite(text, oid)
    ensures ParseEntry(line) == Some(Ref(oid, name)) <==> SaysRef(text, oid, name)
  {
    TrimEolIs(text, eol);
    PrerequisiteReads(line, text, oid);
    RefReads(line, text, oid, name);
  }

  /** What stands before the first space, if there is one. */
  function FirstWord(s: Bytes): Bytes {
    match SplitAtSpace(s)
    case None => s
    case Some(halves) => halves.0
  }

  lemma FirstWordIs(word: Bytes, rest: Bytes)
    requires SPACE !in word && (rest == [] || rest[0] == SPACE)
    ensures FirstWord(word + rest) == word
  {
    if rest == [] {
      assert word + rest == word;
    } else {
      assert word + rest == word + [SPACE] + rest[1..];
      SplitsAtFirstSpace(word, rest[1..]);
    }
  }

  lemma AfterFirstWord(s: Bytes) returns (rest: Bytes)
    ensures s == FirstWord(s) + rest && (rest == [] || rest[0] == SPACE)
  {
    rest := [];
    if SPACE in s {
      rest := [SPACE] + SplitAtSpace(s).value.1;
      Associates(FirstWord(s), [SPACE], SplitAtSpace(s).value.1);
    }
  }

  lemma PrerequisiteReads(line: Bytes, text: Bytes, oid: Oid)
    requires TrimEol(line) == text
    ensures ParseEntry(line) == Some(Prerequisite(oid)) <==> SaysPrerequisite(text, oid)
  {
    if ParseEntry(line) == Some(Prerequisite(oid)) {
      var rest := AfterFirstWord(text[1..]);
      var hex := FirstWord(text[1..]);
      ShallowFile.UnhexIs(hex, oid.raw);
      assert text == [DASH] + (hex + rest);
      Associates([DASH], hex, rest);
      assert IsPrerequisiteText(text, hex, rest);
    }
    if SaysPrerequisite(text, oid) {
      var hex, rest :| IsPrerequisiteText(text, hex, rest) && IsHexOf(hex, oid);
      Associates([DASH], hex, rest);
      assert text[1..] == hex + rest;
      HexHasNoSpace(hex, oid);
      FirstWordIs(hex, rest);
      assert ParseEntry(line) == Some(Prerequisite(oid));
    }
  }

  lemma RefReads(line: Bytes, text: Bytes, oid: Oid, name: Bytes)
    requires TrimEol(line) == text
    ensures ParseEntry(line) == Some(Ref(oid, name)) <==> SaysRef(text, oid, name)
  {
    if ParseEntry(line) == Some(Ref(oid, name)) {
      ShallowFile.UnhexIs(SplitAtSpace(text).value.0, oid.raw);
    }
    if hex :| text == hex + [SPACE] + name && IsHexOf(hex, oid) && name != [] {
      HexHasNoSpace(hex, oid);
      assert text[0] == hex[0];
      SplitsAtFirstSpace(hex, name);
    }
  }

  // ---------------------------------------------------------------
  // UTF-8 (RFC 3629, section 3).
  // ---------------------------------------------------------------

  predicate IsScalar(c: int) {
    0 <= c <= 0x10FFFF && !(0xD800 <= c <= 0xDFFF)
  }

  function Encode(c: int): (s: Bytes)
    requires IsScalar(c)
    ensures s != []
  {
    if c < 0x80 then [c as byte]
    else if c < 0x800 then [(0xC0 + c / 64) as byte, Tail(c)]
    else if c < 0x10000 then [(0xE0 + c / 4096) as byte, Tail(c / 64), Tail(c)]
    else [(0xF0 + c / 262144) as byte, Tail(c / 4096), Tail(c / 64), Tail(c)]
  }

  function Tail(c: int): byte
    requires c >= 0
  {
    (0x80 + c % 64) as byte
  }

  function Encoded(cs: seq<int>): Bytes
    requires forall i :: 0 <= i < |cs| ==> IsScalar(cs[i])
  {
    if cs == [] then [] else Encode(cs[0]) + Encoded(cs[1..])
  }

  lemma EncodeIsOneChar(c: int, rest: Bytes)
    requires IsScalar(c)
    ensures CharLen(Encode(c) + rest) == |Encode(c)|
  {
    var s := Encode(c) + rest;
    assert forall i :: 0 <= i < |Encode(c)| ==> s[i] == Encode(c)[i];
    if 0x800 <= c < 0x10000 {
      assert c / 4096 == 0 ==> c / 64 >= 32;
      assert c / 4096 == 13 ==> c / 64 < 864;
    } else if c >= 0x10000 {
      assert c / 262144 == 0 ==> c / 4096 >= 16;
      assert c / 262144 == 4 ==> c / 4096 < 272;
    }
  }

  /** The code point of the character `s` begins with. */
  function Decode(s: Bytes): int
    requires s != [] && CharLen(s) > 0
  {
    match CharLen(s)
    case 1 => s[0] as int
    case 2 => (s[0] as int - 0xC0) * 64 + (s[1] as int - 0x80)
    case 3 => (s[0] as int - 0xE0) * 4096 + (s[1] as int - 0x80) * 64 + (s[2] as int - 0x80)
    case _ =>
      (s[0] as int - 0xF0) * 262144 + (s[1] as int - 0x80) * 4096 + (s[2] as int - 0x80) * 64 + (s[3] as int - 0x80)
  }

  lemma OneCharIsEncoded(s: Bytes)
    requires s != [] && CharLen(s) > 0
    ensures IsScalar(Decode(s)) && s[..CharLen(s)] == Encode(Decode(s))
  {
    var c := Decode(s);
    match CharLen(s)
    case 1 =>
    case 2 =>
      Digits(s[0] as int - 0xC0, s[1]);
    case 3 =>
      var high := (s[0] as int - 0xE0) * 64 + (s[1] as int - 0x80);
      Digits(high, s[2]);
      Digits(s[0] as int - 0xE0, s[1]);
      assert c / 4096 == high / 64;
    case _ =>
      var top := (s[0] as int - 0xF0) * 64 + (s[1] as int - 0x80);
      var high := top * 64 + (s[2] as int - 0x80);
      Digits(high, s[3]);
      Digits(top, s[2]);
      Digits(s[0] as int - 0xF0, s[1]);
      assert c / 4096 == high / 64 && c / 262144 == top / 64;
  }

  lemma Digits(high: int, b: byte)
    requires high >= 0 && IsCont(b)
    ensures var c := high * 64 + (b as int - 0x80); c / 64 == high && Tail(c) == b
  {
  }

  /** Valid text is the encoding of some code points: no overlong form, no surrogate, nothing past the last. */
  lemma {:induction false} Utf8IsEncoded(s: Bytes) returns (cs: seq<int>)
    requires IsUtf8(s)
    ensures (forall i :: 0 <= i < |cs| ==> IsScalar(cs[i])) && Encoded(cs) == s
  {
    cs := [];
    if s != [] {
      var n := CharLen(s);
      OneCharIsEncoded(s);
      var rest := Utf8IsEncoded(s[n..]);
      cs := [Decode(s)] + rest;
      assert s == s[..n] + s[n..];
    }
  }

  lemma {:induction false} EncodedIsUtf8(cs: seq<int>)
    requires forall i :: 0 <= i < |cs| ==> IsScalar(cs[i])
    ensures IsUtf8(Encoded(cs))
  {
    if cs != [] {
      var rest := Encoded(cs[1..]);
      EncodedIsUtf8(cs[1..]);
      EncodeIsOneChar(cs[0], rest);
      assert Encoded(cs)[|Encode(cs[0])|..] == rest;
    }
  }

  // ---------------------------------------------------------------
  // Writing, and reading back.
  // ---------------------------------------------------------------

  function MagicLine(): Bytes {
    BUNDLE_V2_MAGIC + [LF]
  }

  function RefLine(oid: Oid, name: Bytes): Bytes {
    ShallowFile.Hex(oid.raw) + [SPACE] + name + [LF]
  }

  /** What the writer writes for one ref. */
  function WrittenLines(oid: Oid, name: Bytes): seq<Bytes> {
    [MagicLine(), RefLine(oid, name), [LF]]
  }

  class HeaderWriter {
    var written: Bytes

    constructor ()
      ensures written == []
    {
      written := [];
    }

    method WriteLine(text: Bytes)
      modifies this
      ensures written == old(written) + text + [LF]
    {
      written := written + text + [LF];
    }

    /** `write_bundle_header`. */
    method WriteBundleHeader(oid: Oid, name: Bytes)
      modifies this
      ensures written == old(written) + Joined(WrittenLines(oid, name))
    {
      WriteLine(BUNDLE_V2_MAGIC);
      WriteLine(ShallowFile.Hex(oid.raw) + [SPACE] + name);
      WriteLine([]);
      JoinedThree(MagicLine(), RefLine(oid, name), [LF]);
      assert old(written) + MagicLine() + RefLine(oid, name) + [LF]
               == old(written) + (MagicLine() + RefLine(oid, name) + [LF]);
    }
  }

  lemma JoinedSnoc(lines: seq<Bytes>, line: Bytes)
    ensures Joined(lines + [line]) == Joined(lines) + line
  {
    assert (lines + [line])[..|lines|] == lines;
  }

  lemma JoinedPair(a: Bytes, b: Bytes)
    ensures Joined([a, b]) == a + b
  {
    JoinedSnoc([], a);
    JoinedSnoc([a], b);
    assert [] + [a] == [a] && [a] + [b] == [a, b];
  }

  lemma JoinedThree(a: Bytes, b: Bytes, c: Bytes)
    ensures Joined([a, b, c]) == a + b + c
  {
    JoinedPair(a, b);
    JoinedSnoc([a, b], c);
    assert [a, b] + [c] == [a, b, c];
  }

  lemma {:induction false} AsciiIsUtf8(s: Bytes)
    requires forall i :: 0 <= i < |s| ==> s[i] <= 0x7F
    ensures IsUtf8(s)
  {
    if s != [] {
      AsciiIsUtf8(s[1..]);
    }
  }

  lemma {:induction false} Utf8Concat(a: Bytes, b: Bytes)
    requires IsUtf8(a) && IsUtf8(b)
    ensures IsUtf8(a + b)
  {
    if a == [] {
      assert a + b == b;
    } else {
      var n := CharLen(a);
      CharLenStays(a, b);
      Utf8Concat(a[n..], b);
      assert (a + b)[n..] == a[n..] + b;
    }
  }

  lemma CharLenStays(a: Bytes, b: Bytes)
    requires a != [] && CharLen(a) > 0
    ensures CharLen(a + b) == CharLen(a)
  {
    assert forall i :: 0 <= i < |a| ==> (a + b)[i] == a[i];
  }

  lemma {:induction false} SplitsAtFirstSpace(a: Bytes, b: Bytes)
    requires SPACE !in a
    ensures SplitAtSpace(a + [SPACE] + b) == Some((a, b))
  {
    var s := a + [SPACE] + b;
    if a != [] {
      SplitsAtFirstSpace(a[1..], b);
      assert s[1..] == a[1..] + [SPACE] + b;
      assert [a[0]] + a[1..] == a;
    } else {
      assert s[1..] == b;
    }
  }

  lemma {:induction false} HexBytes(raw: seq<byte>)
    ensures forall i :: 0 <= i < |ShallowFile.Hex(raw)| ==>
              var b := ShallowFile.Hex(raw)[i]; (48 <= b <= 57 || 97 <= b <= 102)
  {
    if raw != [] {
      HexBytes(raw[1..]);
    }
  }

  lemma {:induction false} TrimEolEnds(s: Bytes)
    ensures TrimEol(s) != [] ==> TrimEol(s)[|TrimEol(s)| - 1] != LF && TrimEol(s)[|TrimEol(s)| - 1] != CR
  {
    if s != [] {
      TrimEolEnds(s[..|s| - 1]);
    }
  }

  /** The ref line of a name that has no line ending of its own reads back. */
  lemma RefLineReadsBack(oid: Oid, name: Bytes)
    requires name != [] && name[|name| - 1] != LF && name[|name| - 1] != CR
    ensures ParseEntry(RefLine(oid, name)) == Some(Ref(oid, name))
  {
    var hex := ShallowFile.Hex(oid.raw);
    var line, text := RefLine(oid, name), hex + [SPACE] + name;
    HexBytes(oid.raw);
    assert line[..|line| - 1] == text && text[|text| - 1] == name[|name| - 1];
    assert TrimEol(line) == text;
    assert text[0] == hex[0];
    SplitsAtFirstSpace(hex, name);
    ShallowFile.UnhexHex(oid.raw);
  }

  /** No name that is read is empty or ends in a line ending. */
  lemma {:induction false} ReadNamesAreTrimmed(lines: seq<Bytes>, i: nat)
    requires i < |RefsOf(lines)|
    ensures var name := RefsOf(lines)[i].1; name != [] && name[|name| - 1] != LF && name[|name| - 1] != CR
  {
    var n := |lines| - 1;
    if i < |RefsOf(lines[..n])| {
      ReadNamesAreTrimmed(lines[..n], i);
    } else {
      ReadNameIsTrimmed(lines[n]);
    }
  }

  lemma ReadNameIsTrimmed(line: Bytes)
    requires ParseEntry(line).Some? && ParseEntry(line).value.Ref?
    ensures var name := ParseEntry(line).value.name;
            name != [] && name[|name| - 1] != LF && name[|name| - 1] != CR
  {
    var trimmed := TrimEol(line);
    TrimEolEnds(line);
    var name := SplitAtSpace(trimmed).value.1;
    assert trimmed[|trimmed| - 1] == name[|name| - 1];
  }

  lemma RefLineIsBounded(oid: Oid, name: Bytes)
    requires IsUtf8(name) && LF !in name && |RefLine(oid, name)| <= MAX_HEADER_LINE_BYTES
    ensures IsBoundedLine(RefLine(oid, name))
  {
    var hex := ShallowFile.Hex(oid.raw);
    HexBytes(oid.raw);
    AsciiIsUtf8(hex + [SPACE]);
    AsciiIsUtf8([LF]);
    Utf8Concat(hex + [SPACE], name);
    Utf8Concat(hex + [SPACE] + name, [LF]);
    assert RefLine(oid, name)[..|RefLine(oid, name)| - 1] == hex + [SPACE] + name;
  }

  /** What is written for a good name, with PACK after it, is a header. */
  lemma WrittenIsHeader(oid: Oid, name: Bytes, data: Bytes)
    requires IsUtf8(name) && LF !in name && |RefLine(oid, name)| <= MAX_HEADER_LINE_BYTES
    requires name != [] && name[|name| - 1] != CR
    requires Joined(WrittenLines(oid, name)) + PACK <= data
    ensures IsHeader(data, WrittenLines(oid, name))
    ensures PrerequisitesOf(WrittenLines(oid, name)[1..]) == [] && RefsOf(WrittenLines(oid, name)[1..]) == [(oid, name)]
  {
    RefLineReadsBack(oid, name);
    RefLineIsBounded(oid, name);
    MagicFits();
    BlankFits();
    WrittenIsShort(oid, name);
    ThreeLinesAreHeader(MagicLine(), RefLine(oid, name), [LF], data);
    WrittenEntries(MagicLine(), RefLine(oid, name), [LF]);
  }

  lemma ThreeLinesAreHeader(magic: Bytes, line: Bytes, blank: Bytes, data: Bytes)
    requires IsBodyLine(magic, 0) && IsBodyLine(line, 1) && IsBoundedLine(blank) && TrimEol(blank) == []
    requires |Joined([magic, line, blank])| <= MAX_HEADER_TOTAL_BYTES && Joined([magic, line, blank]) + PACK <= data
    ensures IsHeader(data, [magic, line, blank])
  {
  }

  lemma WrittenEntries(magic: Bytes, line: Bytes, blank: Bytes)
    requires ParseEntry(line).Some? && ParseEntry(line).value.Ref? && ParseEntry(blank) == Some(End)
    ensures PrerequisitesOf([magic, line, blank][1..]) == []
    ensures RefsOf([magic, line, blank][1..]) == [(ParseEntry(line).value.oid, ParseEntry(line).value.name)]
  {
    EntriesGrow([], line);
    EntriesGrow([line], blank);
    assert [] + [line] == [line] && [line] + [blank] == [magic, line, blank][1..];
  }

  lemma MagicFits()
    ensures IsBoundedLine(MagicLine()) && TrimEol(MagicLine()) == BUNDLE_V2_MAGIC
  {
    MagicIsTrimmed();
    AsciiLineIsBounded(MagicLine());
  }

  lemma AsciiLineIsBounded(line: Bytes)
    requires IsLine(line) && |line| <= MAX_HEADER_LINE_BYTES && forall i :: 0 <= i < |line| ==> line[i] <= 0x7F
    ensures IsBoundedLine(line)
  {
    AsciiIsUtf8(line);
  }

  lemma BlankFits()
    ensures IsBoundedLine([LF]) && TrimEol([LF]) == [] && ParseEntry([LF]) == Some(End)
  {
    AsciiLineIsBounded([LF]);
    assert [LF][..0] == [];
  }

  lemma WrittenIsShort(oid: Oid, name: Bytes)
    requires |RefLine(oid, name)| <= MAX_HEADER_LINE_BYTES
    ensures |Joined(WrittenLines(oid, name))| <= MAX_HEADER_TOTAL_BYTES
  {
    JoinedThree(MagicLine(), RefLine(oid, name), [LF]);
  }

  lemma MagicIsTrimmed()
    ensures TrimEol(MagicLine()) == BUNDLE_V2_MAGIC && IsLine(MagicLine())
  {
    assert MagicLine()[..|MagicLine()| - 1] == BUNDLE_V2_MAGIC;
    assert BUNDLE_V2_MAGIC[|BUNDLE_V2_MAGIC| - 1] == 101;
  }

  lemma {:induction false} HeadersAgree(data: Bytes, ls: seq<Bytes>, ls': seq<Bytes>, n: nat)
    requires IsHeader(data, ls) && IsHeader(data, ls') && n <= |ls|
    ensures n <= |ls'| && ls[..n] == ls'[..n]
  {
    if n > 0 {
      HeadersAgree(data, ls, ls', n - 1);
      NoneEndsFirst(data, ls, ls', n - 1);
      NextLinesAgree(data, ls, ls', n - 1);
      assert ls[..n] == ls[..n - 1] + [ls[n - 1]] && ls'[..n] == ls'[..n - 1] + [ls'[n - 1]];
    }
  }

  /** Only the last line of a header is blank. */
  lemma BlankIffLast(data: Bytes, ls: seq<Bytes>, n: nat)
    requires IsHeader(data, ls) && n < |ls|
    ensures TrimEol(ls[n]) == [] <==> n == |ls| - 1
  {
    BodyOrEnd(data, ls, n);
    assert BUNDLE_V2_MAGIC != [];
  }

  /** So a header goes on where another does. */
  lemma NoneEndsFirst(data: Bytes, ls: seq<Bytes>, ls': seq<Bytes>, n: nat)
    requires IsHeader(data, ls) && IsHeader(data, ls') && n < |ls| && n <= |ls'| && ls[..n] == ls'[..n]
    ensures n < |ls'|
  {
    if n > 0 {
      assert ls[..n][n - 1] == ls'[..n][n - 1];
      BlankIffLast(data, ls, n - 1);
      BlankIffLast(data, ls', n - 1);
    }
  }

  lemma NextLinesAgree(data: Bytes, ls: seq<Bytes>, ls': seq<Bytes>, n: nat)
    requires IsHeader(data, ls) && IsHeader(data, ls') && n < |ls| && n < |ls'| && ls[..n] == ls'[..n]
    ensures ls[n] == ls'[n]
  {
    HeaderLineIsReadable(data, ls, n);
    HeaderLineIsReadable(data, ls', n);
    OneReadableLine(data[|Joined(ls[..n])|..], |Joined(ls[..n])|, ls[n], ls'[n]);
  }

  /** A file begins with at most one header. */
  lemma HeaderIsUnique(data: Bytes, ls: seq<Bytes>, ls': seq<Bytes>)
    requires IsHeader(data, ls) && IsHeader(data, ls')
    ensures ls == ls'
  {
    HeadersAgree(data, ls, ls', |ls|);
    HeadersAgree(data, ls', ls, |ls'|);
    assert ls[..|ls|] == ls && ls'[..|ls|] == ls';
  }

  /**
   * Header round trip: for a newline-free name that fits the line cap, reading what was
   * written gives that one ref, no prerequisite and the header's length, exactly when the name
   * is neither empty nor ends in a carriage return.
   */
  method RoundTrip(oid: Oid, name: Bytes, pack: Bytes) returns (r: ReadResult)
    requires IsUtf8(name) && LF !in name && |RefLine(oid, name)| <= MAX_HEADER_LINE_BYTES
    requires PACK <= pack
    ensures r == Parsed(Header([], [(oid, name)], |Joined(WrittenLines(oid, name))|)) <==>
              name != [] && name[|name| - 1] != CR
  {
    var writer := new HeaderWriter();
    writer.WriteBundleHeader(oid, name);
    assert writer.written == Joined(WrittenLines(oid, name));
    var data := writer.written + pack;
    assert Joined(WrittenLines(oid, name)) + PACK <= data;
    var reader := new HeaderReader(data);
    ghost var lines;
    r, lines := reader.Read();
    if name != [] && name[|name| - 1] != CR {
      WrittenIsHeader(oid, name, data);
      HeaderIsUnique(data, WrittenLines(oid, name), lines);
    } else if r.Parsed? && r.header.refs != [] {
      ReadNamesAreTrimmed(lines[1..], 0);
    }
  }

  // ---------------------------------------------------------------
  // Any header reads back.
  // ---------------------------------------------------------------

  /** An entry as git writes it; a prerequisite may carry a comment. */
  datatype Said = SaidPrerequisite(oid: Oid, comment: Option<Bytes>) | SaidRef(oid: Oid, name: Bytes)

  function SaidText(said: Said): Bytes {
    match said
    case SaidPrerequisite(oid, None) => [DASH] + ShallowFile.Hex(oid.raw)
    case SaidPrerequisite(oid, Some(comment)) => [DASH] + ShallowFile.Hex(oid.raw) + [SPACE] + comment
    case SaidRef(oid, name) => ShallowFile.Hex(oid.raw) + [SPACE] + name
  }

  function SaidLines(said: seq<Said>): (lines: seq<Bytes>)
    ensures |lines| == |said|
  {
    if said == [] then [] else SaidLines(said[..|said| - 1]) + [SaidText(said[|said| - 1]) + [LF]]
  }

  function HeaderOf(said: seq<Said>): seq<Bytes> {
    [MagicLine()] + SaidLines(said) + [[LF]]
  }

  function SaidPrerequisites(said: seq<Said>): seq<Oid> {
    if said == [] then []
    else
      var rest := SaidPrerequisites(said[..|said| - 1]);
      match said[|said| - 1]
      case SaidPrerequisite(oid, _) => rest + [oid]
      case SaidRef(_, _) => rest
  }

  function SaidRefs(said: seq<Said>): seq<(Oid, Bytes)> {
    if said == [] then []
    else
      var rest := SaidRefs(said[..|said| - 1]);
      match said[|said| - 1]
      case SaidPrerequisite(_, _) => rest
      case SaidRef(oid, name) => rest + [(oid, name)]
  }

  /** The entry can be written: valid text within the line cap, without a newline, and its name is read back. */
  predicate CanSay(said: Said) {
    && IsUtf8(SaidText(said)) && LF !in SaidText(said) && |SaidText(said)| < MAX_HEADER_LINE_BYTES
    && (said.SaidRef? ==> said.name != [] && said.name[|said.name| - 1] != CR)
  }

  predicate CanSayAll(said: seq<Said>) {
    forall i :: 0 <= i < |said| ==> CanSay(said[i])
  }

  lemma HexSpells(oid: Oid)
    ensures IsHexOf(ShallowFile.Hex(oid.raw), oid)
  {
    ShallowFile.UnhexHex(oid.raw);
    ShallowFile.UnhexIs(ShallowFile.Hex(oid.raw), oid.raw);
  }

  /** Each line of such a header reads as its entry. */
  lemma SaidReadsBack(said: Said)
    requires CanSay(said)
    ensures ParseEntry(SaidText(said) + [LF]) == match said
                                                 case SaidPrerequisite(oid, _) => Some(Prerequisite(oid))
                                                 case SaidRef(oid, name) => Some(Ref(oid, name))
  {
    var line := SaidText(said) + [LF];
    var hex := ShallowFile.Hex(said.oid.raw);
    HexSpells(said.oid);
    HexHasNoSpace(hex, said.oid);
    match said
    case SaidRef(oid, name) =>
      assert line == RefLine(oid, name);
      RefLineReadsBack(oid, name);
    case SaidPrerequisite(oid, comment) =>
      HexBytes(oid.raw);
      assert !IsEol(hex[|hex| - 1]);
      PrerequisiteText(hex, oid, comment);
  }

  /** What is left of the line without its ending still says the prerequisite. */
  lemma PrerequisiteText(hex: Bytes, oid: Oid, comment: Option<Bytes>)
    requires IsHexOf(hex, oid) && !IsEol(hex[|hex| - 1])
    ensures match comment
            case None => ParseEntry([DASH] + hex + [LF]) == Some(Prerequisite(oid))
            case Some(c) => ParseEntry([DASH] + hex + [SPACE] + c + [LF]) == Some(Prerequisite(oid))
  {
    match comment
    case None =>
      var text := [DASH] + hex;
      assert text[|text| - 1] == hex[|hex| - 1];
      TrimEolIs(text, [LF]);
      assert text == [DASH] + hex + [];
      assert IsPrerequisiteText(text, hex, []);
      PrerequisiteReads(text + [LF], text, oid);
    case Some(c) =>
      var line := [DASH] + hex + [SPACE] + c + [LF];
      var rest := CommentStays([DASH] + hex, c);
      assert IsPrerequisiteText(TrimEol(line), hex, rest);
      PrerequisiteReads(line, TrimEol(line), oid);
  }

  lemma CommentStays(head: Bytes, comment: Bytes) returns (rest: Bytes)
    ensures TrimEol(head + [SPACE] + comment + [LF]) == head + rest && rest != [] && rest[0] == SPACE
  {
    var line, kept := head + [SPACE] + comment + [LF], head + [SPACE];
    assert line == kept + (comment + [LF]);
    TrimEolKeeps(kept, comment + [LF]);
    var text := TrimEol(line);
    rest := text[|head|..];
    assert kept[|head|] == SPACE;
  }

  /** Trimming stops at a byte that is no line ending, and takes from the end only. */
  lemma {:induction false} TrimEolKeeps(head: Bytes, tail: Bytes)
    requires head != [] && !IsEol(head[|head| - 1])
    ensures head <= TrimEol(head + tail) <= head + tail
  {
    var s := head + tail;
    if tail == [] {
      assert s == head;
    } else if IsEol(s[|s| - 1]) {
      assert s[..|s| - 1] == head + tail[..|tail| - 1];
      TrimEolKeeps(head, tail[..|tail| - 1]);
    }
  }

  lemma OneMoreSaid(lines: seq<Bytes>, said: Said)
    requires CanSay(said)
    ensures PrerequisitesOf(lines + [SaidText(said) + [LF]]) ==
              PrerequisitesOf(lines) + if said.SaidPrerequisite? then [said.oid] else []
    ensures RefsOf(lines + [SaidText(said) + [LF]]) ==
              RefsOf(lines) + if said.SaidRef? then [(said.oid, said.name)] else []
  {
    SaidReadsBack(said);
    EntriesGrow(lines, SaidText(said) + [LF]);
  }

  lemma {:induction false} SaidEntries(said: seq<Said>)
    requires CanSayAll(said)
    ensures PrerequisitesOf(SaidLines(said)) == SaidPrerequisites(said) && RefsOf(SaidLines(said)) == SaidRefs(said)
  {
    if said != [] {
      var n := |said| - 1;
      SaidEntries(said[..n]);
      OneMoreSaid(SaidLines(said[..n]), said[n]);
    }
  }

  lemma HeaderSays(said: seq<Said>)
    requires CanSayAll(said)
    ensures PrerequisitesOf(HeaderOf(said)[1..]) == SaidPrerequisites(said)
    ensures RefsOf(HeaderOf(said)[1..]) == SaidRefs(said)
  {
    SaidEntries(said);
    EntriesGrow(SaidLines(said), [LF]);
    BlankFits();
    assert HeaderOf(said)[1..] == SaidLines(said) + [[LF]];
  }

  lemma SaidIsHeader(said: seq<Said>, data: Bytes)
    requires CanSayAll(said)
    requires |Joined(HeaderOf(said))| <= MAX_HEADER_TOTAL_BYTES && Joined(HeaderOf(said)) + PACK <= data
    ensures IsHeader(data, HeaderOf(said))
  {
    MagicFits();
    BlankFits();
    SaidAreBodies(said);
    FramedIsHeader(MagicLine(), SaidLines(said), [LF], data);
  }

  lemma {:induction false} SaidBodyLine(said: seq<Said>, i: nat)
    requires i < |said| && CanSayAll(said)
    ensures IsBodyLine(SaidLines(said)[i], i + 1)
  {
    var n := |said| - 1;
    if i < n {
      SaidBodyLine(said[..n], i);
      assert SaidLines(said)[i] == SaidLines(said[..n])[i];
    } else {
      SaidIsBody(said[n], i + 1);
    }
  }

  lemma FramedAt<T>(first: T, middle: seq<T>, last: T, i: nat)
    requires i <= |middle|
    ensures ([first] + middle + [last])[i] == if i == 0 then first else middle[i - 1]
  {
  }

  lemma FramedLine(first: Bytes, middle: seq<Bytes>, last: Bytes, i: nat)
    requires i <= |middle| && IsBodyLine(if i == 0 then first else middle[i - 1], i)
    ensures IsBodyLine(([first] + middle + [last])[i], i)
  {
    FramedAt(first, middle, last, i);
  }

  /** These lines may follow the magic. */
  predicate FollowAsBodies(lines: seq<Bytes>) {
    forall i: nat :: i < |lines| ==> IsBodyLine(lines[i], i + 1)
  }

  lemma FramedIsHeader(first: Bytes, middle: seq<Bytes>, last: Bytes, data: Bytes)
    requires IsBodyLine(first, 0) && FollowAsBodies(middle) && IsBoundedLine(last) && TrimEol(last) == []
    requires |Joined([first] + middle + [last])| <= MAX_HEADER_TOTAL_BYTES
    requires Joined([first] + middle + [last]) + PACK <= data
    ensures IsHeader(data, [first] + middle + [last])
  {
    var lines := [first] + middle + [last];
    forall i: nat | i < |lines| - 1 ensures IsBodyLine(lines[i], i) {
      FramedLine(first, middle, last, i);
    }
  }

  lemma SaidAreBodies(said: seq<Said>)
    requires CanSayAll(said)
    ensures FollowAsBodies(SaidLines(said))
  {
    forall i: nat | i < |said| ensures IsBodyLine(SaidLines(said)[i], i + 1) {
      SaidBodyLine(said, i);
    }
  }

  lemma SaidIsBody(said: Said, i: nat)
    requires i > 0 && CanSay(said)
    ensures IsBodyLine(SaidText(said) + [LF], i)
  {
    SaidReadsBack(said);
    SaidLineIsBounded(said);
  }

  lemma SaidLineIsBounded(said: Said)
    requires CanSay(said)
    ensures IsBoundedLine(SaidText(said) + [LF])
  {
    AsciiIsUtf8([LF]);
    Utf8Concat(SaidText(said), [LF]);
    assert (SaidText(said) + [LF])[..|SaidText(said)|] == SaidText(said);
  }

  /**
   * A bundle with any prerequisites, commented or not, and any refs, in any order: reading it
   * gives exactly those, in order, and where the pack begins.
   */
  method ReadBack(said: seq<Said>, pack: Bytes) returns (r: ReadResult)
    requires CanSayAll(said) && PACK <= pack
    requires |Joined(HeaderOf(said))| <= MAX_HEADER_TOTAL_BYTES
    ensures r == Parsed(Header(SaidPrerequisites(said), SaidRefs(said), |Joined(HeaderOf(said))|))
  {
    var data := Joined(HeaderOf(said)) + pack;
    assert Joined(HeaderOf(said)) + PACK <= data;
    SaidIsHeader(said, data);
    var reader := new HeaderReader(data);
    ghost var lines;
    r, lines := reader.Read();
    HeaderIsUnique(data, HeaderOf(said), lines);
    HeaderSays(said);
  }
}
