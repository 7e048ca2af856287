// The `shallow` file: its text form, and its rewrite by `write_shallow_file` (src/git.rs).
module ShallowFile {
  import opened Base
  import opened ObjectDb

  const LF: byte := 10

  // ---------------------------------------------------------------
  // Hexadecimal object ids.
  // ---------------------------------------------------------------

  function HexDigit(n: int): byte
    requires 0 <= n < 16
  {
    if n < 10 then (48 + n) as byte else (87 + n) as byte
  }

  function HexValue(b: byte): Option<int> {
    if 48 <= b <= 57 then Some(b as int - 48)
    else if 97 <= b <= 102 then Some(b as int - 87)
    else if 65 <= b <= 70 then Some(b as int - 55)
    else None
  }

  function Hex(raw: seq<byte>): (h: Bytes)
    ensures |h| == 2 * |raw|
    ensures forall i :: 0 <= i < |raw| ==>
              h[2 * i] == HexDigit(raw[i] as int / 16) && h[2 * i + 1] == HexDigit(raw[i] as int % 16)
  {
    if raw == [] then []
    else [HexDigit(raw[0] as int / 16), HexDigit(raw[0] as int % 16)] + Hex(raw[1..])
  }

  function Unhex(h: Bytes): (r: Option<seq<byte>>)
    ensures r.Some? ==> 2 * |r.value| == |h|
  {
    if h == [] then Some([])
    else if |h| == 1 then None
    else match (HexValue(h[0]), HexValue(h[1]), Unhex(h[2..]))
      case (Some(hi), Some(lo), Some(rest)) => Some([(16 * hi + lo) as byte] + rest)
      case _ => None
  }

  /** `ObjectId::from_hex`: exactly 40 hex digits of either case. */
  function FromHex(line: Bytes): Option<Oid> {
    if |line| != 2 * RAW_LEN then None
    else match Unhex(line)
      case Some(raw) => Some(Oid(raw))
      case None => None
  }

  lemma {:induction false} UnhexHex(raw: seq<byte>)
    ensures Unhex(Hex(raw)) == Some(raw)
  {
    if raw != [] {
      UnhexHex(raw[1..]);
      assert Hex(raw)[2..] == Hex(raw[1..]);
      assert [raw[0]] + raw[1..] == raw;
    }
  }

  // ---------------------------------------------------------------
  // Lines.
  // ---------------------------------------------------------------

  predicate IsSpace(b: byte) {
    b == 32 || b == 9 || b == LF || b == 12 || b == 13
  }

  function TrimStart(s: Bytes): Bytes {
    if s != [] && IsSpace(s[0]) then TrimStart(s[1..]) else s
  }

  function TrimEnd(s: Bytes): Bytes {
    if s != [] && IsSpace(s[|s| - 1]) then TrimEnd(s[..|s| - 1]) else s
  }

  function Trim(s: Bytes): Bytes {
    TrimEnd(TrimStart(s))
  }

  /** The pieces between newlines, the last one included even when empty. */
  function SplitLines(s: Bytes): (lines: seq<Bytes>)
    ensures lines != []
  {
    if s == [] then [[]]
    else
      var rest := SplitLines(s[1..]);
      if s[0] == LF then [[]] + rest else [[s[0]] + rest[0]] + rest[1..]
  }

  function LinesToSet(lines: seq<Bytes>): set<Oid> {
    if lines == [] then {}
    else
      var last := FromHex(Trim(lines[|lines| - 1]));
      LinesToSet(lines[..|lines| - 1]) + (if last.Some? then {last.value} else {})
  }

  /** The object ids listed in a `shallow` file; blank and malformed lines are skipped. */
  function ParseShallow(text: Bytes): set<Oid> {
    LinesToSet(SplitLines(text))
  }

  function RenderShallow(oids: seq<Oid>): Bytes {
    if oids == [] then []
    else Hex(oids[0].raw) + [LF] + RenderShallow(oids[1..])
  }

  lemma {:induction false} SplitFirst(line: Bytes, rest: Bytes)
    requires LF !in line
    ensures SplitLines(line + [LF] + rest) == [line] + SplitLines(rest)
  {
    var s := line + [LF] + rest;
    if line == [] {
      assert s[1..] == rest;
    } else {
      SplitFirst(line[1..], rest);
      assert s[1..] == line[1..] + [LF] + rest;
      assert [line[0]] + line[1..] == line;
    }
  }

  lemma {:induction false} LinesToSetCons(line: Bytes, lines: seq<Bytes>)
    ensures LinesToSet([line] + lines) == LinesToSet([line]) + LinesToSet(lines)
  {
    if lines == [] {
      assert [line] + lines == [line];
    } else {
      LinesToSetCons(line, lines[..|lines| - 1]);
      assert ([line] + lines)[..|lines|] == [line] + lines[..|lines| - 1];
    }
  }

  lemma HexLine(o: Oid)
    ensures LF !in Hex(o.raw) && LinesToSet([Hex(o.raw)]) == {o}
  {
    var h := Hex(o.raw);
    forall i | 0 <= i < |h| ensures !IsSpace(h[i]) {
      var b := o.raw[i / 2];
      assert h[i] == if i % 2 == 0 then HexDigit(b as int / 16) else HexDigit(b as int % 16);
    }
    assert Trim(h) == h;
    UnhexHex(o.raw);
    assert [h][..0] == [];
    assert LinesToSet([h]) == LinesToSet([h][..0]) + {o};
  }

  /** Reading back what was written gives the listed ids. */
  lemma {:induction false} ParseRender(oids: seq<Oid>)
    ensures ParseShallow(RenderShallow(oids)) == set o | o in oids
  {
    if oids == [] {
      var blank: seq<Bytes> := [[]];
      assert SplitLines([]) == blank && Trim([]) == [];
      assert LinesToSet(blank) == LinesToSet(blank[..0]) + {};
    } else {
      ParseRender(oids[1..]);
      HexLine(oids[0]);
      SplitFirst(Hex(oids[0].raw), RenderShallow(oids[1..]));
      LinesToSetCons(Hex(oids[0].raw), SplitLines(RenderShallow(oids[1..])));
      assert (set o | o in oids) == {oids[0]} + set o | o in oids[1..];
    }
  }

  // ---------------------------------------------------------------
  // What any text lists.
  // ---------------------------------------------------------------

  /** `text[a..b]` is a line: no newline in it, and one or an end of the text on either side. */
  predicate IsLineAt(text: Bytes, a: nat, b: nat) {
    && a <= b <= |text| && LF !in text[a..b]
    && (a == 0 || text[a - 1] == LF) && (b == |text| || text[b] == LF)
  }

  ghost predicate IsLineOf(text: Bytes, line: Bytes) {
    exists a: nat, b: nat :: IsLineAt(text, a, b) && line == text[a..b]
  }

  /** The line is 40 hex digits of either case, two for each byte of the id, with nothing but space around them. */
  ghost predicate Spells(line: Bytes, o: Oid) {
    exists from: nat :: SpellsAt(line, from, o)
  }

  ghost predicate SpellsAt(line: Bytes, from: nat, o: Oid) {
    && from + 2 * RAW_LEN <= |line|
    && (forall i :: 0 <= i < from || from + 2 * RAW_LEN <= i < |line| ==> IsSpace(line[i]))
    && forall k :: 0 <= k < RAW_LEN ==> PairSpells(line[from + 2 * k], line[from + 2 * k + 1], o.raw[k])
  }

  predicate PairSpells(high: byte, low: byte, value: byte) {
    && HexValue(high).Some? && HexValue(low).Some?
    && 16 * HexValue(high).value + HexValue(low).value == value as int
  }

  predicate PairsSpell(h: Bytes, raw: seq<byte>) {
    |h| == 2 * |raw| && forall k :: 0 <= k < |raw| ==> PairSpells(h[2 * k], h[2 * k + 1], raw[k])
  }

  lemma PairsSpellRest(h: Bytes, raw: seq<byte>)
    requires raw != [] && |h| == 2 * |raw|
    ensures PairsSpell(h, raw) <==> PairSpells(h[0], h[1], raw[0]) && PairsSpell(h[2..], raw[1..])
  {
    if PairsSpell(h, raw) {
      assert PairSpells(h[2 * 0], h[2 * 0 + 1], raw[0]);
      forall k | 0 <= k < |raw[1..]| ensures PairSpells(h[2..][2 * k], h[2..][2 * k + 1], raw[1..][k]) {
        assert PairSpells(h[2 * (k + 1)], h[2 * (k + 1) + 1], raw[k + 1]);
      }
    }
    if PairSpells(h[0], h[1], raw[0]) && PairsSpell(h[2..], raw[1..]) {
      forall k | 0 <= k < |raw| ensures PairSpells(h[2 * k], h[2 * k + 1], raw[k]) {
        assert k > 0 ==> PairSpells(h[2..][2 * (k - 1)], h[2..][2 * (k - 1) + 1], raw[1..][k - 1]);
      }
    }
  }

  lemma {:induction false} UnhexIs(h: Bytes, raw: seq<byte>)
    ensures Unhex(h) == Some(raw) <==> PairsSpell(h, raw)
  {
    if |h| == 2 * |raw| && raw != [] {
      UnhexIs(h[2..], raw[1..]);
      PairsSpellRest(h, raw);
      assert raw == [raw[0]] + raw[1..];
    }
  }

  /** Trimming takes off space and leaves none at either end. */
  lemma {:induction false} TrimStartIs(s: Bytes) returns (n: nat)
    ensures n <= |s| && TrimStart(s) == s[n..] && forall i :: 0 <= i < n ==> IsSpace(s[i])
    ensures n < |s| ==> !IsSpace(s[n])
  {
    n := 0;
    if s != [] && IsSpace(s[0]) {
      var m := TrimStartIs(s[1..]);
      n := m + 1;
      forall i | 0 <= i < n ensures IsSpace(s[i]) {
        assert i > 0 ==> s[1..][i - 1] == s[i];
      }
    }
  }

  lemma {:induction false} TrimEndIs(s: Bytes) returns (n: nat)
    ensures n <= |s| && TrimEnd(s) == s[..n] && forall i :: n <= i < |s| ==> IsSpace(s[i])
    ensures n > 0 ==> !IsSpace(s[n - 1])
  {
    n := |s|;
    if s != [] && IsSpace(s[|s| - 1]) {
      var init := s[..|s| - 1];
      n := TrimEndIs(init);
      forall i | n <= i < |s| ensures IsSpace(s[i]) {
        assert i < |s| - 1 ==> init[i] == s[i];
      }
    }
  }

  lemma TrimIs(s: Bytes) returns (from: nat, to: nat)
    ensures from <= to <= |s| && Trim(s) == s[from..to]
    ensures forall i :: 0 <= i < from || to <= i < |s| ==> IsSpace(s[i])
    ensures from < to ==> !IsSpace(s[from]) && !IsSpace(s[to - 1])
  {
    from := TrimStartIs(s);
    var rest := s[from..];
    var n := TrimEndIs(rest);
    to := from + n;
    forall i | to <= i < |s| ensures IsSpace(s[i]) {
      assert rest[i - from] == s[i];
    }
  }

  lemma LineIs(line: Bytes, o: Oid)
    ensures FromHex(Trim(line)) == Some(o) <==> Spells(line, o)
  {
    var from, to := TrimIs(line);
    UnhexIs(line[from..to], o.raw);
    if FromHex(Trim(line)) == Some(o) {
      TrimmedSpells(line, from, o);
    }
    if at: nat :| SpellsAt(line, at, o) {
      SpelledIsTrimmed(line, at, o, from, to);
    }
  }

  lemma TrimmedSpells(line: Bytes, from: nat, o: Oid)
    requires from + 2 * RAW_LEN <= |line| && PairsSpell(line[from..from + 2 * RAW_LEN], o.raw)
    requires forall i :: 0 <= i < from || from + 2 * RAW_LEN <= i < |line| ==> IsSpace(line[i])
    ensures SpellsAt(line, from, o)
  {
    var h := line[from..from + 2 * RAW_LEN];
    forall k | 0 <= k < RAW_LEN ensures PairSpells(line[from + 2 * k], line[from + 2 * k + 1], o.raw[k]) {
      assert PairSpells(h[2 * k], h[2 * k + 1], o.raw[k]);
    }
  }

  lemma SpelledIsTrimmed(line: Bytes, at: nat, o: Oid, from: nat, to: nat)
    requires SpellsAt(line, at, o) && from <= to <= |line|
    requires forall i :: 0 <= i < from || to <= i < |line| ==> IsSpace(line[i])
    requires from < to ==> !IsSpace(line[from]) && !IsSpace(line[to - 1])
    ensures from == at && to == at + 2 * RAW_LEN && PairsSpell(line[from..to], o.raw)
  {
    assert PairSpells(line[at + 2 * 0], line[at + 2 * 0 + 1], o.raw[0]);
    assert PairSpells(line[at + 2 * 19], line[at + 2 * 19 + 1], o.raw[19]);
    assert !IsSpace(line[at]) && !IsSpace(line[at + 39]);
    var h := line[from..to];
    forall k | 0 <= k < RAW_LEN ensures PairSpells(h[2 * k], h[2 * k + 1], o.raw[k]) {
      assert PairSpells(line[at + 2 * k], line[at + 2 * k + 1], o.raw[k]);
    }
  }

  /** Past the first newline the lines are those of the rest. */
  lemma LaterLine(text: Bytes, end: nat, a: nat, b: nat)
    requires end < |text| && text[end] == LF && a <= b <= |text| - end - 1
    ensures text[end + 1 + a..end + 1 + b] == text[end + 1..][a..b]
    ensures IsLineAt(text, end + 1 + a, end + 1 + b) <==> IsLineAt(text[end + 1..], a, b)
  {
    var rest := text[end + 1..];
    assert a > 0 ==> rest[a - 1] == text[end + a];
    assert b < |rest| ==> rest[b] == text[end + 1 + b];
  }

  lemma LineStartsAfter(text: Bytes, end: nat, a: nat, b: nat)
    requires end < |text| && LF !in text[..end] && text[end] == LF && IsLineAt(text, a, b)
    ensures (a == 0 && b == end) || a > end
  {
    assert forall k :: 0 <= k < end ==> text[k] == text[..end][k] && text[k] != LF;
    assert forall k :: a <= k < b ==> text[k] == text[a..b][k - a] && text[k] != LF;
  }

  lemma OnlyLine(text: Bytes, line: Bytes)
    requires LF !in text
    ensures IsLineOf(text, line) <==> line == text
  {
    assert IsLineAt(text, 0, |text|) && text == text[0..|text|];
    assert forall k :: 0 <= k < |text| ==> text[k] != LF;
  }

  lemma FirstOrLater(text: Bytes, end: nat, line: Bytes)
    requires end < |text| && LF !in text[..end] && text[end] == LF
    ensures IsLineOf(text, line) <==> line == text[..end] || IsLineOf(text[end + 1..], line)
  {
    var rest := text[end + 1..];
    assert IsLineAt(text, 0, end) && text[..end] == text[0..end];
    if a: nat, b: nat :| IsLineAt(rest, a, b) && line == rest[a..b] {
      LaterLine(text, end, a, b);
    }
    if a: nat, b: nat :| IsLineAt(text, a, b) && line == text[a..b] {
      LineStartsAfter(text, end, a, b);
      if a > end {
        LaterLine(text, end, a - end - 1, b - end - 1);
      }
    }
  }

  /** The pieces are the lines. */
  lemma {:induction false} PiecesAreLines(text: Bytes, line: Bytes)
    ensures line in SplitLines(text) <==> IsLineOf(text, line)
  {
    var end := FirstLine(text);
    if end == |text| {
      OneLine(text);
      OnlyLine(text, line);
    } else {
      var first, rest := text[..end], text[end + 1..];
      assert text == first + [LF] + rest;
      SplitFirst(first, rest);
      PiecesAreLines(rest, line);
      FirstOrLater(text, end, line);
    }
  }

  /** Where the first newline is, or the end. */
  lemma {:induction false} FirstLine(text: Bytes) returns (end: nat)
    ensures end <= |text| && LF !in text[..end] && (end < |text| ==> text[end] == LF)
  {
    end := 0;
    while end < |text| && text[end] != LF
      invariant end <= |text| && LF !in text[..end]
    {
      assert text[..end + 1] == text[..end] + [text[end]];
      end := end + 1;
    }
  }

  lemma {:induction false} OneLine(text: Bytes)
    requires LF !in text
    ensures SplitLines(text) == [text]
  {
    if text != [] {
      OneLine(text[1..]);
      assert text == [text[0]] + text[1..];
    }
  }

  /** An id is listed exactly when some line spells it, whatever the other lines are. */
  lemma ListsWhatLinesSpell(text: Bytes, o: Oid)
    ensures o in ParseShallow(text) <==> exists line :: IsLineOf(text, line) && Spells(line, o)
  {
    LinesSpell(SplitLines(text), o);
    if line :| line in SplitLines(text) && Spells(line, o) {
      PiecesAreLines(text, line);
    }
    if line :| IsLineOf(text, line) && Spells(line, o) {
      PiecesAreLines(text, line);
    }
  }

  lemma {:induction false} LinesSpell(lines: seq<Bytes>, o: Oid)
    ensures o in LinesToSet(lines) <==> exists line :: line in lines && Spells(line, o)
  {
    if lines != [] {
      var n := |lines| - 1;
      LinesSpell(lines[..n], o);
      LineIs(lines[n], o);
      assert lines == lines[..n] + [lines[n]];
    }
  }

  // ---------------------------------------------------------------
  // Order of the written file.
  // ---------------------------------------------------------------

  predicate LexLess(a: seq<byte>, b: seq<byte>) {
    if a == [] || b == [] then a == [] && b != []
    else a[0] < b[0] || (a[0] == b[0] && LexLess(a[1..], b[1..]))
  }

  predicate OidLess(a: Oid, b: Oid) {
    LexLess(a.raw, b.raw)
  }

  lemma {:induction false} LexTotal(a: seq<byte>, b: seq<byte>)
    ensures !LexLess(a, a)
    ensures a == b || LexLess(a, b) || LexLess(b, a)
    ensures LexLess(a, b) ==> !LexLess(b, a) && a != b
  {
    if a != [] && b != [] {
      LexTotal(a[1..], b[1..]);
      assert a == [a[0]] + a[1..] && b == [b[0]] + b[1..];
    } else if a != [] {
      LexTotal(a[1..], b);
    }
  }

  lemma {:induction false} LexTransitive(a: seq<byte>, b: seq<byte>, c: seq<byte>)
    requires LexLess(a, b) && LexLess(b, c)
    ensures LexLess(a, c)
  {
    if a != [] && a[0] == b[0] && b[0] == c[0] {
      LexTransitive(a[1..], b[1..], c[1..]);
    }
  }

  /** Raw byte order and the order of the hex text agree. */
  lemma {:induction false} HexKeepsOrder(a: seq<byte>, b: seq<byte>)
    requires |a| == |b|
    ensures LexLess(a, b) <==> LexLess(Hex(a), Hex(b))
  {
    if a != [] {
      HexKeepsOrder(a[1..], b[1..]);
      assert Hex(a)[1..][1..] == Hex(a[1..]) && Hex(b)[1..][1..] == Hex(b[1..]);
    }
  }

  ghost predicate StrictlySorted(s: seq<Oid>) {
    forall i, j :: 0 <= i < j < |s| ==> OidLess(s[i], s[j])
  }

  function Elements(s: seq<Oid>): set<Oid> {
    set o | o in s
  }

  lemma ElementsEmpty(s: seq<Oid>)
    ensures Elements(s) == {} <==> s == []
  {
    if s != [] {
      assert s[0] in Elements(s);
    }
  }

  /** A set has one strictly sorted listing. */
  lemma {:induction false} SortedIsUnique(a: seq<Oid>, b: seq<Oid>)
    requires StrictlySorted(a) && StrictlySorted(b) && Elements(a) == Elements(b)
    ensures a == b
  {
    ElementsEmpty(a);
    ElementsEmpty(b);
    if a != [] && b != [] {
      assert a[0] in Elements(b) && b[0] in Elements(a);
      var i :| 0 <= i < |b| && b[i] == a[0];
      var j :| 0 <= j < |a| && a[j] == b[0];
      LexTotal(a[0].raw, b[0].raw);
      assert a[0] == b[0];
      forall o ensures o in Elements(a[1..]) <==> o in Elements(b[1..]) {
        LexTotal(a[0].raw, a[0].raw);
        assert o in Elements(a) <==> o in Elements(b);
        assert a == [a[0]] + a[1..] && b == [b[0]] + b[1..];
      }
      SortedIsUnique(a[1..], b[1..]);
      assert a == [a[0]] + a[1..] && b == [b[0]] + b[1..];
    }
  }

  /** `sort_unstable` on the collected set. */
  method SortUnstable(s: set<Oid>) returns (sorted: seq<Oid>)
    ensures StrictlySorted(sorted) && Elements(sorted) == s
  {
    sorted := [];
    var rest := s;
    while rest != {}
      invariant StrictlySorted(sorted) && Elements(sorted) == s - rest && rest <= s
      decreases rest
    {
      var o :| o in rest;
      var i := 0;
      while i < |sorted| && OidLess(sorted[i], o)
        invariant 0 <= i <= |sorted| && forall k :: 0 <= k < i ==> OidLess(sorted[k], o)
      {
        i := i + 1;
      }
      InsertKeepsOrder(sorted, i, o);
      sorted := sorted[..i] + [o] + sorted[i..];
      rest := rest - {o};
    }
  }

  lemma InsertKeepsOrder(s: seq<Oid>, i: nat, o: Oid)
    requires StrictlySorted(s) && i <= |s| && o !in Elements(s)
    requires forall k :: 0 <= k < i ==> OidLess(s[k], o)
    requires i < |s| ==> !OidLess(s[i], o)
    ensures StrictlySorted(s[..i] + [o] + s[i..])
    ensures Elements(s[..i] + [o] + s[i..]) == Elements(s) + {o}
  {
    forall k | i <= k < |s| ensures OidLess(o, s[k]) {
      assert s[i] in Elements(s);
      LexTotal(s[i].raw, o.raw);
      if i < k {
        LexTransitive(o.raw, s[i].raw, s[k].raw);
      }
    }
    assert s == s[..i] + s[i..];
  }

  // ---------------------------------------------------------------
  // The rewrite.
  // ---------------------------------------------------------------

  /** The entry leads, through any tags, to a commit one of whose parents is not there. */
  ghost predicate MissesParent(odb: Odb, o: Oid) {
    exists c :: c in odb && odb[c].Commit? && Reaches(odb, o, c) && LacksOne(odb, odb[c].parents)
  }

  predicate LacksOne(odb: Odb, parents: seq<Oid>) {
    exists i :: 0 <= i < |parents| && parents[i] !in odb
  }

  /** `entry_remains_a_boundary`: a present commit with at least one missing parent. */
  predicate RemainsBoundary(odb: Odb, o: Oid) {
    match DecodeCommit(odb, o)
    case Err(_) => false
    case Ok(parents) => parents != [] && exists p :: p in parents && p !in odb
  }

  /** One missing parent is enough, and needed. */
  lemma RemainsIff(odb: Odb, o: Oid)
    ensures RemainsBoundary(odb, o) <==> MissesParent(odb, o)
  {
    if RemainsBoundary(odb, o) {
      DecodesIff(odb, o, DecodeCommit(odb, o).value);
      var p :| p in DecodeCommit(odb, o).value && p !in odb;
      assert LacksOne(odb, DecodeCommit(odb, o).value);
    }
    if c :| c in odb && odb[c].Commit? && Reaches(odb, o, c) && LacksOne(odb, odb[c].parents) {
      DecodesIff(odb, o, odb[c].parents);
      var i :| 0 <= i < |odb[c].parents| && odb[c].parents[i] !in odb;
      assert odb[c].parents[i] in odb[c].parents;
    }
  }

  /** The ids a rewrite lists. */
  function Rewrite(odb: Odb, existing: set<Oid>, boundaries: set<Oid>): set<Oid> {
    boundaries + set o | o in existing && RemainsBoundary(odb, o)
  }

  /** The new boundaries, and of the old entries those that miss a parent. */
  lemma RewriteLists(odb: Odb, existing: set<Oid>, boundaries: set<Oid>, o: Oid)
    ensures o in Rewrite(odb, existing, boundaries) <==> o in boundaries || (o in existing && MissesParent(odb, o))
  {
    RemainsIff(odb, o);
  }

  /** The file that stands for a set of ids: none for the empty set, else its sorted listing. */
  ghost predicate IsFileFor(file: Option<Bytes>, s: set<Oid>) {
    match file
    case None => s == {}
    case Some(text) =>
      && s != {}
      && exists sorted :: StrictlySorted(sorted) && Elements(sorted) == s && text == RenderShallow(sorted)
  }

  function ParseFile(file: Option<Bytes>): set<Oid> {
    match file
    case None => ParseShallow([])
    case Some(text) => ParseShallow(text)
  }

  /** The file of a set reads back as the set, and is the only such file. */
  lemma FileReadsBack(file: Option<Bytes>, file': Option<Bytes>, s: set<Oid>)
    requires IsFileFor(file, s) && IsFileFor(file', s)
    ensures ParseFile(file) == s && file == file'
  {
    if s == {} {
      ParseRender([]);
    } else {
      var a :| StrictlySorted(a) && Elements(a) == s && file.value == RenderShallow(a);
      var b :| StrictlySorted(b) && Elements(b) == s && file'.value == RenderShallow(b);
      SortedIsUnique(a, b);
      ParseRender(a);
    }
  }

  /** The lenient read loop. */
  method ReadEntries(text: Bytes) returns (existing: set<Oid>)
    ensures existing == ParseShallow(text)
  {
    existing := {};
    var lines := SplitLines(text);
    for i := 0 to |lines|
      invariant existing == LinesToSet(lines[..i])
    {
      assert lines[..i + 1][..i] == lines[..i];
      var oid := FromHex(Trim(lines[i]));
      if oid.Some? {
        existing := existing + {oid.value};
      }
    }
    assert lines[..|lines|] == lines;
  }

  /** The pruning loop: of the entries not freshly designated, those that remain boundaries join. */
  method AddRemaining(odb: Odb, boundaries: set<Oid>, existing: set<Oid>) returns (finalSet: set<Oid>)
    ensures finalSet == Rewrite(odb, existing, boundaries)
  {
    finalSet := boundaries;
    var stale := existing - boundaries;
    while stale != {}
      invariant stale <= existing - boundaries
      invariant finalSet == boundaries + set o | o in existing - stale && RemainsBoundary(odb, o)
      decreases stale
    {
      var oid :| oid in stale;
      stale := stale - {oid};
      if RemainsBoundary(odb, oid) {
        finalSet := finalSet + {oid};
      }
    }
  }

  /** A repository's git directory as far as shallow fetches see it. */
  class GitDir {
    var odb: Odb
    var shallow: Option<Bytes>

    constructor (odb: Odb, shallow: Option<Bytes>)
      ensures this.odb == odb && this.shallow == shallow
    {
      this.odb := odb;
      this.shallow := shallow;
    }

    function Listed(): set<Oid>
      reads this
    {
      ParseFile(shallow)
    }

    /** `write_shallow_file`. */
    method WriteShallowFile(boundaries: seq<Oid>)
      modifies this`shallow
      ensures IsFileFor(shallow, Rewrite(odb, old(Listed()), Elements(boundaries)))
      ensures forall o :: o in Listed() <==> o in boundaries || (o in old(Listed()) && MissesParent(odb, o))
    {
      var existing := ReadEntries(if shallow.Some? then shallow.value else []);
      var finalSet := AddRemaining(odb, Elements(boundaries), existing);
      if finalSet == {} {
        shallow := None;
      } else {
        var sorted := SortUnstable(finalSet);
        shallow := Some(RenderShallow(sorted));
      }
      FileReadsBack(shallow, shallow, finalSet);
      forall o ensures o in Listed() <==> o in boundaries || (o in old(Listed()) && MissesParent(odb, o)) {
        RewriteLists(odb, old(Listed()), Elements(boundaries), o);
      }
    }
  }

  /** For a fixed database a second rewrite changes no byte of the file. */
  lemma RewriteIsIdempotent(odb: Odb, existing: set<Oid>, boundaries: set<Oid>, first: Option<Bytes>,
                            second: Option<Bytes>)
    requires IsFileFor(first, Rewrite(odb, existing, boundaries))
    requires IsFileFor(second, Rewrite(odb, ParseFile(first), boundaries))
    ensures second == first
  {
    FileReadsBack(first, first, Rewrite(odb, existing, boundaries));
    assert Rewrite(odb, Rewrite(odb, existing, boundaries), boundaries) == Rewrite(odb, existing, boundaries);
    FileReadsBack(first, second, Rewrite(odb, existing, boundaries));
  }
}
