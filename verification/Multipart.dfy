// The multipart part planner and the positional part read (src/object_store/multipart.rs).
module Multipart {
  import opened Base

  const MULTIPART_PUT_PART_SIZE := 16 * 1024 * 1024

  const U64_LIMIT: int := 0x1_0000_0000_0000_0000

  newtype u64 = x: int | 0 <= x < U64_LIMIT

  datatype UploadPart = UploadPart(offset: u64, length: u64)

  /** `u64::div_ceil`. */
  function DivCeil(a: int, b: int): int
    requires a >= 0 && b > 0
  {
    a / b + if a % b > 0 then 1 else 0
  }

  /** `target` doubled `k` times. */
  function Doubled(target: int, k: nat): int {
    if k == 0 then target else 2 * Doubled(target, k - 1)
  }

  /** A plan with parts of `partSize` stays within `maxParts`. */
  predicate Fits(size: int, partSize: int, maxParts: int)
    requires size >= 0 && partSize > 0
  {
    DivCeil(size, partSize) <= maxParts
  }

  // ---------------------------------------------------------------
  // Scaling the part size.
  // ---------------------------------------------------------------

  function Scaled(size: int, target: int, maxParts: int): (p: int)
    requires size > 0 && 0 < target < U64_LIMIT && maxParts > 0
    ensures target <= p < U64_LIMIT
    decreases U64_LIMIT - target
  {
    if Fits(size, target, maxParts) || 2 * target >= U64_LIMIT then target
    else Scaled(size, 2 * target, maxParts)
  }

  /** The largest `target * 2^k` that a u64 holds. */
  function LargestDoubling(target: int): (p: int)
    requires 0 < target < U64_LIMIT
    ensures target <= p < U64_LIMIT
    decreases U64_LIMIT - target
  {
    if 2 * target >= U64_LIMIT then target else LargestDoubling(2 * target)
  }

  method ScalePartSize(size: u64, target: u64, maxParts: u64) returns (partSize: u64)
    requires size > 0 && target > 0 && maxParts > 0
    ensures partSize as int == Scaled(size as int, target as int, maxParts as int)
  {
    partSize := target;
    while !Fits(size as int, partSize as int, maxParts as int)
      invariant partSize > 0
      invariant Scaled(size as int, target as int, maxParts as int)
                  == Scaled(size as int, partSize as int, maxParts as int)
      decreases U64_LIMIT - partSize as int
    {
      if 2 * (partSize as int) < U64_LIMIT {
        partSize := partSize * 2;
      } else {
        return partSize;
      }
    }
  }

  /** The part count is the least number of parts that cover `size`. */
  lemma CountBracket(size: int, p: int)
    requires size > 0 && p > 0
    ensures DivCeil(size, p) >= 1 && (DivCeil(size, p) - 1) * p < size <= DivCeil(size, p) * p
  {
    assert size == p * (size / p) + size % p;
    assert (size / p + 1) * p == p * (size / p) + p;
    assert (size / p - 1) * p == p * (size / p) - p;
  }

  lemma MulMonotone(a: int, b: int, c: int)
    requires a <= b && c >= 0
    ensures a * c <= b * c && c * a <= c * b
  {
  }

  /** A plan fits exactly when the allowed parts cover the size. */
  lemma FitsIffCovers(size: int, p: int, maxParts: int)
    requires size > 0 && p > 0
    ensures Fits(size, p, maxParts) <==> size <= maxParts * p
  {
    CountBracket(size, p);
    var c := DivCeil(size, p);
    if c <= maxParts {
      MulMonotone(c, maxParts, p);
    } else {
      MulMonotone(maxParts, c - 1, p);
    }
  }

  lemma {:induction false} DoubledShift(target: int, k: nat)
    ensures Doubled(2 * target, k) == Doubled(target, k + 1)
  {
    if k > 0 {
      DoubledShift(target, k - 1);
    }
  }

  /**
   * The chosen part size is the target doubled the least number of times that fits; when
   * even the largest doubling a u64 holds does not fit, it is that one.
   */
  lemma {:induction false} ScaledIsLeastFit(size: int, target: int, maxParts: int) returns (k: nat)
    requires size > 0 && 0 < target < U64_LIMIT && maxParts > 0
    ensures Scaled(size, target, maxParts) == Doubled(target, k)
    ensures forall j: nat :: j < k ==> maxParts * Doubled(target, j) < size
    ensures size <= maxParts * Scaled(size, target, maxParts)
              || Scaled(size, target, maxParts) == LargestDoubling(target)
    decreases U64_LIMIT - target
  {
    FitsIffCovers(size, target, maxParts);
    if Fits(size, target, maxParts) || 2 * target >= U64_LIMIT {
      k := 0;
    } else {
      var k' := ScaledIsLeastFit(size, 2 * target, maxParts);
      k := k' + 1;
      DoubledShift(target, k');
      forall j: nat | j < k ensures maxParts * Doubled(target, j) < size {
        if j > 0 {
          DoubledShift(target, j - 1);
        }
      }
    }
  }

  lemma {:induction false} LargestDoublingBounds(target: int)
    requires 0 < target < U64_LIMIT
    ensures 2 * LargestDoubling(target) >= U64_LIMIT
    ensures LargestDoubling(target) == target || LargestDoubling(target) % 2 == 0
    ensures forall size, maxParts :: size > 0 && maxParts > 0 ==>
              Scaled(size, target, maxParts) <= LargestDoubling(target)
    decreases U64_LIMIT - target
  {
    if 2 * target < U64_LIMIT {
      LargestDoublingBounds(2 * target);
    }
  }

  /**
   * The planner's promise of at most `maxParts` parts holds exactly when the caller allows
   * two parts or the size is within the largest doubling of the target that a u64 holds.
   */
  lemma CountBoundIff(size: int, target: int, maxParts: int)
    requires 0 < size < U64_LIMIT && 0 < target < U64_LIMIT && maxParts > 0
    ensures Fits(size, Scaled(size, target, maxParts), maxParts) <==> maxParts >= 2 || size <= LargestDoubling(target)
  {
    var k := ScaledIsLeastFit(size, target, maxParts);
    LargestDoublingBounds(target);
    FitsIffCovers(size, Scaled(size, target, maxParts), maxParts);
    if maxParts >= 2 {
      MulMonotone(2, maxParts, LargestDoubling(target));
    }
  }

  /** With one allowed part the promise fails: the largest u64 is planned as two parts. */
  lemma OnePartCanBeExceeded()
    ensures !Fits(U64_LIMIT - 1, Scaled(U64_LIMIT - 1, MULTIPART_PUT_PART_SIZE, 1), 1)
  {
    LargestDoublingBounds(MULTIPART_PUT_PART_SIZE);
    CountBoundIff(U64_LIMIT - 1, MULTIPART_PUT_PART_SIZE, 1);
  }

  // ---------------------------------------------------------------
  // The plan.
  // ---------------------------------------------------------------

  /** The parts are non-empty, start at 0, touch end to start, and end at `size`. */
  ghost predicate Partitions(parts: seq<UploadPart>, size: int) {
    && (forall i :: 0 <= i < |parts| ==> parts[i].length > 0)
    && (parts != [] ==> parts[0].offset == 0)
    && (forall i, j :: 0 <= i && i + 1 == j < |parts| ==> parts[j].offset as int == End(parts[i]))
    && size == if parts == [] then 0 else End(parts[|parts| - 1])
  }

  function End(p: UploadPart): int {
    p.offset as int + p.length as int
  }

  /** Every part but the last has the planned size, and the last is no larger. */
  ghost predicate UniformBut(parts: seq<UploadPart>, partSize: int) {
    && (forall i :: 0 <= i < |parts| - 1 ==> parts[i].length as int == partSize)
    && (parts != [] ==> parts[|parts| - 1].length as int <= partSize)
  }

  /** The loop over the full parts. */
  method FullParts(fullParts: u64, partSize: u64, ghost total: int) returns (parts: seq<UploadPart>)
    requires partSize > 0 && fullParts as int * partSize as int == total < U64_LIMIT
    ensures |parts| == fullParts as int && Partitions(parts, total)
    ensures forall k :: 0 <= k < |parts| ==> parts[k].length == partSize
  {
    parts := [];
    var i: u64 := 0;
    while i < fullParts
      invariant i <= fullParts && |parts| == i as int
      invariant Partitions(parts, i as int * partSize as int)
      invariant forall k :: 0 <= k < |parts| ==> parts[k].length == partSize
    {
      MulMonotone(i as int + 1, fullParts as int, partSize as int);
      assert (i as int + 1) * partSize as int == i as int * partSize as int + partSize as int;
      PartitionsGrow(parts, i as int * partSize as int, UploadPart(i * partSize, partSize));
      parts := parts + [UploadPart(i * partSize, partSize)];
      i := i + 1;
    }
  }

  /** The layout of `size` bytes in parts of `partSize`. */
  method LayOut(size: u64, partSize: u64) returns (parts: seq<UploadPart>)
    requires size > 0 && partSize > 0
    ensures Partitions(parts, size as int) && UniformBut(parts, partSize as int)
    ensures |parts| == DivCeil(size as int, partSize as int)
  {
    var fullParts := size / partSize;
    var lastPart := size % partSize;
    CapacityDoesNotWrap(size as int, partSize as int);
    var partCount := fullParts + (if lastPart > 0 then 1 else 0);
    ghost var whole := size as int - lastPart as int;
    parts := FullParts(fullParts, partSize, whole);
    if lastPart > 0 {
      PartitionsGrow(parts, whole, UploadPart(fullParts * partSize, lastPart));
      parts := parts + [UploadPart(fullParts * partSize, lastPart)];
    }
    assert |parts| == partCount as int;
  }

  /** `plan_upload_parts`, on a target whose `usize` is 64 bits wide. */
  method PlanUploadParts(size: u64, target: u64, maxParts: u64) returns (parts: seq<UploadPart>)
    ensures size == 0 || target == 0 || maxParts == 0 ==> parts == []
    ensures size > 0 && target > 0 && maxParts > 0 ==>
              var p := Scaled(size as int, target as int, maxParts as int);
              && Partitions(parts, size as int)
              && UniformBut(parts, p)
              && |parts| == DivCeil(size as int, p)
  {
    if size == 0 || target == 0 || maxParts == 0 {
      return [];
    }
    var partSize := ScalePartSize(size, target, maxParts);
    parts := LayOut(size, partSize);
  }

  /** The capacity sum of the planner: a remainder needs parts of at least two bytes. */
  lemma CapacityDoesNotWrap(size: int, p: int)
    requires 0 < size < U64_LIMIT && p > 0
    ensures (size / p) * p == size - size % p
    ensures size % p > 0 ==> size / p + 1 < U64_LIMIT
  {
    if size % p > 0 {
      assert p >= 2;
      MulMonotone(2, p, size / p);
    }
  }

  lemma PartitionsGrow(parts: seq<UploadPart>, size: int, part: UploadPart)
    requires Partitions(parts, size) && part.offset as int == size && part.length > 0
    ensures Partitions(parts + [part], size + part.length as int)
  {
  }

  /** The protocol caps: with the caps in use the part count never exceeds them. */
  lemma CapsAreRespected(size: int, target: int, maxParts: int, parts: seq<UploadPart>)
    requires 0 < size < U64_LIMIT && 0 < target < U64_LIMIT && maxParts >= 2
    requires |parts| == DivCeil(size, Scaled(size, target, maxParts))
               && UniformBut(parts, Scaled(size, target, maxParts))
    ensures |parts| <= maxParts
    ensures forall i :: 0 <= i < |parts| - 1 ==> parts[i].length as int >= target
  {
    CountBoundIff(size, target, maxParts);
  }

  // ---------------------------------------------------------------
  // Bodies of parts.
  // ---------------------------------------------------------------

  /** `bodies` are the slices of `body` that the parts name. */
  ghost predicate Slices(parts: seq<UploadPart>, body: Bytes, bodies: seq<Bytes>) {
    && |bodies| == |parts|
    && (forall i :: 0 <= i < |parts| ==> End(parts[i]) <= |body| && bodies[i] == body[parts[i].offset .. End(parts[i])])
  }

  /** Laid end to end, the slices of a partition are the body. */
  lemma {:induction false} SlicesJoinToPrefix(parts: seq<UploadPart>, body: Bytes, bodies: seq<Bytes>, n: nat)
    requires Partitions(parts, |body|) && Slices(parts, body, bodies) && n <= |parts|
    ensures Joined(bodies[..n]) == body[.. if n == 0 then 0 else End(parts[n - 1])]
  {
    if n > 0 {
      SlicesJoinToPrefix(parts, body, bodies, n - 1);
      assert bodies[..n][..n - 1] == bodies[..n - 1];
      var start, end := parts[n - 1].offset as int, End(parts[n - 1]);
      assert body[..start] + body[start..end] == body[..end];
    }
  }

  lemma SlicesJoinToBody(parts: seq<UploadPart>, body: Bytes, bodies: seq<Bytes>)
    requires Partitions(parts, |body|) && Slices(parts, body, bodies)
    ensures Joined(bodies) == body
  {
    SlicesJoinToPrefix(parts, body, bodies, |parts|);
    assert bodies[..|parts|] == bodies && body[..|body|] == body;
  }

  /** The body cut into pieces of `p` bytes, the last one shorter. */
  function Chunks(body: Bytes, p: int): (pieces: seq<Bytes>)
    requires p > 0
  {
    if body == [] then []
    else if |body| <= p then [body]
    else [body[..p]] + Chunks(body[p..], p)
  }

  /** Where part `n` begins; past the last one, where the body ends. */
  function Start(parts: seq<UploadPart>, n: nat, size: int): int
    requires n <= |parts|
  {
    if n == |parts| then size else parts[n].offset as int
  }

  /** The slices of a uniform plan are the body cut into pieces of its part size. */
  lemma {:induction false} SlicesAreChunks(parts: seq<UploadPart>, body: Bytes, bodies: seq<Bytes>, p: int, n: nat)
    requires p > 0 && Partitions(parts, |body|) && UniformBut(parts, p) && Slices(parts, body, bodies) && n <= |parts|
    ensures 0 <= Start(parts, n, |body|) <= |body| && bodies[n..] == Chunks(body[Start(parts, n, |body|)..], p)
    decreases |parts| - n
  {
    if n < |parts| {
      SlicesAreChunks(parts, body, bodies, p, n + 1);
      var at, next := Start(parts, n, |body|), Start(parts, n + 1, |body|);
      assert next == at + parts[n].length as int && at <= next;
      assert bodies[n..] == [bodies[n]] + bodies[n + 1..];
      CutsOneChunk(body, at, next, p);
    }
  }

  /** A full piece is cut off the front of the rest, or the last piece is all of it. */
  lemma CutsOneChunk(body: Bytes, at: nat, next: nat, p: int)
    requires p > 0 && at < next <= |body| && (next - at == p || (next == |body| && next - at <= p))
    ensures Chunks(body[at..], p) == [body[at..next]] + Chunks(body[next..], p)
  {
    var rest := body[at..];
    assert rest[..next - at] == body[at..next] && rest[next - at..] == body[next..];
    if next == |body| {
      assert body[next..] == [] && rest == body[at..next];
    }
  }

  /** Parts of a partition stay inside the body. */
  lemma {:induction false} PartsStayInside(parts: seq<UploadPart>, size: int, i: nat)
    requires Partitions(parts, size) && i < |parts|
    ensures End(parts[i]) <= size
    decreases |parts| - i
  {
    if i < |parts| - 1 {
      PartsStayInside(parts, size, i + 1);
    }
  }

  /** `slice_bytes_part` for every part. */
  method SliceParts(body: Bytes, parts: seq<UploadPart>) returns (bodies: seq<Bytes>)
    requires Partitions(parts, |body|)
    ensures Slices(parts, body, bodies)
  {
    bodies := [];
    for i := 0 to |parts|
      invariant |bodies| == i
      invariant forall k :: 0 <= k < i ==>
                  End(parts[k]) <= |body| && bodies[k] == body[parts[k].offset .. End(parts[k])]
    {
      PartsStayInside(parts, |body|, i);
      bodies := bodies + [body[parts[i].offset .. End(parts[i])]];
    }
  }

  // ---------------------------------------------------------------
  // Positional read with short reads.
  // ---------------------------------------------------------------

  /** `seek_read`: any positive number of available bytes, or 0 when none is available or asked for. */
  method SeekRead(file: Bytes, buf: array<byte>, start: nat, offset: nat) returns (n: nat)
    requires start <= buf.Length
    modifies buf
    ensures n <= buf.Length - start
    ensures n == 0 <==> start == buf.Length || offset >= |file|
    ensures n > 0 ==> offset + n <= |file| && buf[start..start + n] == file[offset..offset + n]
    ensures forall i :: 0 <= i < buf.Length && !(start <= i < start + n) ==> buf[i] == old(buf[i])
  {
    n := 0;
    while start + n < buf.Length && offset + n < |file|
      invariant start + n <= buf.Length && (n > 0 ==> offset + n <= |file|)
      invariant forall i :: start <= i < start + n ==> buf[i] == file[offset + i - start]
      invariant forall i :: 0 <= i < buf.Length && !(start <= i < start + n) ==> buf[i] == old(buf[i])
    {
      buf[start + n] := file[offset + n];
      n := n + 1;
      var short: bool := *;
      if short {
        break;
      }
    }
    if n > 0 {
      ghost var read, wanted := buf[start..start + n], file[offset..offset + n];
      assert forall i :: 0 <= i < n ==> read[i] == wanted[i];
    }
  }

  datatype ReadError = UnexpectedEof | ReadFailed

  /**
   * `pread_exact` over `seek_read`, each of whose reads may fail. Short reads do not show:
   * unless a read fails, the buffer is filled exactly when the file has the bytes.
   */
  method PreadExact(file: Bytes, buf: array<byte>, offset: nat) returns (error: Option<ReadError>)
    modifies buf
    ensures error == None && buf.Length > 0 ==>
              offset + buf.Length <= |file| && buf[..] == file[offset..offset + buf.Length]
    ensures error == Some(UnexpectedEof) ==> buf.Length > 0 && offset + buf.Length > |file|
    ensures error != Some(ReadFailed) ==> (error == None <==> buf.Length == 0 || offset + buf.Length <= |file|)
  {
    var filled: nat := 0;
    while filled < buf.Length
      invariant filled <= buf.Length && (filled > 0 ==> offset + filled <= |file|)
      invariant filled > 0 ==> buf[..filled] == file[offset..offset + filled]
    {
      ghost var before := buf[..filled];
      var readFails: bool := *;
      if readFails {
        return Some(ReadFailed);
      }
      var n := SeekRead(file, buf, filled, offset + filled);
      if n == 0 {
        return Some(UnexpectedEof);
      }
      assert buf[..filled] == before;
      assert buf[..filled + n] == buf[..filled] + buf[filled..filled + n];
      assert file[offset..offset + filled + n]
          == (if filled > 0 then file[offset..offset + filled] else []) + file[offset + filled..offset + filled + n];
      filled := filled + n;
    }
    return None;
  }

  /** The file has the bytes of the part. */
  predicate Holds(file: Bytes, part: UploadPart) {
    part.length == 0 || End(part) <= |file|
  }

  /** The bytes of a part of the file, if it has them. */
  function PartOfFile(file: Bytes, part: UploadPart): Bytes {
    if part.length > 0 && Holds(file, part) then file[part.offset..End(part)] else []
  }

  /** `read_file_part`: the bytes of the part, or why they could not be read. */
  method ReadFilePart(file: Bytes, part: UploadPart) returns (error: Option<ReadError>, body: Bytes)
    ensures error == None ==> Holds(file, part) && body == PartOfFile(file, part)
    ensures error == Some(UnexpectedEof) ==> !Holds(file, part)
    ensures error != Some(ReadFailed) ==> (error == None <==> Holds(file, part))
  {
    var buf := new byte[part.length as int];
    error := PreadExact(file, buf, part.offset as nat);
    body := buf[..];
  }
}
