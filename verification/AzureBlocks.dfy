// Staging blocks in any completion order and committing them in part order
// (src/object_store/azure.rs).
module AzureBlocks {
  import opened Base
  import opened Multipart

  // ---------------------------------------------------------------
  // Block ids: the part number in 32 zero-padded decimal digits.
  // ---------------------------------------------------------------

  type BlockId = string

  const ID_WIDTH := 32

  function Decimal(n: nat): (s: string)
    ensures s != []
  {
    if n < 10 then [DigitChar(n)] else Decimal(n / 10) + [DigitChar(n % 10)]
  }

  function DigitChar(d: nat): char
    requires d < 10
  {
    "0123456789"[d]
  }

  function DigitValue(c: char): nat {
    if '0' <= c <= '9' then c as nat - '0' as nat else 0
  }

  /** The number a digit string spells. */
  function Spelled(s: string): nat {
    if s == [] then 0 else 10 * Spelled(s[..|s| - 1]) + DigitValue(s[|s| - 1])
  }

  function Zeros(n: nat): (s: string)
    ensures |s| == n
  {
    if n == 0 then [] else Zeros(n - 1) + ['0']
  }

  /** `format!("{:032}", idx + 1)`. */
  function BlockIdFor(idx: nat): BlockId {
    var digits := Decimal(idx + 1);
    if |digits| < ID_WIDTH then Zeros(ID_WIDTH - |digits|) + digits else digits
  }

  function Pow10(k: nat): nat {
    if k == 0 then 1 else 10 * Pow10(k - 1)
  }

  lemma {:induction false} SpelledDecimal(n: nat)
    ensures Spelled(Decimal(n)) == n
  {
    if n >= 10 {
      SpelledDecimal(n / 10);
      assert Decimal(n)[..|Decimal(n)| - 1] == Decimal(n / 10);
    }
  }

  lemma {:induction false} SpelledPadded(z: nat, s: string)
    ensures Spelled(Zeros(z) + s) == Spelled(s)
  {
    if s != [] {
      SpelledPadded(z, s[..|s| - 1]);
      assert (Zeros(z) + s)[..z + |s| - 1] == Zeros(z) + s[..|s| - 1];
    } else if z > 0 {
      SpelledPadded(z - 1, []);
      assert Zeros(z) + s == Zeros(z) && Zeros(z)[..z - 1] == Zeros(z - 1) == Zeros(z - 1) + [];
    }
  }

  lemma {:induction false} DecimalWidth(n: nat, k: nat)
    requires k > 0 && n < Pow10(k)
    ensures |Decimal(n)| <= k
  {
    if n >= 10 {
      DecimalWidth(n / 10, k - 1);
    }
  }

  lemma {:induction false} Pow10Grows(j: nat, k: nat)
    requires j <= k
    ensures Pow10(j) <= Pow10(k)
  {
    if j < k {
      Pow10Grows(j, k - 1);
    }
  }

  /** Every index a 64-bit `usize` can hold gets an id of exactly 32 characters. */
  lemma IdsHaveOneLength(idx: nat)
    requires idx < U64_LIMIT
    ensures |BlockIdFor(idx)| == ID_WIDTH
  {
    assert Pow10(5) == 100_000;
    assert Pow10(10) == 10_000_000_000;
    assert Pow10(15) == 1_000_000_000_000_000;
    assert Pow10(20) == 100_000_000_000_000_000_000;
    Pow10Grows(20, ID_WIDTH);
    DecimalWidth(idx + 1, ID_WIDTH);
  }

  /** Different parts never share an id. */
  lemma IdsAreInjective(i: nat, j: nat)
    requires BlockIdFor(i) == BlockIdFor(j)
    ensures i == j
  {
    SpelledBlockId(i);
    SpelledBlockId(j);
  }

  lemma SpelledBlockId(n: nat)
    ensures Spelled(BlockIdFor(n)) == n + 1
  {
    var d := Decimal(n + 1);
    SpelledDecimal(n + 1);
    if |d| < ID_WIDTH {
      SpelledPadded(ID_WIDTH - |d|, d);
    }
  }

  // ---------------------------------------------------------------
  // The blob.
  // ---------------------------------------------------------------

  function LookUp(ids: seq<BlockId>, blocks: map<BlockId, Bytes>): seq<Bytes>
    requires forall id :: id in ids ==> id in blocks
  {
    seq(|ids|, i requires 0 <= i < |ids| => assert ids[i] in ids; blocks[ids[i]])
  }

  /** The end of `join_staged_blocks`: the ids in slot order, or an error when a slot was never filled. */
  method CollectSlots(slots: seq<Option<BlockId>>) returns (ids: Option<seq<BlockId>>)
    ensures ids.Some? <==> forall i: nat :: i < |slots| ==> slots[i].Some?
    ensures ids.Some? ==> |ids.value| == |slots|
    ensures ids.Some? ==> forall i: nat :: i < |slots| ==> slots[i] == Some(ids.value[i])
  {
    var list := [];
    for i := 0 to |slots|
      invariant |list| == i && forall k: nat :: k < i ==> slots[k] == Some(list[k])
    {
      if slots[i].None? {
        return None;
      }
      list := list + [slots[i].value];
    }
    return Some(list);
  }

  /** What was asked of the service, and whether it reported success. */
  datatype Ask =
    | Stage(id: BlockId, body: Bytes, ok: bool)
    | CommitList(ids: seq<BlockId>, ok: bool)
    | Unread(id: BlockId, why: ReadError)   // not a request: the part could not be read
  {
    predicate Succeeded() {
      !Unread? && ok
    }
  }

  /** One block blob: its committed body and the blocks staged since. */
  class BlockBlob {
    var committed: Option<Bytes>
    var staged: map<BlockId, Bytes>
    ghost var log: seq<Ask>

    /** `stage_block`: on failure the block may or may not have arrived. */
    method StageBlock(id: BlockId, body: Bytes) returns (ok: bool)
      modifies this`staged, this`log
      ensures log == old(log) + [Stage(id, body, ok)]
      ensures ok ==> staged == old(staged)[id := body]
      ensures !ok ==> staged == old(staged) || staged == old(staged)[id := body]
    {
      ok := *;
      var arrives: bool := *;
      if ok || arrives {
        staged := staged[id := body];
      }
      log := log + [Stage(id, body, ok)];
    }

    /**
     * `commit_block_list`: refused when a listed block is missing; a reported failure may
     * still have taken effect. The service demands few enough blocks, with ids of one length.
     */
    method Commit(ids: seq<BlockId>) returns (ok: bool)
      requires |ids| <= AZURE_MAX_BLOCKS && forall id :: id in ids ==> |id| == ID_WIDTH
      modifies this
      ensures log == old(log) + [CommitList(ids, ok)]
      ensures ok ==> AllStaged(ids, old(staged)) && committed == Some(Joined(LookUp(ids, old(staged))))
      ensures committed != old(committed) ==>
                AllStaged(ids, old(staged)) && committed == Some(Joined(LookUp(ids, old(staged))))
    {
      ok := false;
      if AllStaged(ids, staged) {
        ok := *;
        var applied: bool := *;
        if ok || applied {
          committed := Some(Joined(LookUp(ids, staged)));
          staged := map[];
        }
      }
      log := log + [CommitList(ids, ok)];
    }

    /** Where the tasks stand: what was asked, what is staged, what has filled its slot, and what failed. */
    ghost predicate Running(tasks: seq<Task>, order: seq<nat>, was: seq<Ask>, pending: set<nat>,
                            finished: map<nat, bool>, failed: set<nat>, slots: seq<Option<BlockId>>)
      reads this
    {
      && Extends(was, log) && Ran(tasks, order, log, |was|) && OnRecord(|tasks|, order, log, |was|, pending, failed)
      && Accounted(|tasks|, pending, finished, failed)
      && SlotsFilled(tasks, pending, finished, slots) && BodiesStaged(tasks, pending, failed, staged)
    }

    /** One spawned task runs: it stages its block, once it has read it if it comes from a file. */
    method RunTask(tasks: seq<Task>, i: nat, ghost order: seq<nat>, ghost was: seq<Ask>, ghost pending: set<nat>,
                   ghost finished: map<nat, bool>, ghost failed: set<nat>, ghost slots: seq<Option<BlockId>>)
      returns (ok: bool)
      requires DistinctIds(tasks) && i in pending && i < |tasks|
                 && Running(tasks, order, was, pending, finished, failed, slots)
      modifies this`staged, this`log
      ensures Running(tasks, order + [i], was, pending - {i}, finished[i := ok],
                      if ok then failed else failed + {i}, slots)
    {
      ghost var before, asked := staged, log;
      ok := StageTask(tasks[i]);
      ghost var failed' := if ok then failed else failed + {i};
      TaskRan(tasks, i, ok, pending, finished, failed, failed', slots, before, staged);
      RanOneMore(tasks, order, was, asked, log, i, ok, pending, failed, failed');
    }

    /** The body of a task, from its bytes or through `read_file_part`. */
    method StageTask(task: Task) returns (ok: bool)
      modifies this`staged, this`log
      ensures |log| == |old(log)| + 1 && Extends(old(log), log)
      ensures StagesTask(task, log[|old(log)|]) && ok == log[|old(log)|].Succeeded()
      ensures ok ==> staged == old(staged)[task.id := Body(task)]
      ensures !ok ==> staged == old(staged) || staged == old(staged)[task.id := Body(task)]
    {
      match task.source
      case Given(bytes) => ok := StageBlock(task.id, bytes);
      case FromFile(file, part) =>
        var error, body := ReadFilePart(file, part);
        if error.Some? {
          log := log + [Unread(task.id, error.value)];
          return false;
        }
        ok := StageBlock(task.id, body);
    }

    /**
     * The tasks and the join loop. Each turn of the scheduler either lets some pending task
     * run, or joins some task that has run, in any order; the first failure joined ends the
     * loop. `slots` is filled in place at the index each task reports; `order` is the order
     * in which the tasks ran.
     */
    method RunAndJoin(tasks: seq<Task>) returns (ids: Option<seq<BlockId>>, ghost order: seq<nat>)
      requires DistinctIds(tasks)
      modifies this`staged, this`log
      ensures Extends(old(log), log) && Ran(tasks, order, log, |old(log)|)
      ensures ids.Some? <==> NoneFailed(log, |old(log)|)
      ensures ids.Some? ==> forall i: nat :: i < |tasks| ==> i in order
      ensures ids.Some? ==> AreStaged(tasks, ids.value, staged)
    {
      var slots := new Option<BlockId>[|tasks|](_ => None);
      var pending := Indices(|tasks|);
      var finished: map<nat, bool> := map[];
      ghost var failed: set<nat>, was := {}, log;
      order := [];
      while pending != {} || finished != map[]
        invariant Running(tasks, order, was, pending, finished, failed, slots[..])
        decreases pending, finished.Keys
      {
        var runNext: bool := *;
        if pending != {} && (runNext || finished == map[]) {
          var i: nat :| i in pending;
          var ok := RunTask(tasks, i, order, was, pending, finished, failed, slots[..]);
          order, failed := order + [i], if ok then failed else failed + {i};
          pending, finished := pending - {i}, finished[i := ok];
        } else {
          var i: nat :| i in finished;
          if !finished[i] {
            FailuresAreOnRecord(|tasks|, order, log, |was|, pending, failed);
            return None, order;
          }
          ghost var filled := slots[..];
          slots[i] := Some(tasks[i].id);
          TaskJoined(tasks, i, pending, finished, failed, filled, slots[..]);
          finished := finished - {i};
        }
      }
      FailuresAreOnRecord(|tasks|, order, log, |was|, pending, failed);
      ids := CollectSlots(slots[..]);
    }

    /** `stage_blocks_with_bodies`: one task a part, carrying the part's own id and body. */
    method StageBlocks(bodies: seq<Bytes>) returns (ids: Option<seq<BlockId>>, ghost order: seq<nat>)
      modifies this`staged, this`log
      ensures Extends(old(log), log) && Ran(TasksFor(bodies), order, log, |old(log)|)
      ensures ids.Some? <==> NoneFailed(log, |old(log)|)
      ensures ids.Some? ==> forall i: nat :: i < |bodies| ==> i in order
      ensures ids.Some? ==> AreStaged(TasksFor(bodies), ids.value, staged)
    {
      var tasks: seq<Task> := [];
      for i := 0 to |bodies|
        invariant |tasks| == i && forall k: nat :: k < i ==> tasks[k] == Task(BlockIdFor(k), Given(bodies[k]))
      {
        tasks := tasks + [Task(BlockIdFor(i), Given(bodies[i]))];
      }
      assert tasks == TasksFor(bodies);
      PartIdsDiffer(tasks);
      ids, order := RunAndJoin(tasks);
    }

    /** `stage_blocks_from_file`: one task a part, which reads the part before it stages it. */
    method StageBlocksFromFile(file: Bytes, parts: seq<UploadPart>)
      returns (ids: Option<seq<BlockId>>, ghost order: seq<nat>)
      modifies this`staged, this`log
      ensures Extends(old(log), log) && Ran(FileTasks(file, parts), order, log, |old(log)|)
      ensures ids.Some? <==> NoneFailed(log, |old(log)|)
      ensures ids.Some? ==> forall i: nat :: i < |parts| ==> i in order
      ensures ids.Some? ==> AreStaged(FileTasks(file, parts), ids.value, staged)
    {
      var tasks: seq<Task> := [];
      for i := 0 to |parts|
        invariant |tasks| == i && forall k: nat :: k < i ==> tasks[k] == Task(BlockIdFor(k), FromFile(file, parts[k]))
      {
        tasks := tasks + [Task(BlockIdFor(i), FromFile(file, parts[i]))];
      }
      assert tasks == FileTasks(file, parts);
      PartIdsDiffer(tasks);
      ids, order := RunAndJoin(tasks);
    }
  }

  /** The task of each part: its id and its bytes. */
  function TasksFor(bodies: seq<Bytes>): seq<Task> {
    seq(|bodies|, i requires 0 <= i < |bodies| => Task(BlockIdFor(i), Given(bodies[i])))
  }

  /** The task of each part of a file. */
  function FileTasks(file: Bytes, parts: seq<UploadPart>): seq<Task> {
    seq(|parts|, i requires 0 <= i < |parts| => Task(BlockIdFor(i), FromFile(file, parts[i])))
  }

  lemma PartIdsDiffer(tasks: seq<Task>)
    requires forall i: nat :: i < |tasks| ==> tasks[i].id == BlockIdFor(i)
    ensures DistinctIds(tasks)
  {
    forall i: nat, j: nat | i < |tasks| && j < |tasks| && i != j ensures ApartAt(tasks, i, j) {
      if tasks[i].id == tasks[j].id {
        IdsAreInjective(i, j);
      }
    }
  }

  /** The ids are the tasks' own, in order, and each holds the task's bytes. */
  ghost predicate AreStaged(tasks: seq<Task>, ids: seq<BlockId>, blocks: map<BlockId, Bytes>) {
    && |ids| == |tasks|
    && forall i: nat :: i < |tasks| ==> ids[i] == tasks[i].id && IsStaged(tasks[i], blocks)
  }

  predicate IsStaged(task: Task, blocks: map<BlockId, Bytes>) {
    Readable(task) && task.id in blocks && blocks[task.id] == Body(task)
  }

  predicate Extends(was: seq<Ask>, log: seq<Ask>) {
    |was| <= |log| && log[..|was|] == was
  }

  // ---------------------------------------------------------------
  // What was asked of the service.
  // ---------------------------------------------------------------

  /** The log from `from` on: the tasks of `order` were staged in that order, each once, with its own id and body. */
  ghost predicate Ran(tasks: seq<Task>, order: seq<nat>, log: seq<Ask>, from: nat) {
    && |log| == from + |order|
    && (forall n: nat :: n < |order| ==> order[n] < |tasks| && StagesTask(tasks[order[n]], log[from + n]))
    && (forall n: nat, m: nat :: n < m < |order| ==> order[n] != order[m])
  }

  /** The task asked for its own block with its own bytes, or it could not read them. */
  predicate StagesTask(task: Task, ask: Ask) {
    match ask
    case Stage(id, body, _) => id == task.id && Readable(task) && body == Body(task)
    case Unread(id, why) => id == task.id && task.source.FromFile? && (why == UnexpectedEof ==> !Readable(task))
    case CommitList(_, _) => false
  }

  predicate NoneFailed(log: seq<Ask>, from: nat) {
    forall n: nat :: from <= n < |log| ==> log[n].Succeeded()
  }

  /** The tasks that are not pending are those that ran, and the failed ones those whose staging failed. */
  ghost predicate OnRecord(count: nat, order: seq<nat>, log: seq<Ask>, from: nat, pending: set<nat>, failed: set<nat>) {
    && |log| == from + |order|
    && (forall i: nat :: i in order <==> i < count && i !in pending)
    && (forall n: nat :: n < |order| ==> (log[from + n].Succeeded() <==> order[n] !in failed))
    && (forall i: nat :: i in failed ==> i in order)
  }

  /** One task more ran. */
  lemma RanOneMore(tasks: seq<Task>, order: seq<nat>, was: seq<Ask>, log: seq<Ask>, log': seq<Ask>, i: nat, ok: bool,
                   pending: set<nat>, failed: set<nat>, failed': set<nat>)
    requires i in pending && i < |tasks|
    requires Extends(was, log) && Extends(log, log') && |log'| == |log| + 1
    requires StagesTask(tasks[i], log'[|log|]) && ok == log'[|log|].Succeeded()
    requires Ran(tasks, order, log, |was|) && OnRecord(|tasks|, order, log, |was|, pending, failed)
    requires failed' == if ok then failed else failed + {i}
    ensures Extends(was, log') && Ran(tasks, order + [i], log', |was|)
    ensures OnRecord(|tasks|, order + [i], log', |was|, pending - {i}, failed')
  {
    assert i !in order;
    forall n: nat | n < |order + [i]|
      ensures (order + [i])[n] < |tasks| && StagesTask(tasks[(order + [i])[n]], log'[|was| + n])
      ensures log'[|was| + n].Succeeded() <==> (order + [i])[n] !in failed'
    {
      if n < |order| {
        assert log'[|was| + n] == log'[..|log|][|was| + n];
        assert StagesTask(tasks[order[n]], log[|was| + n]) && order[n] in order;
      }
    }
  }

  lemma FailuresAreOnRecord(count: nat, order: seq<nat>, log: seq<Ask>, from: nat, pending: set<nat>, failed: set<nat>)
    requires OnRecord(count, order, log, from, pending, failed)
    ensures NoneFailed(log, from) <==> failed == {}
  {
    if i :| i in failed {
      var n: nat :| n < |order| && order[n] == i;
      assert !log[from + n].Succeeded();
    } else {
      forall n: nat | from <= n < |log| ensures log[n].Succeeded() {
        assert log[from + (n - from)].Succeeded() <==> order[n - from] !in failed;
      }
    }
  }

  predicate ApartAt(tasks: seq<Task>, i: nat, j: nat)
    requires i < |tasks| && j < |tasks|
  {
    tasks[i].id != tasks[j].id
  }

  ghost predicate DistinctIds(tasks: seq<Task>) {
    forall i: nat, j: nat {:trigger ApartAt(tasks, i, j)} :: i < |tasks| && j < |tasks| && i != j ==>
        ApartAt(tasks, i, j)
  }

  /** The pending, the finished and the failed tasks: a failure stays visible until it is joined. */
  ghost predicate Accounted(n: nat, pending: set<nat>, finished: map<nat, bool>, failed: set<nat>) {
    && (forall i: nat :: i in pending ==> i < n && i !in finished)
    && (forall i: nat :: i in finished ==> i < n && (!finished[i] <==> i in failed))
    && (forall i: nat :: i in failed ==> i in finished)
  }

  /** Every task already joined has put its id in its own slot. */
  ghost predicate SlotsFilled(tasks: seq<Task>, pending: set<nat>, finished: map<nat, bool>,
                              slots: seq<Option<BlockId>>)
  {
    && |slots| == |tasks|
    && forall i: nat :: i < |tasks| && i !in pending && i !in finished ==> slots[i] == Some(tasks[i].id)
  }

  /** The service holds the body of every task that ran and did not fail. */
  ghost predicate BodiesStaged(tasks: seq<Task>, pending: set<nat>, failed: set<nat>, blocks: map<BlockId, Bytes>) {
    forall i: nat :: i < |tasks| && i !in pending && i !in failed ==> IsStaged(tasks[i], blocks)
  }

  /** A task that runs overwrites no other task's block, and a failure of it is recorded. */
  lemma TaskRan(tasks: seq<Task>, i: nat, ok: bool, pending: set<nat>, finished: map<nat, bool>, failed: set<nat>,
                failed': set<nat>, slots: seq<Option<BlockId>>, before: map<BlockId, Bytes>, after: map<BlockId, Bytes>)
    requires DistinctIds(tasks) && i in pending
    requires Accounted(|tasks|, pending, finished, failed) && SlotsFilled(tasks, pending, finished, slots)
    requires BodiesStaged(tasks, pending, failed, before)
    requires failed' == if ok then failed else failed + {i}
    requires ok ==> Readable(tasks[i])
    requires after == before[tasks[i].id := Body(tasks[i])] || (!ok && after == before)
    ensures Accounted(|tasks|, pending - {i}, finished[i := ok], failed')
    ensures SlotsFilled(tasks, pending - {i}, finished[i := ok], slots)
    ensures BodiesStaged(tasks, pending - {i}, failed', after)
  {
    forall j: nat | j < |tasks| && j !in pending - {i} && j !in failed' ensures IsStaged(tasks[j], after) {
      if j != i {
        assert ApartAt(tasks, i, j) && IsStaged(tasks[j], before);
      }
    }
  }

  /** Joining a task that succeeded fills its slot and leaves the others. */
  lemma TaskJoined(tasks: seq<Task>, i: nat, pending: set<nat>, finished: map<nat, bool>, failed: set<nat>,
                   slots: seq<Option<BlockId>>, slots': seq<Option<BlockId>>)
    requires i in finished && finished[i]
    requires Accounted(|tasks|, pending, finished, failed) && SlotsFilled(tasks, pending, finished, slots)
    requires slots' == slots[i := Some(tasks[i].id)]
    ensures Accounted(|tasks|, pending, finished - {i}, failed)
    ensures SlotsFilled(tasks, pending, finished - {i}, slots')
  {
    var finished' := finished - {i};
    assert forall j: nat :: j in finished' <==> j in finished && j != i;
    assert forall j: nat :: j in finished' ==> finished'[j] == finished[j];
  }

  function Indices(n: nat): (s: set<nat>)
    ensures forall i: nat :: i in s <==> i < n
  {
    if n == 0 then {} else Indices(n - 1) + {n - 1}
  }

  predicate AllStaged(ids: seq<BlockId>, blocks: map<BlockId, Bytes>) {
    forall id | id in ids :: id in blocks
  }

  /** Where the bytes of a part come from: its closure has them, or reads them from the file. */
  datatype Source = Given(bytes: Bytes) | FromFile(file: Bytes, part: UploadPart)

  /** One spawned upload: the id and the source its closure captured. */
  datatype Task = Task(id: BlockId, source: Source)

  predicate Readable(task: Task) {
    task.source.FromFile? ==> Holds(task.source.file, task.source.part)
  }

  function Body(task: Task): Bytes {
    match task.source
    case Given(bytes) => bytes
    case FromFile(file, part) => PartOfFile(file, part)
  }

  datatype Outcome = Uploaded | StagingFailed | CommitFailed

  const AZURE_MAX_BLOCKS: nat := 50_000

  /** The ids of the parts, in part order. */
  function IdsOf(n: nat): seq<BlockId> {
    seq(n, i requires 0 <= i => BlockIdFor(i))
  }

  /**
   * What an upload asks of the service, from `from` on, and reports. It stages parts in some
   * order, none twice. After a failed one nothing is committed. Otherwise all were staged, and
   * then, as the last thing, the parts are committed in part order, with the answer as the
   * outcome.
   */
  ghost predicate Uploads(tasks: seq<Task>, order: seq<nat>, log: seq<Ask>, from: nat, outcome: Outcome) {
    if outcome == StagingFailed then
      Ran(tasks, order, log, from) && !NoneFailed(log, from)
    else
      && |log| > from && log[|log| - 1] == CommitList(IdsOf(|tasks|), outcome == Uploaded)
      && Ran(tasks, order, log[..|log| - 1], from) && NoneFailed(log[..|log| - 1], from)
      && forall i: nat :: i < |tasks| ==> i in order
  }

  /** The parts of an upload. */
  function PartsOf(body: Bytes): seq<Bytes>
    requires 0 < |body| < U64_LIMIT
  {
    Chunks(body, Scaled(|body|, MULTIPART_PUT_PART_SIZE, AZURE_MAX_BLOCKS))
  }

  /** The body cut as the planner says. */
  method CutBody(body: Bytes) returns (bodies: seq<Bytes>)
    requires 0 < |body| < U64_LIMIT
    ensures bodies == PartsOf(body) && Joined(bodies) == body && |bodies| <= AZURE_MAX_BLOCKS
  {
    var parts := PlanUploadParts(|body| as u64, MULTIPART_PUT_PART_SIZE as u64, AZURE_MAX_BLOCKS as u64);
    CapsAreRespected(|body|, MULTIPART_PUT_PART_SIZE, AZURE_MAX_BLOCKS, parts);
    bodies := SliceParts(body, parts);
    SlicesAreChunks(parts, body, bodies, Scaled(|body|, MULTIPART_PUT_PART_SIZE, AZURE_MAX_BLOCKS), 0);
    assert bodies[0..] == bodies && body[0..] == body;
    SlicesJoinToBody(parts, body, bodies);
  }

  lemma IdsFit(n: nat)
    requires n < U64_LIMIT
    ensures forall id :: id in IdsOf(n) ==> |id| == ID_WIDTH
  {
    forall id | id in IdsOf(n) ensures |id| == ID_WIDTH {
      var i: nat :| i < n && IdsOf(n)[i] == id;
      IdsHaveOneLength(i);
    }
  }

  /** What is committed of staged parts: their bytes end to end, in part order. */
  lemma StagedBodies(tasks: seq<Task>, ids: seq<BlockId>, blocks: map<BlockId, Bytes>, bodies: seq<Bytes>)
    requires AreStaged(tasks, ids, blocks) && |bodies| == |tasks| < U64_LIMIT
    requires forall i: nat :: i < |tasks| ==> tasks[i].id == BlockIdFor(i) && Body(tasks[i]) == bodies[i]
    ensures ids == IdsOf(|tasks|) && AllStaged(ids, blocks) && LookUp(ids, blocks) == bodies
    ensures forall id :: id in ids ==> |id| == ID_WIDTH
  {
    assert forall i: nat :: i < |tasks| ==> IsStaged(tasks[i], blocks);
    IdsFit(|tasks|);
  }

  lemma StagedParts(bodies: seq<Bytes>, ids: seq<BlockId>, blocks: map<BlockId, Bytes>)
    requires |bodies| < U64_LIMIT && AreStaged(TasksFor(bodies), ids, blocks)
    ensures ids == IdsOf(|bodies|) && AllStaged(ids, blocks) && LookUp(ids, blocks) == bodies
    ensures forall id :: id in ids ==> |id| == ID_WIDTH
  {
    StagedBodies(TasksFor(bodies), ids, blocks, bodies);
  }

  /** `multipart_put_bytes`: whatever the schedule, the committed object is the body or what it was. */
  method MultipartPutBytes(blob: BlockBlob, body: Bytes) returns (outcome: Outcome, ghost order: seq<nat>)
    requires 0 < |body| < U64_LIMIT
    modifies blob
    ensures Extends(old(blob.log), blob.log)
    ensures Uploads(TasksFor(PartsOf(body)), order, blob.log, |old(blob.log)|, outcome)
    ensures outcome == Uploaded ==> blob.committed == Some(body)
    ensures outcome == StagingFailed ==> blob.committed == old(blob.committed)
    ensures blob.committed == old(blob.committed) || blob.committed == Some(body)
  {
    var bodies := CutBody(body);
    var ids;
    ids, order := blob.StageBlocks(bodies);
    if ids.None? {
      outcome := StagingFailed;
      return;
    }
    StagedParts(bodies, ids.value, blob.staged);
    ghost var log := blob.log;
    var ok := blob.Commit(ids.value);
    outcome := if ok then Uploaded else CommitFailed;
    assert blob.log[..|blob.log| - 1] == log;
  }

  lemma SliceOfPrefix(file: Bytes, size: nat, a: nat, b: nat)
    requires a <= b <= size <= |file|
    ensures file[..size][a..b] == file[a..b]
  {
  }

  /** Parts that were all read are those of the first `size` bytes of the file. */
  lemma ReadPartsAreFile(file: Bytes, parts: seq<UploadPart>, size: nat, bodies: seq<Bytes>)
    requires parts != [] && Partitions(parts, size) && |bodies| == |parts|
    requires forall i: nat :: i < |parts| ==> Holds(file, parts[i]) && bodies[i] == PartOfFile(file, parts[i])
    ensures size <= |file| && Joined(bodies) == file[..size]
  {
    var n := |parts| - 1;
    assert Holds(file, parts[n]);
    var body := file[..size];
    forall i | 0 <= i < |parts| ensures End(parts[i]) <= |body| && bodies[i] == body[parts[i].offset .. End(parts[i])] {
      PartsStayInside(parts, size, i);
      assert Holds(file, parts[i]) && bodies[i] == PartOfFile(file, parts[i]);
      SliceOfPrefix(file, size, parts[i].offset as nat, End(parts[i]));
    }
    SlicesJoinToBody(parts, body, bodies);
  }

  /** So a file all of whose parts are staged is the file that gets committed. */
  lemma StagedFile(file: Bytes, parts: seq<UploadPart>, size: nat, ids: seq<BlockId>, blocks: map<BlockId, Bytes>)
    requires parts != [] && |parts| < U64_LIMIT && Partitions(parts, size)
    requires AreStaged(FileTasks(file, parts), ids, blocks)
    ensures ids == IdsOf(|parts|) && AllStaged(ids, blocks) && forall id :: id in ids ==> |id| == ID_WIDTH
    ensures size <= |file| && Joined(LookUp(ids, blocks)) == file[..size]
  {
    var tasks := FileTasks(file, parts);
    var bodies := seq(|parts|, i requires 0 <= i < |parts| => PartOfFile(file, parts[i]));
    StagedBodies(tasks, ids, blocks, bodies);
    forall i: nat | i < |parts| ensures Holds(file, parts[i]) {
      assert tasks[i].source == FromFile(file, parts[i]) && IsStaged(tasks[i], blocks);
    }
    ReadPartsAreFile(file, parts, size, bodies);
  }

  /**
   * `multipart_put_path`: `file` is the open file, `size` what its metadata said. The committed
   * object is the first `size` bytes, or what it was; a file that has become shorter uploads
   * nothing.
   */
  method MultipartPutPath(blob: BlockBlob, file: Bytes, size: nat)
    returns (outcome: Outcome, ghost order: seq<nat>, ghost parts: seq<UploadPart>)
    requires 0 < size < U64_LIMIT
    modifies blob
    ensures Partitions(parts, size) && UniformBut(parts, Scaled(size, MULTIPART_PUT_PART_SIZE, AZURE_MAX_BLOCKS))
    ensures Extends(old(blob.log), blob.log)
    ensures Uploads(FileTasks(file, parts), order, blob.log, |old(blob.log)|, outcome)
    ensures size > |file| ==> outcome == StagingFailed
    ensures outcome == Uploaded ==> blob.committed == Some(file[..size])
    ensures outcome == StagingFailed ==> blob.committed == old(blob.committed)
    ensures blob.committed == old(blob.committed) || (size <= |file| && blob.committed == Some(file[..size]))
  {
    var plan := PlanUploadParts(size as u64, MULTIPART_PUT_PART_SIZE as u64, AZURE_MAX_BLOCKS as u64);
    CapsAreRespected(size, MULTIPART_PUT_PART_SIZE, AZURE_MAX_BLOCKS, plan);
    parts := plan;
    var ids;
    ids, order := blob.StageBlocksFromFile(file, plan);
    if ids.None? {
      outcome := StagingFailed;
      return;
    }
    StagedFile(file, plan, size, ids.value, blob.staged);
    ghost var log := blob.log;
    var ok := blob.Commit(ids.value);
    outcome := if ok then Uploaded else CommitFailed;
    assert blob.log[..|blob.log| - 1] == log;
  }
}
