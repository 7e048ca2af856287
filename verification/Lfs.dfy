// The git-lfs transfer agent: its event loop (src/lfs/run.rs) and the progress channel of one
// transfer (src/lfs/agent.rs).
module Lfs {
  import opened Base
  import opened Multipart

  const U64_MAX: nat := U64_LIMIT - 1

  /** What git-lfs sends, one event a line. */
  datatype Request = Init(remote: string) | Upload(oid: string, path: string) | Download(oid: string) | Terminate

  /** What the agent answers. */
  datatype Reply =
    | InitAck(error: bool)
    | Progress(oid: string, bytesSoFar: u64, bytesSinceLast: u64)
    | Complete(oid: string, path: Option<string>, error: bool)

  datatype RunError = StdinClosed | MalformedEvent | InitNotFirst | Io

  /** `LfsOid::from_str`: 64 lower-case hex digits. */
  predicate IsOid(s: string) {
    |s| == 64 && forall i :: 0 <= i < 64 ==> '0' <= s[i] <= '9' || 'a' <= s[i] <= 'f'
  }

  // ---------------------------------------------------------------
  // Progress.
  // ---------------------------------------------------------------

  function SaturatingAdd(a: u64, b: u64): u64 {
    if a as int + b as int <= U64_MAX then (a as int + b as int) as u64 else U64_MAX as u64
  }

  /** The progress events for these reports: one for each positive report, with the running total. */
  function ProgressOf(oid: string, sofar: u64, reports: seq<u64>): seq<Reply>
    decreases |reports|
  {
    if reports == [] then []
    else if reports[0] == 0 then ProgressOf(oid, sofar, reports[1..])
    else
      var total := SaturatingAdd(sofar, reports[0]);
      [Progress(oid, total, reports[0])] + ProgressOf(oid, total, reports[1..])
  }

  function Sum(reports: seq<u64>): nat {
    if reports == [] then 0 else reports[0] as nat + Sum(reports[1..])
  }

  /** What one transfer reports, and how it ends. */
  datatype Operation = Operation(reports: seq<u64>, path: Option<string>, failed: bool)

  class Output {
    var replies: seq<Reply>

    constructor ()
      ensures replies == []
    {
      replies := [];
    }

    /** `write_event`: a failed write may have gone out. */
    method WriteEvent(reply: Reply) returns (ok: bool)
      modifies this
      ensures ok ==> replies == old(replies) + [reply]
      ensures !ok ==> replies == old(replies) || replies == old(replies) + [reply]
    {
      ok := *;
      var sent: bool := *;
      if ok || sent {
        replies := replies + [reply];
      }
    }
  }

  /** One turn of the channel: a zero report is dropped, any other is announced. `rest` is what is yet to come. */
  method Announce(out: Output, oid: string, sofar: u64, amount: u64, ghost rest: seq<u64>)
    returns (ok: bool, sofar': u64)
    modifies out
    ensures old(out.replies) <= out.replies
    ensures ok ==>
              out.replies + ProgressOf(oid, sofar', rest) == old(out.replies) + ProgressOf(oid, sofar, [amount] + rest)
    ensures !ok ==> out.replies <= old(out.replies) + ProgressOf(oid, sofar, [amount] + rest)
  {
    ok, sofar' := true, sofar;
    if amount != 0 {
      sofar' := SaturatingAdd(sofar, amount);
      ok := out.WriteEvent(Progress(oid, sofar', amount));
    }
    assert ([amount] + rest)[1..] == rest;
  }

  lemma SomeArrive(channel: seq<u64>, unsent: seq<u64>, n: nat)
    requires n <= |unsent|
    ensures channel + unsent == channel + unsent[..n] + unsent[n..]
  {
    assert unsent == unsent[..n] + unsent[n..];
    Associates(channel, unsent[..n], unsent[n..]);
  }

  lemma FirstOfBoth(channel: seq<u64>, unsent: seq<u64>)
    requires channel != []
    ensures channel + unsent == [channel[0]] + (channel[1..] + unsent)
  {
    assert channel == [channel[0]] + channel[1..];
    Associates([channel[0]], channel[1..], unsent);
  }

  /**
   * `with_progress_stream`. Reports reach the channel at any time, the channel is drained
   * before the operation is polled, and drained again once the operation has returned: every
   * schedule announces the same events.
   */
  method WithProgressStream(out: Output, oid: string, op: Operation) returns (ok: bool)
    modifies out
    ensures ok ==> out.replies == old(out.replies) + ProgressOf(oid, 0, op.reports)
    ensures !ok ==> old(out.replies) <= out.replies <= old(out.replies) + ProgressOf(oid, 0, op.reports)
  {
    var channel: seq<u64>, unsent: seq<u64> := [], op.reports;
    var sofar: u64 := 0;
    ghost var all := old(out.replies) + ProgressOf(oid, 0, op.reports);
    assert channel + unsent == op.reports;
    while true
      invariant out.replies + ProgressOf(oid, sofar, channel + unsent) == all
      invariant old(out.replies) <= out.replies
      decreases |unsent| + |unsent| + |channel|
    {
      var arrived: int := *;
      if 0 <= arrived <= |unsent| {
        SomeArrive(channel, unsent, arrived);
        channel, unsent := channel + unsent[..arrived], unsent[arrived..];
      }
      if channel != [] {
        FirstOfBoth(channel, unsent);
        ok, sofar := Announce(out, oid, sofar, channel[0], channel[1..] + unsent);
        if !ok {
          return;
        }
        channel := channel[1..];
      } else {
        var done: bool := *;
        if done || unsent == [] {
          assert channel + unsent == unsent;
          channel, unsent := unsent, [];
          break;
        }
        assert channel + unsent == [unsent[0]] + unsent[1..];
        channel, unsent := [unsent[0]], unsent[1..];
      }
    }
    while channel != []
      invariant out.replies + ProgressOf(oid, sofar, channel) == all
      invariant old(out.replies) <= out.replies
    {
      assert channel == [channel[0]] + channel[1..];
      ok, sofar := Announce(out, oid, sofar, channel[0], channel[1..]);
      if !ok {
        return;
      }
      channel := channel[1..];
    }
    ok := true;
  }

  // ---------------------------------------------------------------
  // Transfers.
  // ---------------------------------------------------------------

  predicate IsTransfer(request: Request) {
    request.Upload? || request.Download?
  }

  /** Everything answered to one transfer: its progress and one complete event, or a refusal. */
  function Answer(request: Request, op: Operation): seq<Reply>
    requires IsTransfer(request)
  {
    if !IsOid(request.oid) then [Complete(request.oid, None, true)]
    else
      var path := if request.Upload? || op.failed then None else op.path;
      ProgressOf(request.oid, 0, op.reports) + [Complete(request.oid, path, op.failed)]
  }

  function Answers(requests: seq<Request>, ops: seq<Operation>): seq<Reply>
    requires |requests| == |ops| && forall i :: 0 <= i < |requests| ==> IsTransfer(requests[i])
  {
    if requests == [] then []
    else
      var n := |requests| - 1;
      Answers(requests[..n], ops[..n]) + Answer(requests[n], ops[n])
  }

  /** `upload` and `download`, behind `validate_oid`. `op` is what the store did. */
  method Serve(out: Output, request: Request, op: Operation) returns (ok: bool)
    requires IsTransfer(request)
    modifies out
    ensures ok ==> out.replies == old(out.replies) + Answer(request, op)
    ensures GoneOut(old(out.replies), out.replies, Answer(request, op))
  {
    if !IsOid(request.oid) {
      ok := out.WriteEvent(Complete(request.oid, None, true));
      return;
    }
    ok := WithProgressStream(out, request.oid, op);
    if !ok {
      return;
    }
    match request
    case Upload(oid, _) =>
      ok := out.WriteEvent(Complete(oid, None, op.failed));
    case Download(oid) =>
      ok := out.WriteEvent(Complete(oid, if op.failed then None else op.path, op.failed));
  }

  // ---------------------------------------------------------------
  // The event loop.
  // ---------------------------------------------------------------

  /** The transfers asked for before `terminate` or the end of the input; None is a malformed line. */
  function Transfers(lines: seq<Option<Request>>): (transfers: seq<Request>)
    ensures forall i :: 0 <= i < |transfers| ==> IsTransfer(transfers[i])
  {
    if lines == [] || lines[0].None? || lines[0].value.Terminate? then []
    else if lines[0].value.Init? then Transfers(lines[1..])
    else [lines[0].value] + Transfers(lines[1..])
  }

  /** No malformed line before `terminate`. */
  predicate WellFormed(lines: seq<Option<Request>>) {
    lines == [] || (lines[0].Some? && (lines[0].value.Terminate? || WellFormed(lines[1..])))
  }

  datatype RunResult = Finished | Failed(error: RunError)

  /** How a run ends when reading and writing work: by the first line that is no use, or at the end. */
  function Ends(lines: seq<Option<Request>>, resolves: bool): RunResult {
    if lines == [] then Failed(StdinClosed)
    else
      match lines[0]
      case None => Failed(MalformedEvent)
      case Some(Terminate) => Finished
      case Some(Init(_)) =>
        if !InitWorks(lines[0].value, resolves) || WellFormed(lines[1..]) then Finished else Failed(MalformedEvent)
      case Some(_) => Failed(InitNotFirst)
  }

  /** What a run answers, given what the store did for each transfer it got to. */
  function Transcript(lines: seq<Option<Request>>, resolves: bool, ops: seq<Operation>): seq<Reply>
    requires |ops| <= |Asked(lines, resolves)|
  {
    if lines == [] || lines[0].None? || !lines[0].value.Init? then []
    else if !InitWorks(lines[0].value, resolves) then [InitAck(true)]
    else [InitAck(false)] + Answers(Asked(lines, resolves)[..|ops|], ops)
  }

  /** The transfers that a run is asked for: those after a successful init. */
  function Asked(lines: seq<Option<Request>>, resolves: bool): (transfers: seq<Request>)
    ensures forall i :: 0 <= i < |transfers| ==> IsTransfer(transfers[i])
  {
    if lines != [] && lines[0].Some? && lines[0].value.Init? && InitWorks(lines[0].value, resolves)
    then Transfers(lines[1..])
    else []
  }

  /**
   * `run`. `resolves` is what resolving the remote comes to; `ops` is what the store did for
   * each transfer. Unless reading or writing fails, the input decides how the run ends, and everything
   * asked for is answered: one acknowledgement, then each transfer in input order. If either fails, a
   * prefix of the answers has gone out.
   */
  method Run(lines: seq<Option<Request>>, out: Output, resolves: bool) returns (r: RunResult, ghost ops: seq<Operation>)
    requires out.replies == []
    modifies out
    ensures r == Ends(lines, resolves) || r == Failed(Io)
    ensures |ops| <= |Asked(lines, resolves)| && out.replies <= Transcript(lines, resolves, ops)
    ensures r != Failed(Io) ==> |ops| == |Asked(lines, resolves)| && out.replies == Transcript(lines, resolves, ops)
    ensures r != Failed(Io) && lines != [] && lines[0].Some? && lines[0].value.Init? ==>
              out.replies != [] && out.replies[0] == InitAck(lines[0].value.remote == "" || !resolves)
  {
    ops := [];
    var readFails: bool := *;
    if readFails {
      return Failed(Io), ops;
    }
    if lines == [] {
      return Failed(StdinClosed), ops;
    }
    if lines[0].None? {
      return Failed(MalformedEvent), ops;
    }
    match lines[0].value {
      case Terminate => return Finished, ops;
      case Init(_) =>
      case _ => return Failed(InitNotFirst), ops;
    }
    var acked := out.WriteEvent(InitAck(!InitWorks(lines[0].value, resolves)));
    if !acked {
      return Failed(Io), ops;
    }
    if !InitWorks(lines[0].value, resolves) {
      return Finished, ops;
    }
    ghost var served;
    r, served, ops := ServeAll(lines[1..], out);
    TranscriptIs(lines, resolves, served, ops);
  }

  lemma TranscriptIs(lines: seq<Option<Request>>, resolves: bool, served: seq<Request>, ops: seq<Operation>)
    requires lines != [] && lines[0].Some? && lines[0].value.Init? && InitWorks(lines[0].value, resolves)
    requires |served| == |ops| && served <= Asked(lines, resolves)
    ensures forall i :: 0 <= i < |served| ==> IsTransfer(served[i])
    ensures Transcript(lines, resolves, ops) == [InitAck(false)] + Answers(served, ops)
  {
    assert served == Asked(lines, resolves)[..|ops|];
  }

  predicate InitWorks(init: Request, resolves: bool)
    requires init.Init?
  {
    init.remote != "" && resolves
  }

  /** The loop of `run` after the acknowledgement; `served` are the transfers it got to. */
  method ServeAll(lines: seq<Option<Request>>, out: Output)
    returns (r: RunResult, ghost served: seq<Request>, ghost ops: seq<Operation>)
    modifies out
    ensures r == (if WellFormed(lines) then Finished else Failed(MalformedEvent)) || r == Failed(Io)
    ensures served <= Transfers(lines) && |ops| == |served|
    ensures forall i :: 0 <= i < |served| ==> IsTransfer(served[i])
    ensures GoneOut(old(out.replies), out.replies, Answers(served, ops))
    ensures r != Failed(Io) ==> served == Transfers(lines) && out.replies == old(out.replies) + Answers(served, ops)
  {
    served, ops := [], [];
    var n := 0;
    while n < |lines|
      invariant ServedTo(lines, n, served, ops, old(out.replies), out.replies)
    {
      AllGoneOut(old(out.replies), Answers(served, ops));
      PrefixServed(lines, n, served, ops, old(out.replies), out.replies);
      var readFails: bool := *;
      if readFails {
        return Failed(Io), served, ops;
      }
      StopsHere(lines, n, served, ops, old(out.replies), out.replies);
      if lines[n].None? {
        return Failed(MalformedEvent), served, ops;
      }
      var request := lines[n].value;
      if request.Terminate? {
        return Finished, served, ops;
      }
      if IsTransfer(request) {
        var op: Operation := *;
        ghost var now := out.replies;
        var ok := Serve(out, request, op);
        TransferServed(lines, n, served, ops, old(out.replies), now, op);
        GoneOutFurther(old(out.replies), Answers(served, ops), out.replies, Answer(request, op));
        served, ops := served + [request], ops + [op];
        if !ok {
          return Failed(Io), served, ops;
        }
      } else {
        InitIgnored(lines, n, served, ops, old(out.replies), out.replies);
      }
      n := n + 1;
    }
    StopsHere(lines, n, served, ops, old(out.replies), out.replies);
    AllGoneOut(old(out.replies), Answers(served, ops));
    r := Finished;
  }

  /** The first `n` lines were gone through: their transfers are served, and answered. */
  ghost predicate ServedTo(lines: seq<Option<Request>>, n: nat, served: seq<Request>, ops: seq<Operation>,
                           before: seq<Reply>, now: seq<Reply>)
  {
    && n <= |lines| && |served| == |ops| && (forall i :: 0 <= i < |served| ==> IsTransfer(served[i]))
    && served + Transfers(lines[n..]) == Transfers(lines) && (WellFormed(lines[n..]) <==> WellFormed(lines))
    && now == before + Answers(served, ops)
  }

  lemma PrefixServed(lines: seq<Option<Request>>, n: nat, served: seq<Request>, ops: seq<Operation>,
                     before: seq<Reply>, now: seq<Reply>)
    requires ServedTo(lines, n, served, ops, before, now)
    ensures served <= Transfers(lines)
  {
    assert served <= served + Transfers(lines[n..]);
  }

  /** At a malformed line, at `terminate` or at the end, everything asked for was served. */
  lemma StopsHere(lines: seq<Option<Request>>, n: nat, served: seq<Request>, ops: seq<Operation>, before: seq<Reply>,
                  now: seq<Reply>)
    requires ServedTo(lines, n, served, ops, before, now)
    ensures n == |lines| || lines[n].None? || lines[n].value.Terminate? ==>
              served == Transfers(lines) && (WellFormed(lines) <==> n == |lines| || lines[n].Some?)
  {
    if n < |lines| {
      assert lines[n..][0] == lines[n];
    }
    assert served + [] == served;
  }

  lemma InitIgnored(lines: seq<Option<Request>>, n: nat, served: seq<Request>, ops: seq<Operation>, before: seq<Reply>,
                    now: seq<Reply>)
    requires ServedTo(lines, n, served, ops, before, now) && n < |lines| && lines[n].Some? && lines[n].value.Init?
    ensures ServedTo(lines, n + 1, served, ops, before, now)
  {
    assert lines[n..][0] == lines[n] && lines[n..][1..] == lines[n + 1..];
  }

  lemma TransferServed(lines: seq<Option<Request>>, n: nat, served: seq<Request>, ops: seq<Operation>,
                       before: seq<Reply>, now: seq<Reply>, op: Operation)
    requires ServedTo(lines, n, served, ops, before, now) && n < |lines| && lines[n].Some? && IsTransfer(lines[n].value)
    ensures ServedTo(lines, n + 1, served + [lines[n].value], ops + [op], before, now + Answer(lines[n].value, op))
    ensures Answers(served + [lines[n].value], ops + [op]) == Answers(served, ops) + Answer(lines[n].value, op)
    ensures served + [lines[n].value] <= Transfers(lines)
  {
    var request := lines[n].value;
    assert lines[n..][0] == lines[n] && lines[n..][1..] == lines[n + 1..];
    assert served + Transfers(lines[n..]) == served + [request] + Transfers(lines[n + 1..]);
    AnswersGrow(served, ops, request, op);
    assert now + Answer(request, op) == before + (Answers(served, ops) + Answer(request, op));
    assert served + [request] <= served + [request] + Transfers(lines[n + 1..]);
  }

  /** Some of these replies went out, from the first one on. */
  predicate GoneOut(before: seq<Reply>, now: seq<Reply>, replies: seq<Reply>) {
    before <= now <= before + replies
  }

  lemma AllGoneOut(before: seq<Reply>, replies: seq<Reply>)
    ensures GoneOut(before, before + replies, replies)
  {
  }

  /** All of the first replies, and some of the rest. */
  lemma GoneOutFurther(before: seq<Reply>, first: seq<Reply>, now: seq<Reply>, rest: seq<Reply>)
    requires GoneOut(before + first, now, rest)
    ensures GoneOut(before, now, first + rest)
  {
    assert before + first + rest == before + (first + rest);
  }

  lemma AnswersGrow(requests: seq<Request>, ops: seq<Operation>, request: Request, op: Operation)
    requires |requests| == |ops| && IsTransfer(request) && forall i :: 0 <= i < |requests| ==> IsTransfer(requests[i])
    ensures Answers(requests + [request], ops + [op]) == Answers(requests, ops) + Answer(request, op)
  {
    assert (requests + [request])[..|requests|] == requests && (ops + [op])[..|ops|] == ops;
  }

  // ---------------------------------------------------------------
  // What the answers look like.
  // ---------------------------------------------------------------

  /** Zero or more progress events and then the one complete event, all of this oid. */
  predicate IsTranscript(chunk: seq<Reply>, oid: string) {
    && chunk != [] && chunk[|chunk| - 1].Complete? && chunk[|chunk| - 1].oid == oid
    && forall i :: 0 <= i < |chunk| - 1 ==> chunk[i].Progress? && chunk[i].oid == oid
  }

  function Capped(n: nat): u64 {
    if n <= U64_MAX then n as u64 else U64_MAX as u64
  }

  function Positive(reports: seq<u64>): seq<u64> {
    if reports == [] then []
    else if reports[0] == 0 then Positive(reports[1..])
    else [reports[0]] + Positive(reports[1..])
  }

  lemma {:induction false} SumOfPositive(reports: seq<u64>)
    ensures Sum(Positive(reports)) == Sum(reports)
  {
    if reports != [] {
      SumOfPositive(reports[1..]);
      if reports[0] != 0 {
        assert Positive(reports)[1..] == Positive(reports[1..]);
      }
    }
  }

  /** The n-th progress event carries the n-th positive report and the capped sum up to it. */
  lemma {:induction false} ProgressIsRunningSum(oid: string, base: nat, reports: seq<u64>, n: nat)
    requires n < |Positive(reports)|
    ensures |ProgressOf(oid, Capped(base), reports)| == |Positive(reports)|
    ensures ProgressOf(oid, Capped(base), reports)[n]
              == Progress(oid, Capped(base + Sum(Positive(reports)[..n + 1])), Positive(reports)[n])
    decreases |reports|
  {
    ProgressCount(oid, Capped(base), reports);
    if reports[0] == 0 {
      ProgressIsRunningSum(oid, base, reports[1..], n);
    } else {
      var rest := Positive(reports[1..]);
      assert SaturatingAdd(Capped(base), reports[0]) == Capped(base + reports[0] as nat);
      assert Positive(reports)[..n + 1][1..] == rest[..n];
      if n > 0 {
        ProgressIsRunningSum(oid, base + reports[0] as nat, reports[1..], n - 1);
      }
    }
  }

  lemma {:induction false} ProgressCount(oid: string, sofar: u64, reports: seq<u64>)
    ensures |ProgressOf(oid, sofar, reports)| == |Positive(reports)|
    ensures forall i :: 0 <= i < |ProgressOf(oid, sofar, reports)| ==>
              ProgressOf(oid, sofar, reports)[i].Progress? && ProgressOf(oid, sofar, reports)[i].oid == oid
    decreases |reports|
  {
    if reports != [] {
      ProgressCount(oid, if reports[0] == 0 then sofar else SaturatingAdd(sofar, reports[0]), reports[1..]);
    }
  }

  /** Every answer is a transcript of its own request. */
  lemma AnswerIsTranscript(request: Request, op: Operation)
    requires IsTransfer(request)
    ensures IsTranscript(Answer(request, op), request.oid)
  {
    ProgressCount(request.oid, 0, op.reports);
  }

  /** How an answer ends: an error exactly for a malformed oid or a failure, a path only from a download that worked. */
  lemma AnswerTellsOutcome(request: Request, op: Operation)
    requires IsTransfer(request)
    ensures var end := Answer(request, op)[|Answer(request, op)| - 1];
            && end.Complete? && (end.error <==> !IsOid(request.oid) || op.failed)
            && (end.path == if request.Download? && !end.error then op.path else None)
    ensures !IsOid(request.oid) ==> |Answer(request, op)| == 1
    ensures IsOid(request.oid) ==> |Answer(request, op)| == |Positive(op.reports)| + 1
  {
    ProgressCount(request.oid, 0, op.reports);
  }

  /** Nothing but `terminate` and malformed lines stops what is asked for. */
  lemma {:induction false} TransfersGoOn(lines: seq<Option<Request>>, n: nat)
    requires n <= |lines| && forall i :: 0 <= i < n ==> lines[i].Some? && !lines[i].value.Terminate?
    ensures Transfers(lines) == Transfers(lines[..n]) + Transfers(lines[n..])
  {
    if n == 0 {
      assert lines[..0] == [] && lines[0..] == lines;
    } else {
      var first := if IsTransfer(lines[0].value) then [lines[0].value] else [];
      var init, rest := lines[..n], lines[1..];
      TransfersGoOn(rest, n - 1);
      assert rest[..n - 1] == init[1..] && rest[n - 1..] == lines[n..];
      assert Transfers(lines) == first + Transfers(rest) && Transfers(init) == first + Transfers(init[1..]);
      Associates(first, Transfers(init[1..]), Transfers(lines[n..]));
    }
  }

  /** Both of these stop all of it, and a line by itself asks for what it says. */
  lemma TransfersStop(line: Option<Request>, rest: seq<Option<Request>>)
    ensures line.None? || line.value.Terminate? ==> Transfers([line] + rest) == []
    ensures Transfers([line]) == if line.Some? && IsTransfer(line.value) then [line.value] else []
  {
    assert [line][1..] == [];
  }

  /** An input is well formed exactly when `terminate` comes before every malformed line. */
  lemma {:induction false} WellFormedIff(lines: seq<Option<Request>>)
    ensures WellFormed(lines) <==>
              forall i :: 0 <= i < |lines| && lines[i].None? ==> TerminatedBefore(lines, i)
  {
    if lines != [] && lines[0].Some? && !lines[0].value.Terminate? {
      WellFormedIff(lines[1..]);
      assert forall i :: 0 < i < |lines| ==> lines[i] == lines[1..][i - 1];
      forall i | 0 < i < |lines| ensures TerminatedBefore(lines, i) <==> TerminatedBefore(lines[1..], i - 1) {
        if j :| 0 <= j < i && lines[j] == Some(Terminate) {
          assert lines[1..][j - 1] == Some(Terminate);
        }
        if j :| 0 <= j < i - 1 && lines[1..][j] == Some(Terminate) {
          assert lines[j + 1] == Some(Terminate);
        }
      }
    }
  }

  predicate TerminatedBefore(lines: seq<Option<Request>>, i: int)
    requires i <= |lines|
  {
    exists j :: 0 <= j < i && lines[j] == Some(Terminate)
  }

  /** The last progress event of a transfer carries the capped sum of all its reports. */
  lemma LastProgressIsTotal(oid: string, reports: seq<u64>)
    requires ProgressOf(oid, 0, reports) != []
    ensures var last := ProgressOf(oid, 0, reports)[|ProgressOf(oid, 0, reports)| - 1];
            last.Progress? && last.bytesSoFar == Capped(Sum(reports))
  {
    ProgressCount(oid, 0, reports);
    var p := Positive(reports);
    ProgressIsRunningSum(oid, 0, reports, |p| - 1);
    assert p[..|p|] == p;
    SumOfPositive(reports);
  }
}
