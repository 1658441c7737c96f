/** Copying a response to disk, verifying it against its digest, and falling through the mirrors. */
module Download {
  import opened Common
  import opened Disk
  import opened Manifests
  import opened Mirrors

  const PROGRESS_INTERVAL: nat := 200 * 1024
  const BUFFER: nat := 64 * 1024

  datatype End = More | Eof | Broken(error: Error)

  /** One turn of the copy loop: what the context says first, then what the read returns. */
  datatype Chunk = Chunk(stopped: Option<Error>, data: Bytes, end: End)

  /** The server's answer to one request. A body whose chunks run out has ended. */
  datatype Response = NoResponse(error: Error) | Body(chunks: seq<Chunk>, length: int)

  /** The directory apart from the part file and the destination. */
  ghost predicate SameElsewhere(job: Job, before: Files, after: Files) {
    forall path | path != job.target && path != job.Part() ::
      (path in before <==> path in after) && (path in before ==> before[path] == after[path])
  }

  ghost predicate Placed(job: Job, before: Files, after: Files, content: Bytes) {
    SameElsewhere(job, before, after) && job.Part() !in after && job.target in after && after[job.target] == content
  }

  ghost predicate NotPlaced(job: Job, before: Files, after: Files) {
    SameElsewhere(job, before, after) &&
    (job.target in after ==> job.target in before && after[job.target] == before[job.target])
  }

  /** Why a whole answer is turned down, when the disk does not get in the way first. */
  function Refusal(job: Job, response: Response): Option<Error> {
    match response
    case NoResponse(error) => Some(error)
    case Body(chunks, _) =>
      if Interruption(chunks).Some? then Interruption(chunks)
      else if !job.Genuine(Delivered(chunks)) then Some(ChecksumMismatch)
      else None
  }

  /** The server delivered the whole package the manifest attests to. */
  predicate Served(job: Job, response: Response) {
    response.Body? && Refusal(job, response) == None
  }

  ghost predicate FitsBuffer(chunks: seq<Chunk>) {
    forall chunk | chunk in chunks :: |chunk.data| <= BUFFER
  }

  /** The bytes a reader sees from turn `from` up to the end of the body. */
  function Delivered(chunks: seq<Chunk>, from: nat := 0): Bytes
    requires from <= |chunks|
    decreases |chunks| - from
  {
    if from == |chunks| then []
    else if chunks[from].end.More? then chunks[from].data + Delivered(chunks, from + 1)
    else chunks[from].data
  }

  /** The failure a reader meets from turn `from` on before the end of the body, if any. */
  function Interruption(chunks: seq<Chunk>, from: nat := 0): Option<Error>
    requires from <= |chunks|
    decreases |chunks| - from
  {
    if from == |chunks| then None
    else if chunks[from].stopped.Some? then chunks[from].stopped
    else match chunks[from].end
      case More => Interruption(chunks, from + 1)
      case Eof => None
      case Broken(error) => Some(error)
  }

  // ---- The turns of a body, one by one -----------------------------------------------------------

  /** A turn the loop goes on from. */
  predicate ReadsOn(chunk: Chunk) {
    chunk.stopped.None? && chunk.end.More?
  }

  /** At turn k, and not before, the context has ended with this error or the read is broken with it. */
  ghost predicate BreaksAt(chunks: seq<Chunk>, k: nat, error: Error) {
    k < |chunks| && (forall j | 0 <= j < k :: ReadsOn(chunks[j])) &&
    (chunks[k].stopped == Some(error) || (chunks[k].stopped.None? && chunks[k].end == Broken(error)))
  }

  ghost predicate BreaksWith(chunks: seq<Chunk>, error: Error) {
    exists k: nat :: BreaksAt(chunks, k, error)
  }

  /** The body is over after n turns: the last of them met its end, or the chunks ran out. */
  ghost predicate EndsAfter(chunks: seq<Chunk>, n: nat) {
    n <= |chunks| &&
    if n == |chunks| && forall j | 0 <= j < n :: ReadsOn(chunks[j]) then true
    else n > 0 && (forall j | 0 <= j < n - 1 :: ReadsOn(chunks[j])) && chunks[n - 1].stopped.None? && chunks[n - 1].end.Eof?
  }

  /** The data of these turns, one after another. */
  function Gathered(chunks: seq<Chunk>): Bytes {
    if chunks == [] then [] else Gathered(chunks[..|chunks| - 1]) + chunks[|chunks| - 1].data
  }

  lemma {:induction false} GatherOneMore(chunks: seq<Chunk>, n: nat)
    requires n < |chunks|
    ensures Gathered(chunks[..n + 1]) == Gathered(chunks[..n]) + chunks[n].data
  {
    assert chunks[..n + 1][..n] == chunks[..n];
  }

  lemma {:induction false} InterruptionBreaks(chunks: seq<Chunk>, from: nat, error: Error)
    requires from <= |chunks| && forall j | 0 <= j < from :: ReadsOn(chunks[j])
    ensures Interruption(chunks, from) == Some(error) <==> BreaksWith(chunks, error)
    decreases |chunks| - from
  {
    if from < |chunks| && ReadsOn(chunks[from]) {
      InterruptionBreaks(chunks, from + 1, error);
    } else {
      if Interruption(chunks, from) == Some(error) {
        assert BreaksAt(chunks, from, error);
      }
      if k: nat :| BreaksAt(chunks, k, error) {
        assert k == from;
      }
    }
  }

  /** Without an interruption the body ends, and what a reader saw is the data up to there. */
  lemma {:induction false} DeliveredEnds(chunks: seq<Chunk>, from: nat) returns (n: nat)
    requires from <= |chunks| && forall j | 0 <= j < from :: ReadsOn(chunks[j])
    requires Interruption(chunks, from).None?
    ensures EndsAfter(chunks, n) && Gathered(chunks[..from]) + Delivered(chunks, from) == Gathered(chunks[..n])
    decreases |chunks| - from
  {
    if from == |chunks| {
      n := from;
    } else {
      GatherOneMore(chunks, from);
      if chunks[from].end.More? {
        n := DeliveredEnds(chunks, from + 1);
      } else {
        n := from + 1;
      }
    }
  }

  lemma {:induction false} EndIsNoInterruption(chunks: seq<Chunk>, from: nat, n: nat)
    requires from <= |chunks| && (forall j | 0 <= j < from :: ReadsOn(chunks[j])) && EndsAfter(chunks, n)
    ensures Interruption(chunks, from).None?
    decreases |chunks| - from
  {
    if from < |chunks| && ReadsOn(chunks[from]) {
      EndIsNoInterruption(chunks, from + 1, n);
    }
  }

  lemma OneEnd(chunks: seq<Chunk>, n: nat, m: nat)
    requires EndsAfter(chunks, n) && EndsAfter(chunks, m)
    ensures n == m
  {
  }

  /** How copying a body comes out: without a fault of the disk it fails exactly as the body breaks, and it succeeds
      exactly when the body ends, with all the data up to there. */
  ghost predicate CopiedAs(chunks: seq<Chunk>, faultless: bool, failure: Option<Error>, digested: Bytes) {
    (faultless ==> forall error :: failure == Some(error) <==> BreaksWith(chunks, error)) &&
    (faultless ==> (failure.None? <==> exists n: nat :: EndsAfter(chunks, n))) &&
    (failure.None? ==> exists n: nat :: EndsAfter(chunks, n) && digested == Gathered(chunks[..n]))
  }

  lemma CopiedAsRead(chunks: seq<Chunk>, faultless: bool, failure: Option<Error>, digested: Bytes)
    requires faultless ==> failure == Interruption(chunks)
    requires failure.None? ==> Interruption(chunks).None? && digested == Delivered(chunks)
    ensures CopiedAs(chunks, faultless, failure, digested)
  {
    forall error ensures Interruption(chunks) == Some(error) <==> BreaksWith(chunks, error) {
      InterruptionBreaks(chunks, 0, error);
    }
    if Interruption(chunks).None? {
      var n := DeliveredEnds(chunks, 0);
      assert Gathered(chunks[..0]) + Delivered(chunks) == Delivered(chunks);
    }
    forall n: nat | EndsAfter(chunks, n) ensures Interruption(chunks).None? {
      EndIsNoInterruption(chunks, 0, n);
    }
  }

  /** An answer serves the package exactly when its body ends and has the wanted digest; it is turned down with the
      error that broke it, if any, and for its digest when it ends otherwise. */
  lemma AnswersDecide(job: Job, response: Response, error: Error)
    ensures Served(job, response) <==>
            response.Body? && exists n: nat :: EndsAfter(response.chunks, n) && job.Genuine(Gathered(response.chunks[..n]))
    ensures Refusal(job, response) == Some(error) <==>
            response == NoResponse(error) ||
            (response.Body? &&
             (BreaksWith(response.chunks, error) ||
              (error == ChecksumMismatch &&
               exists n: nat :: EndsAfter(response.chunks, n) && !job.Genuine(Gathered(response.chunks[..n])))))
  {
    hide Lower, EndsAfter, Gathered;
    if response.Body? {
      var chunks := response.chunks;
      CopiedAsRead(chunks, true, Interruption(chunks), Delivered(chunks));
      forall n: nat, m: nat | EndsAfter(chunks, n) && EndsAfter(chunks, m) ensures n == m {
        OneEnd(chunks, n, m);
      }
    }
  }

  /** Equal but for the case of hexadecimal letters. */
  ghost predicate SameDigest(a: string, b: string) {
    |a| == |b| &&
    forall i | 0 <= i < |a| ::
      a[i] == b[i] || ('A' <= b[i] <= 'F' && a[i] as int == b[i] as int + 32) ||
      ('A' <= a[i] <= 'F' && b[i] as int == a[i] as int + 32)
  }

  /** A digest in lower case, as hexadecimal encoding yields it, is the wanted one but for case. */
  lemma GenuineIgnoresCase(job: Job, content: Bytes)
    requires forall c | c in job.hash(content) :: !('A' <= c <= 'F')
    ensures job.Genuine(content) <==> SameDigest(job.hash(content), job.want)
  {
    var digest := job.hash(content);
    assert forall i | 0 <= i < |digest| :: digest[i] in digest;
  }

  // ---- What a download may do to the directory ---------------------------------------------------

  /** One package to fetch: where it goes, the digest it must have, and the record that must survive it. */
  datatype Job = Job(hash: Bytes -> string, memory: string, target: string, want: string) {
    function Part(): (part: string)
      ensures part != target
    {
      assert |target + ".part"| != |target|;
      target + ".part"
    }

    predicate Genuine(content: Bytes) { hash(content) == Lower(want) }
  }

  /** Hexadecimal digests compare without regard to case. */
  function Lower(digest: string): string {
    seq(|digest|, i requires 0 <= i < |digest| =>
      if 'A' <= digest[i] <= 'F' then (digest[i] as int + 32) as char else digest[i])
  }

  /** How far an attempt is: nothing under way, a part file open and the bytes its digest was fed, or a package put
      in place. */
  datatype Attempt = Idle | Copying(fed: Bytes) | Arrived(content: Bytes)

  ghost predicate Opens(job: Job, before: Files, at: Attempt, after: Files, next: Attempt) {
    at.Idle? && after == before[job.Part() := []] && next == Copying([])
  }

  /** A write that fails may have written some of its data; then the attempt is over. */
  ghost predicate Feeds(job: Job, before: Files, at: Attempt, after: Files, next: Attempt) {
    var part := job.Part();
    at.Copying? && part in before && part in after && after == before[part := after[part]] && before[part] <= after[part] &&
    (next == Idle || next == Copying(at.fed + after[part][|before[part]|..]))
  }

  /** The part file goes over the destination once the digest of what it was fed is the wanted one. */
  ghost predicate Places(job: Job, before: Files, at: Attempt, after: Files, next: Attempt) {
    var part, target := job.Part(), job.target;
    at.Copying? && job.Genuine(at.fed) &&
    ((after == before - {target} && next == at) ||
     (part in before && after == before[target := before[part]] - {part} && next == Arrived(at.fed)))
  }

  ghost predicate Drops(job: Job, before: Files, at: Attempt, after: Files, next: Attempt) {
    (after == before - {job.Part()} || after == before) && next == if at.Arrived? then at else Idle
  }

  /** Everything else in the directory may be swept away before an attempt. */
  ghost predicate SweepStep(job: Job, before: Files, after: Files) {
    after == before - (before.Keys - after.Keys) && job.target !in before.Keys - after.Keys &&
    job.memory !in before.Keys - after.Keys
  }

  /** One operation of a fetch on the directory, or none. */
  ghost predicate FetchStep(job: Job, before: Files, at: Attempt, after: Files, next: Attempt) {
    || (after == before && next == at)
    || Opens(job, before, at, after, next)
    || Feeds(job, before, at, after, next)
    || Places(job, before, at, after, next)
    || Drops(job, before, at, after, next)
    || (at.Idle? && next.Idle? && SweepStep(job, before, after))
  }

  /** From position `from` on, every state of the trace follows from the one before by one such operation, and the
      attempts they belong to end at `at`. */
  ghost predicate Reaches(job: Job, trace: seq<Files>, from: nat, at: Attempt)
    decreases |trace|
  {
    0 < from <= |trace| &&
    if |trace| == from then at == Idle
    else exists before :: LastStep(job, trace, before, at) && Reaches(job, trace[..|trace| - 1], from, before)
  }

  ghost predicate LastStep(job: Job, trace: seq<Files>, before: Attempt, at: Attempt)
    requires |trace| >= 2
  {
    FetchStep(job, trace[|trace| - 2], before, trace[|trace| - 1], at)
  }

  lemma ReachesOneMore(job: Job, trace: seq<Files>, from: nat, at: Attempt, files: Files, next: Attempt)
    requires Reaches(job, trace, from, at) && FetchStep(job, trace[|trace| - 1], at, files, next)
    ensures Reaches(job, trace + [files], from, next)
  {
    assert (trace + [files])[..|trace|] == trace;
    assert LastStep(job, trace + [files], at, next);
  }

  /** Two stretches make one: what begins where nothing is under way can follow what ended there. */
  lemma {:induction false} ReachesOn(job: Job, trace: seq<Files>, from: nat, more: seq<Files>, at: Attempt)
    requires Reaches(job, trace, from, Idle) && Reaches(job, more, |trace|, at) && trace <= more
    ensures Reaches(job, more, from, at)
    decreases |more|
  {
    if more != trace {
      var before :| LastStep(job, more, before, at) && Reaches(job, more[..|more| - 1], |trace|, before);
      ReachesOn(job, trace, from, more[..|more| - 1], before);
    }
  }

  /** What the part file holds is what the digest was fed, and what was put in place has the wanted digest. */
  lemma {:induction false} PartHoldsWhatWasFed(job: Job, trace: seq<Files>, from: nat, at: Attempt)
    requires Reaches(job, trace, from, at)
    ensures Holds(job, trace[|trace| - 1], at)
    decreases |trace|
  {
    if |trace| > from {
      var before :| LastStep(job, trace, before, at) && Reaches(job, trace[..|trace| - 1], from, before);
      PartHoldsWhatWasFed(job, trace[..|trace| - 1], from, before);
      FetchStepHolds(job, trace[|trace| - 2], before, trace[|trace| - 1], at);
    }
  }

  ghost predicate Holds(job: Job, files: Files, at: Attempt) {
    (at.Copying? ==> job.Part() in files && files[job.Part()] == at.fed) && (at.Arrived? ==> job.Genuine(at.content))
  }

  lemma FetchStepHolds(job: Job, before: Files, at: Attempt, after: Files, next: Attempt)
    requires Holds(job, before, at) && FetchStep(job, before, at, after, next)
    ensures Holds(job, after, next)
  {
  }

  /** The destination as seen at any moment: what it held before, nothing, or genuine bytes; the record and
      everything else is at most removed, never altered. */
  ghost predicate Safe(job: Job, before: Files, now: Files) {
    (job.target in now ==> (job.target in before && now[job.target] == before[job.target]) || job.Genuine(now[job.target])) &&
    (forall path | path in now && path != job.target && path != job.Part() :: path in before && now[path] == before[path]) &&
    (job.memory != job.Part() && job.memory in before ==> job.memory in now)
  }

  lemma StepIsSafe(job: Job, first: Files, before: Files, at: Attempt, after: Files, next: Attempt)
    requires Safe(job, first, before) && Holds(job, before, at) && FetchStep(job, before, at, after, next)
    requires job.memory != job.target
    ensures Safe(job, first, after)
  {
  }

  /** Wherever a run is stopped, the directory is safe. */
  lemma {:induction false} SafeAtEveryPoint(job: Job, trace: seq<Files>, from: nat, at: Attempt, k: nat)
    requires Reaches(job, trace, from, at) && from - 1 <= k < |trace| && job.memory != job.target
    ensures Safe(job, trace[from - 1], trace[k])
    decreases |trace|
  {
    if |trace| > from {
      var before :| LastStep(job, trace, before, at) && Reaches(job, trace[..|trace| - 1], from, before);
      if k == |trace| - 1 {
        SafeAtEveryPoint(job, trace[..|trace| - 1], from, before, k - 1);
        PartHoldsWhatWasFed(job, trace[..|trace| - 1], from, before);
        StepIsSafe(job, trace[from - 1], trace[k - 1], before, trace[k], at);
      } else {
        SafeAtEveryPoint(job, trace[..|trace| - 1], from, before, k);
      }
    }
  }

  // ---- The copy loop -----------------------------------------------------------------------------

  /** Reports of `total` that never go backwards and never pass `done`. */
  ghost predicate Rising(reports: seq<(nat, int)>, done: nat, total: int) {
    reports != [] ==>
      var last := reports[|reports| - 1];
      last.0 <= done && last.1 == total && Rising(reports[..|reports| - 1], last.0, total)
  }

  /** The reports made so far, one per interval, and the bytes they stand for: each interval took at least 200 KiB
      and overshot by less than one buffer. */
  ghost predicate Told(reporting: bool, reports: seq<(nat, int)>, since: nat, done: nat, total: int) {
    Rising(reports, done, total) &&
    if reporting
    then |reports| * 204800 + since <= done <= |reports| * 270335 + since && since < PROGRESS_INTERVAL
    else reports == []
  }

  /** Accounts for `read` more bytes and reports them once an interval is full. */
  method Account(reporting: bool, done: nat, sinceReport: nat, reports: seq<(nat, int)>, total: int, read: nat)
    returns (sum: nat, since: nat, told: seq<(nat, int)>)
    requires read <= BUFFER && Told(reporting, reports, sinceReport, done, total)
    ensures sum == done + read && Told(reporting, told, since, sum, total)
  {
    sum, since, told := done + read, sinceReport + read, reports;
    RisingReports(reports, done, total);
    if reporting && since >= PROGRESS_INTERVAL {
      since := 0;
      told := told + [(sum, total)];
      assert told[..|told| - 1] == reports;
    }
  }

  lemma {:induction false} RisingReports(reports: seq<(nat, int)>, done: nat, total: int)
    requires Rising(reports, done, total)
    ensures forall i, j | 0 <= i <= j < |reports| :: reports[i].0 <= reports[j].0 <= done
    ensures forall i | 0 <= i < |reports| :: reports[i].1 == total
  {
    if reports != [] {
      RisingReports(reports[..|reports| - 1], reports[|reports| - 1].0, total);
    }
  }

  function TurnFailure(chunk: Chunk): Option<Error> {
    if chunk.stopped.Some? then chunk.stopped
    else if chunk.end.Broken? then Some(chunk.end.error)
    else None
  }

  /** One turn: ask the context, read, and write what was read to the file first and then to the digest. */
  method CopyTurn(disk: FileSystem, job: Job, chunk: Chunk, fed: Bytes, ghost start: nat)
    returns (failure: Option<Error>, digested: Bytes)
    requires disk.Valid() && job.Part() in disk.files && Reaches(job, disk.trace, start, Copying(fed))
    modifies disk
    ensures disk.Valid() && job.Part() in disk.files && disk.files == old(disk.files)[job.Part() := disk.files[job.Part()]]
    ensures old(disk.trace) <= disk.trace && disk.faults >= old(disk.faults)
    ensures disk.faults == old(disk.faults) ==>
              failure == TurnFailure(chunk) && Reaches(job, disk.trace, start, Copying(digested)) &&
              if chunk.stopped.Some? then digested == fed && disk.files == old(disk.files)
              else digested == fed + chunk.data && disk.files[job.Part()] == old(disk.files[job.Part()]) + chunk.data
    ensures disk.faults > old(disk.faults) ==>
              failure == Some(Fault("write failed")) && digested == fed && Reaches(job, disk.trace, start, Idle)
  {
    hide Reaches;
    failure, digested := chunk.stopped, fed;
    if failure.Some? {
      return;
    }
    if |chunk.data| > 0 {
      var ok := disk.Append(job.Part(), chunk.data);
      digested := if ok then fed + chunk.data else fed;
      ReachesOneMore(job, old(disk.trace), start, Copying(fed), disk.files, if ok then Copying(digested) else Idle);
      if !ok {
        return Some(Fault("write failed")), fed;
      }
    }
    failure := TurnFailure(chunk);
  }

  /** Before this turn the loop has read on throughout, and `digested` is what it has read. */
  ghost predicate Midway(chunks: seq<Chunk>, turn: nat, digested: Bytes) {
    turn <= |chunks| && Interruption(chunks) == Interruption(chunks, turn) &&
    Delivered(chunks) == digested + Delivered(chunks, turn)
  }

  lemma OneTurn(chunks: seq<Chunk>, turn: nat, digested: Bytes)
    requires Midway(chunks, turn, digested)
    ensures turn == |chunks| ==> Interruption(chunks) == None && digested == Delivered(chunks)
    ensures turn < |chunks| && TurnFailure(chunks[turn]).Some? ==> Interruption(chunks) == TurnFailure(chunks[turn])
    ensures turn < |chunks| && TurnFailure(chunks[turn]).None? ==>
              if chunks[turn].end.Eof?
              then Interruption(chunks) == None && digested + chunks[turn].data == Delivered(chunks)
              else Midway(chunks, turn + 1, digested + chunks[turn].data)
  {
  }

  /** `digested` is what the hash was fed; `intervals` are the reports made before the closing one. */
  method CopyWithProgress(disk: FileSystem, job: Job, chunks: seq<Chunk>, total: int, reporting: bool,
                          ghost start: nat)
    returns (done: nat, failure: Option<Error>, digested: Bytes, reports: seq<(nat, int)>,
             ghost intervals: seq<(nat, int)>, ghost since: nat)
    requires disk.Valid() && job.Part() in disk.files && FitsBuffer(chunks) && Reaches(job, disk.trace, start, Copying([]))
    modifies disk
    ensures disk.Valid() && job.Part() in disk.files && disk.files == old(disk.files)[job.Part() := disk.files[job.Part()]]
    ensures old(disk.trace) <= disk.trace && disk.faults >= old(disk.faults)
    ensures Reaches(job, disk.trace, start, Copying(digested)) || (failure.Some? && Reaches(job, disk.trace, start, Idle))
    ensures failure.None? ==>
              Interruption(chunks) == None && digested == Delivered(chunks) && done == |digested| &&
              disk.files[job.Part()] == old(disk.files[job.Part()]) + digested
    ensures failure.Some? ==>
              failure == Interruption(chunks) || (disk.faults > old(disk.faults) && !IsCanceled(failure.value))
    ensures CopiedAs(chunks, disk.faults == old(disk.faults), failure, digested)
    ensures Told(reporting, intervals, since, done, total)
    ensures reports == intervals + if reporting && failure.None? then [(done, total)] else []
  {
    hide Reaches, Told, Rising, CopiedAs, Interruption, Delivered, Midway, IsCanceled;
    NoFaultIsCancel();
    done, digested, reports, failure := 0, [], [], None;
    var sinceReport: nat := 0;
    var turn := 0;
    var ended := false;
    NothingTold(reporting, total);
    NothingRead(chunks);
    while !ended
      invariant turn <= |chunks| && disk.Valid() && job.Part() in disk.files
      invariant disk.files == old(disk.files)[job.Part() := disk.files[job.Part()]]
      invariant old(disk.trace) <= disk.trace && disk.faults >= old(disk.faults)
      invariant Reaches(job, disk.trace, start, Copying(digested)) || (failure.Some? && Reaches(job, disk.trace, start, Idle))
      invariant failure.None? ==> disk.files[job.Part()] == old(disk.files[job.Part()]) + digested
      invariant done == |digested|
      invariant !ended ==> failure.None? && Midway(chunks, turn, digested)
      invariant ended && failure.None? ==> Interruption(chunks) == None && digested == Delivered(chunks)
      invariant failure.Some? ==>
                  failure == Interruption(chunks) || (disk.faults > old(disk.faults) && !IsCanceled(failure.value))
      invariant Told(reporting, reports, sinceReport, done, total)
      decreases !ended, |chunks| - turn
    {
      OneTurn(chunks, turn, digested);
      if turn == |chunks| {
        break;
      }
      assert chunks[turn] in chunks;
      failure, digested := CopyTurn(disk, job, chunks[turn], digested, start);
      done, sinceReport, reports := Account(reporting, done, sinceReport, reports, total, |digested| - done);
      ended := failure.Some? || chunks[turn].end.Eof?;
      turn := turn + 1;
    }
    CopiedAsRead(chunks, disk.faults == old(disk.faults), failure, digested);
    intervals, since := reports, sinceReport;
    if reporting && failure.None? {
      reports := reports + [(done, total)];
    }
  }

  lemma NothingRead(chunks: seq<Chunk>)
    ensures Midway(chunks, 0, [])
  {
  }

  lemma NoFaultIsCancel()
    ensures forall text :: !IsCanceled(Fault(text))
  {
  }

  lemma NothingTold(reporting: bool, total: int)
    ensures Told(reporting, [], 0, 0, total)
  {
  }

  /** What the pacing means for a reader of the reports: `r` of them bound the bytes copied from both sides, and
      the whole list, closing report included, never goes backwards. */
  lemma ReportsArePaced(intervals: seq<(nat, int)>, since: nat, done: nat, total: int)
    requires Told(true, intervals, since, done, total)
    ensures |intervals| * 204800 <= done <= |intervals| * 270335 + 204799
    ensures var reports := intervals + [(done, total)];
            forall i, j | 0 <= i <= j < |reports| :: reports[i].0 <= reports[j].0
  {
    RisingReports(intervals, done, total);
  }

  // ---- One download -----------------------------------------------------------------------------

  /** Moves the part file over the destination; a destination that is in the way goes first. */
  method PlacePart(disk: FileSystem, job: Job, ghost fed: Bytes, ghost start: nat) returns (ok: bool)
    requires disk.Valid() && Reaches(job, disk.trace, start, Copying(fed)) && job.Genuine(fed)
    requires job.Part() in disk.files && disk.files[job.Part()] == fed
    modifies disk
    ensures disk.Valid() && old(disk.trace) <= disk.trace
    ensures Reaches(job, disk.trace, start, if ok then Arrived(fed) else Copying(fed))
    ensures disk.faults >= old(disk.faults) && (!ok ==> disk.faults > old(disk.faults))
    ensures ok ==> Placed(job, old(disk.files), disk.files, fed)
    ensures !ok ==> NotPlaced(job, old(disk.files), disk.files)
  {
    hide Reaches;
    disk.Remove(job.target);
    ReachesOneMore(job, old(disk.trace), start, Copying(fed), disk.files, Copying(fed));
    ghost var trace := disk.trace;
    ok := disk.Rename(job.Part(), job.target);
    ReachesOneMore(job, trace, start, Copying(fed), disk.files, if ok then Arrived(fed) else Copying(fed));
  }

  /** Fills the open part file, checks its digest and moves it into place. */
  method FillAndPlace(disk: FileSystem, job: Job, chunks: seq<Chunk>, length: int, ghost start: nat)
    returns (failure: Option<Error>, reports: seq<(nat, int)>, ghost at: Attempt)
    requires disk.Valid() && FitsBuffer(chunks) && Reaches(job, disk.trace, start, Copying([]))
    requires job.Part() in disk.files && disk.files[job.Part()] == []
    modifies disk
    ensures disk.Valid() && old(disk.trace) <= disk.trace && Reaches(job, disk.trace, start, at)
    ensures if failure.None? then at == Arrived(Delivered(chunks)) else !at.Arrived?
    ensures disk.faults >= old(disk.faults)
    ensures failure.None? ==>
              Refusal(job, Body(chunks, length)) == None && Placed(job, old(disk.files), disk.files, Delivered(chunks))
    ensures failure.Some? ==> NotPlaced(job, old(disk.files), disk.files)
    ensures failure.Some? ==>
              failure == Refusal(job, Body(chunks, length)) || (disk.faults > old(disk.faults) && !IsCanceled(failure.value))
  {
    hide Reaches, Told, CopiedAs;
    var done, digested;
    ghost var intervals, since;
    done, failure, digested, reports, intervals, since := CopyWithProgress(disk, job, chunks, length, true, start);
    at := if Reaches(job, disk.trace, start, Copying(digested)) then Copying(digested) else Idle;
    if failure.None? {
      var closed := disk.Close();
      if !closed {
        failure := Some(Fault("close failed"));
      } else if !job.Genuine(digested) {
        failure := Some(ChecksumMismatch);
      } else {
        var placed := PlacePart(disk, job, digested, start);
        failure := if placed then None else Some(Fault("rename failed"));
        at := if placed then Arrived(digested) else at;
      }
    }
  }

  /** Opens the part file for an answer that has a body, and drops it again whatever came of it. */
  method Receive(disk: FileSystem, job: Job, response: Response, ghost start: nat)
    returns (failure: Option<Error>, reports: seq<(nat, int)>)
    requires disk.Valid() && response.Body? && FitsBuffer(response.chunks) && Reaches(job, disk.trace, start, Idle)
    modifies disk
    ensures disk.Valid() && old(disk.trace) <= disk.trace && disk.faults >= old(disk.faults)
    ensures Reaches(job, disk.trace, start, if failure.None? then Arrived(Delivered(response.chunks)) else Idle)
    ensures failure.None? ==>
              Served(job, response) && Placed(job, old(disk.files), disk.files, Delivered(response.chunks))
    ensures failure.Some? ==> NotPlaced(job, old(disk.files), disk.files)
    ensures failure.Some? ==>
              failure == Refusal(job, response) || (disk.faults > old(disk.faults) && !IsCanceled(failure.value))
    ensures disk.faults == old(disk.faults) ==> job.Part() !in disk.files
  {
    hide Reaches, Delivered, Refusal, FitsBuffer;
    reports := [];
    var created := disk.Create(job.Part());
    ReachesOneMore(job, old(disk.trace), start, Idle, disk.files, if created then Copying([]) else Idle);
    if !created {
      return Some(Fault("create failed")), reports;
    }
    ghost var at;
    failure, reports, at := FillAndPlace(disk, job, response.chunks, response.length, start);
    ghost var trace := disk.trace;
    disk.Remove(job.Part());
    ReachesOneMore(job, trace, start, at, disk.files, if at.Arrived? then at else Idle);
  }

  /** One mirror's attempt: fetched, verified and in place, or a failure. `response` is the server's answer. */
  method Download(disk: FileSystem, job: Job, response: Response, ghost start: nat)
    returns (failure: Option<Error>, reports: seq<(nat, int)>)
    requires disk.Valid() && (response.Body? ==> FitsBuffer(response.chunks)) && Reaches(job, disk.trace, start, Idle)
    modifies disk
    ensures disk.Valid() && old(disk.trace) <= disk.trace && disk.faults >= old(disk.faults)
    ensures failure.None? ==>
              |job.want| == HEX_SHA256 && Served(job, response) &&
              Placed(job, old(disk.files), disk.files, Delivered(response.chunks)) &&
              Reaches(job, disk.trace, start, Arrived(Delivered(response.chunks)))
    ensures failure.Some? ==> NotPlaced(job, old(disk.files), disk.files) && Reaches(job, disk.trace, start, Idle)
    ensures failure.Some? && |job.want| == HEX_SHA256 ==>
              failure == Refusal(job, response) || (disk.faults > old(disk.faults) && !IsCanceled(failure.value))
    ensures response.Body? && disk.faults == old(disk.faults) && |job.want| == HEX_SHA256 ==> job.Part() !in disk.files
    ensures |job.want| != HEX_SHA256 ==>
              failure.Some? && !IsCanceled(failure.value) && disk.files == old(disk.files)
    ensures response.NoResponse? ==> disk.files == old(disk.files)
  {
    hide Reaches;
    reports := [];
    if |job.want| != HEX_SHA256 {
      return Some(Fault("refusing to download " + job.target + " without a published checksum")), reports;
    }
    var made := disk.MakeDirectory();
    if !made {
      return Some(Fault("mkdir failed")), reports;
    }
    if response.NoResponse? {
      return Some(response.error), reports;
    }
    failure, reports := Receive(disk, job, response, start);
  }
}
