/** What every run of a job keeps, however its mutators are interleaved. */
module JobRuns {
  import opened Common
  import opened ImportJob

  /** One call of a mutator, or a worker writing the fields no mutator guards. */
  datatype Op =
    | SetFile(index: nat, to: FileState)
    | SetJob(target: JobState)
    | Settle
    | Cancel
    | FinishCancel
    | Restart
    | Worker(slot: nat, file: JobFile)

  datatype Step = Step(op: Op, now: nat)

  /** A worker may rewrite a file's attempts, error, staging and results; never its key or state. */
  predicate WorkerMayWrite(d: JobData, i: nat, f: JobFile) {
    i < |d.files| && Key(f) == Key(d.files[i]) && f.state == d.files[i].state
  }

  ghost function Apply(d: JobData, s: Step): JobData {
    match s.op
    case SetFile(i, to) =>
      if i < |d.files| && IsFileTransitionAllowed(d.files[i].state, to)
      then d.(files := d.files[i := d.files[i].(state := to)], updatedAt := s.now) else d
    case SetJob(to) =>
      if IsJobTransitionAllowed(d.state, to) then d.(state := to, updatedAt := s.now) else d
    case Settle => Settled(d, s.now)
    case Cancel => CancelRequested(d, s.now)
    case FinishCancel => CancelFinished(d, s.now)
    case Restart => Normalized(d, s.now)
    case Worker(i, f) => if WorkerMayWrite(d, i, f) then d.(files := d.files[i := f]) else d
  }

  ghost function Run(d: JobData, steps: seq<Step>): JobData {
    if steps == [] then d else Apply(Run(d, steps[..|steps| - 1]), steps[|steps| - 1])
  }

  /** A method call moves the object exactly as `Apply` moves its value. */
  method Perform(job: Job, s: Step)
    modifies job
    ensures job.Value() == Apply(old(job.Value()), s)
  {
    match s.op
    case SetFile(i, to) => var _ := job.SetFileState(i, to, s.now);
    case SetJob(to) => var _ := job.SetJobState(to, s.now);
    case Settle => var _ := job.Settle(s.now);
    case Cancel => var _ := job.RequestCancel(s.now);
    case FinishCancel => var _ := job.FinishCancelIfIdle(s.now);
    case Restart => var _ := job.NormalizeAfterRestart(s.now);
    case Worker(i, f) =>
      if i < |job.files| && Key(f) == Key(job.files[i]) && f.state == job.files[i].state {
        job.files := job.files[i := f];
      }
  }

  // ---- Single steps ----

  /** The two moves a restart forces against the file table. */
  predicate ForcedByRestart(s: Step, was: JobState, from: FileState, to: FileState) {
    s.op.Restart? &&
    (|| (was.Running? && from.Verifying? && to.Queued?)
     || (was.Cancelling? && from.Importing? && to.FileCancelled?))
  }

  /** A job changes along the two tables, and a restart is the only exception. */
  lemma StepsFollowTheTables(d: JobData, s: Step, i: nat)
    requires i < |d.files|
    ensures
      var e := Apply(d, s);
      && |e.files| == |d.files| && Key(e.files[i]) == Key(d.files[i])
      && (e.state == d.state || IsJobTransitionAllowed(d.state, e.state))
      && (e.files[i].state != d.files[i].state ==>
            (IsFileTransitionAllowed(d.files[i].state, e.files[i].state) <==>
             !ForcedByRestart(s, d.state, d.files[i].state, e.files[i].state)))
  {
  }

  ghost predicate Continues(d: JobData, e: JobData) {
    && |e.files| == |d.files|
    && (d.state.IsTerminal() ==> e.state == d.state)
    && (forall i :: 0 <= i < |d.files| ==> Key(e.files[i]) == Key(d.files[i]))
    && (forall i :: 0 <= i < |d.files| && d.files[i].state.IsTerminal() ==> e.files[i].state == d.files[i].state)
  }

  lemma StepContinues(d: JobData, s: Step)
    ensures Continues(d, Apply(d, s))
  {
    forall i | 0 <= i < |d.files|
      ensures Key(Apply(d, s).files[i]) == Key(d.files[i])
      ensures d.files[i].state.IsTerminal() ==> Apply(d, s).files[i].state == d.files[i].state
    {
      StepsFollowTheTables(d, s, i);
    }
  }

  // ---- Whole runs ----

  /** Terminal states are forever, no file appears or vanishes, and keys stay unique. */
  lemma {:induction false} RunsKeepTerminalStatesAndKeys(d: JobData, steps: seq<Step>)
    ensures Continues(d, Run(d, steps))
    ensures UniqueKeys(d.files) ==> UniqueKeys(Run(d, steps).files)
  {
    if steps != [] {
      var n := |steps| - 1;
      RunsKeepTerminalStatesAndKeys(d, steps[..n]);
      StepContinues(Run(d, steps[..n]), steps[n]);
    }
  }

  /** Once `settle` has spoken, its verdict describes the files at every later point. */
  lemma SettledVerdictStaysTrue(d: JobData, now: nat, later: seq<Step>)
    requires Settled(d, now).state != d.state
    ensures
      var e := Run(Settled(d, now), later);
      && e.state == Outcome(e.files) == Outcome(d.files)
      && AllTerminal(e.files)
  {
    var s := Settled(d, now);
    RunsKeepTerminalStatesAndKeys(s, later);
    var e := Run(s, later);
    forall i | 0 <= i < |d.files|
      ensures e.files[i].state == d.files[i].state
    {
      assert s.files[i].state.IsTerminal();
    }
    SameStatesSameOutcome(d.files, e.files);
  }

  lemma SameStatesSameOutcome(f: seq<JobFile>, g: seq<JobFile>)
    requires |f| == |g| && forall i :: 0 <= i < |f| ==> g[i].state == f[i].state
    ensures Outcome(f) == Outcome(g) && (AllTerminal(f) <==> AllTerminal(g))
  {
    if i :| 0 <= i < |f| && f[i].state.IsSuccess() { assert g[i].state.IsSuccess(); }
    if i :| 0 <= i < |f| && !f[i].state.IsSuccess() { assert !g[i].state.IsSuccess(); }
  }

  // ---- Cancelled jobs ----

  predicate Waits(f: JobFile) { f.state.Queued? || f.state.Verified? }

  /**
   * The four steps that turn a job `Cancelled`, and when each leaves every file terminal: a restart always; the
   * end of a cancellation when no file waits; a request, from `Draft` or `Ready`, when no file is busy; a bare
   * state change when every file was terminal before.
   */
  lemma CancelledFilesAreTerminalIff(d: JobData, s: Step)
    requires !d.state.Cancelled? && Apply(d, s).state.Cancelled?
    ensures s.op.Restart? || s.op.FinishCancel? || s.op.Cancel? || s.op == SetJob(Cancelled)
    ensures AllTerminal(Apply(d, s).files) <==>
            match s.op
            case Restart => true
            case FinishCancel => forall i :: 0 <= i < |d.files| ==> !Waits(d.files[i])
            case Cancel => forall i :: 0 <= i < |d.files| ==> !IsBusy(d.files[i])
            case _ => AllTerminal(d.files)
  {
    var e := Apply(d, s);
    match s.op
    case FinishCancel => assert forall i :: 0 <= i < |d.files| ==> !IsBusy(d.files[i]);
    case Cancel =>
      forall i | 0 <= i < |d.files|
        ensures e.files[i].state.IsTerminal() <==> !IsBusy(d.files[i])
      {
      }
    case _ =>
  }

  /** A step that changes the state of file `i`. */
  ghost predicate Changes(d: JobData, s: Step, i: nat) {
    i < |d.files| && i < |Apply(d, s).files| && Apply(d, s).files[i].state != d.files[i].state
  }

  /** The last step of a run that changes the state of file `i`. */
  ghost function LastChange(d: JobData, steps: seq<Step>, i: nat): (last: Option<nat>)
    ensures last.Some? ==> last.value < |steps|
  {
    if steps == [] then None
    else
      var n := |steps| - 1;
      if Changes(Run(d, steps[..n]), steps[n], i) then Some(n) else LastChange(d, steps[..n], i)
  }

  /** A worker moves file `i` to a state in which it waits. */
  predicate PutsBack(s: Step, i: nat) {
    s.op.SetFile? && s.op.index == i && (s.op.to.Queued? || s.op.to.Verified?)
  }

  /** While a job stays `Cancelling`, only a worker changes the state of a file. */
  lemma OnlyWorkersMoveFiles(d: JobData, s: Step, i: nat)
    requires d.state.Cancelling? && Apply(d, s).state.Cancelling? && Changes(d, s, i)
    ensures s.op.SetFile? && s.op.index == i && Apply(d, s).files[i].state == s.op.to
  {
  }

  /** A cancelling job goes nowhere but to `Cancelled`. */
  lemma {:induction false} CancellingOrCancelled(d: JobData, steps: seq<Step>)
    requires d.state.Cancelling?
    ensures Run(d, steps).state.Cancelling? || Run(d, steps).state.Cancelled?
    ensures steps != [] && Run(d, steps).state.Cancelling? ==> Run(d, steps[..|steps| - 1]).state.Cancelling?
  {
    if steps != [] {
      CancellingOrCancelled(d, steps[..|steps| - 1]);
      CancellingStep(Run(d, steps[..|steps| - 1]), steps[|steps| - 1]);
    }
  }

  lemma CancellingStep(d: JobData, s: Step)
    requires d.state.Cancelling? || d.state.Cancelled?
    ensures Apply(d, s).state.Cancelling? || Apply(d, s).state.Cancelled?
    ensures d.state.Cancelled? ==> Apply(d, s).state.Cancelled?
  {
  }

  /** Where a file stands while its job is `Cancelling`, by its last change. */
  lemma {:induction false} StandsWhereMoved(d: JobData, steps: seq<Step>, i: nat)
    requires d.state.Cancelling? && Run(d, steps).state.Cancelling? && i < |d.files|
    ensures |Run(d, steps).files| == |d.files|
    ensures
      var last := LastChange(d, steps, i);
      && (last.None? ==> Run(d, steps).files[i].state == d.files[i].state)
      && (last.Some? ==>
            && steps[last.value].op.SetFile? && steps[last.value].op.index == i
            && Run(d, steps).files[i].state == steps[last.value].op.to)
  {
    if steps != [] {
      var n := |steps| - 1;
      var e := Run(d, steps[..n]);
      RunsKeepTerminalStatesAndKeys(d, steps[..n]);
      StepContinues(e, steps[n]);
      CancellingOrCancelled(d, steps);
      StandsWhereMoved(d, steps[..n], i);
      if Changes(e, steps[n], i) {
        OnlyWorkersMoveFiles(e, steps[n], i);
      }
    }
  }

  /**
   * Cancel a running job, let anything happen, and finish: a file is left unfinished if and only if the last
   * change of its state since the request was a worker's move to `Queued` or `Verified`.
   */
  lemma UnfinishedFilesWerePutBack(d: JobData, s: Step, later: seq<Step>, t: nat, i: nat)
    requires d.state.Running? && s.op.Cancel? && i < |d.files|
    requires
      var e := Run(Apply(d, s), later);
      e.state.Cancelling? && CancelFinished(e, t).state.Cancelled?
    ensures
      var end := CancelFinished(Run(Apply(d, s), later), t);
      var last := LastChange(Apply(d, s), later, i);
      |end.files| == |d.files|
      && (!end.files[i].state.IsTerminal() <==> last.Some? && PutsBack(later[last.value], i))
  {
    var c := Apply(d, s);
    StandsWhereMoved(c, later, i);
    var e := Run(c, later);
    assert !IsBusy(e.files[i]);
    assert !Waits(c.files[i]);
  }

  /** And a worker can put a file back in the queue behind a cancellation. */
  lemma CancelledJobCanHoldAQueuedFile(d: JobData, i: nat)
    requires d.state.Running? && i < |d.files| && d.files[i].state.Downloading?
    requires forall j :: 0 <= j < |d.files| && j != i ==> !IsBusy(d.files[j])
    ensures
      var e := Run(d, [Step(Cancel, 0), Step(SetFile(i, Queued), 0), Step(FinishCancel, 0)]);
      e.state.Cancelled? && |e.files| == |d.files| && e.files[i].state.Queued?
  {
    var s0, s1, s2 := Step(Cancel, 0), Step(SetFile(i, Queued), 0), Step(FinishCancel, 0);
    var d1 := Apply(d, s0);
    var d2 := Apply(d1, s1);
    RunOfThree(d, s0, s1, s2);
    assert d2.state.Cancelling? && d2.files[i].state.Queued?;
    assert forall j :: 0 <= j < |d.files| ==> !IsBusy(d2.files[j]);
  }

  lemma RunOfThree(d: JobData, s: Step, t: Step, u: Step)
    ensures Run(d, [s, t, u]) == Apply(Apply(Apply(d, s), t), u)
  {
    RunStep(d, [], s);
    RunStep(d, [s], t);
    RunStep(d, [s, t], u);
    assert [] + [s] == [s] && [s] + [t] == [s, t] && [s, t] + [u] == [s, t, u];
  }

  /** A request before the start can leave a busy one: a worker may have begun while the job was only `Ready`. */
  lemma EarlyCancelCanLeaveABusyFile(d: JobData, i: nat)
    requires d.state.Draft? && i < |d.files| && d.files[i].state.Queued?
    ensures
      var e := Run(d, [Step(SetJob(Ready), 0), Step(SetFile(i, Downloading), 0), Step(Cancel, 0)]);
      e.state.Cancelled? && |e.files| == |d.files| && e.files[i].state.Downloading?
  {
    var s0, s1, s2 := Step(SetJob(Ready), 0), Step(SetFile(i, Downloading), 0), Step(Cancel, 0);
    RunOfThree(d, s0, s1, s2);
    var d1 := Apply(d, s0);
    assert d1 == d.(state := Ready, updatedAt := 0);
    assert Apply(d1, s1).files[i].state.Downloading?;
  }

  lemma RunStep(d: JobData, steps: seq<Step>, s: Step)
    ensures Run(d, steps + [s]) == Apply(Run(d, steps), s)
  {
    assert (steps + [s])[..|steps|] == steps;
  }

  // ---- Accounting ----

  function Rank(s: FileState): nat {
    match s
    case Queued => 0
    case Downloading => 1
    case Verifying => 2
    case Verified => 3
    case Importing => 4
    case _ => 5
  }

  /** Total rank of the first `n` files. */
  ghost function TotalRank(files: seq<JobFile>): nat {
    if files == [] then 0 else TotalRank(files[..|files| - 1]) + Rank(files[|files| - 1].state)
  }

  /** How many files stand higher in `after` than in `before`. */
  ghost function Raised(before: seq<JobFile>, after: seq<JobFile>): nat
    requires |before| == |after|
  {
    if before == [] then 0
    else
      var n := |before| - 1;
      Raised(before[..n], after[..n]) + (if Rank(after[n].state) > Rank(before[n].state) then 1 else 0)
  }

  /** Rank-raising file changes along a run. */
  ghost function RaisesIn(d: JobData, steps: seq<Step>): nat {
    if steps == [] then 0
    else
      var n := |steps| - 1;
      var e := Run(d, steps[..n]);
      StepContinues(e, steps[n]);
      RaisesIn(d, steps[..n]) + Raised(e.files, Apply(e, steps[n]).files)
  }

  /** A step that takes a file back for another try. */
  ghost predicate IsRetry(d: JobData, s: Step) {
    && s.op.SetFile? && s.op.index < |d.files|
    && (|| (d.files[s.op.index].state.Downloading? && s.op.to.Queued?)
        || (d.files[s.op.index].state.Importing? && s.op.to.Verified?))
  }

  ghost predicate IsRestartOfRunning(d: JobData, s: Step) { s.op.Restart? && d.state.Running? }

  ghost function RetriesIn(d: JobData, steps: seq<Step>): nat {
    if steps == [] then 0
    else
      var n := |steps| - 1;
      RetriesIn(d, steps[..n]) + if IsRetry(Run(d, steps[..n]), steps[n]) then 1 else 0
  }

  ghost function RestartsIn(d: JobData, steps: seq<Step>): nat {
    if steps == [] then 0
    else
      var n := |steps| - 1;
      RestartsIn(d, steps[..n]) + if IsRestartOfRunning(Run(d, steps[..n]), steps[n]) then 1 else 0
  }

  lemma {:induction false} TotalRankBound(files: seq<JobFile>)
    ensures TotalRank(files) <= 5 * |files|
  {
    if files != [] {
      TotalRankBound(files[..|files| - 1]);
    }
  }

  /** If no file falls by more than `drop`, raises are paid for by total rank. */
  lemma {:induction false} RaisesCostRank(before: seq<JobFile>, after: seq<JobFile>, drop: nat)
    requires |before| == |after|
    requires forall i :: 0 <= i < |before| ==> Rank(before[i].state) <= Rank(after[i].state) + drop
    ensures TotalRank(before) + Raised(before, after) <= TotalRank(after) + drop * |before|
  {
    if before != [] {
      var n := |before| - 1;
      RaisesCostRank(before[..n], after[..n], drop);
      assert Rank(before[n].state) <= Rank(after[n].state) + drop;
      assert drop * |before| == drop * n + drop;
    }
  }

  lemma {:induction false} TotalRankUpdate(files: seq<JobFile>, i: nat, f: JobFile)
    requires i < |files|
    ensures TotalRank(files[i := f]) == TotalRank(files) - Rank(files[i].state) + Rank(f.state)
    ensures Raised(files, files[i := f]) == if Rank(f.state) > Rank(files[i].state) then 1 else 0
  {
    var n := |files| - 1;
    if i == n {
      assert files[i := f][..n] == files[..n];
      RaisedSame(files[..n]);
    } else {
      assert files[i := f][..n] == files[..n][i := f];
      TotalRankUpdate(files[..n], i, f);
    }
  }

  lemma {:induction false} RaisedSame(files: seq<JobFile>)
    ensures Raised(files, files) == 0
  {
    if files != [] {
      RaisedSame(files[..|files| - 1]);
    }
  }

  /** Rank a step may give back. */
  ghost function Refund(d: JobData, s: Step): nat {
    (if IsRetry(d, s) then 1 else 0) + (if IsRestartOfRunning(d, s) then 2 * |d.files| else 0)
  }

  lemma StepAccounting(d: JobData, s: Step)
    ensures
      var e := Apply(d, s);
      && |e.files| == |d.files|
      && TotalRank(d.files) + Raised(d.files, e.files)
         <= TotalRank(e.files) + Refund(d, s)
  {
    var e := Apply(d, s);
    StepContinues(d, s);
    if IsRestartOfRunning(d, s) {
      RaisesCostRank(d.files, e.files, 2);
    } else if s.op.SetFile? && e != d {
      TotalRankUpdate(d.files, s.op.index, e.files[s.op.index]);
    } else {
      NothingFalls(d, s);
      RaisesCostRank(d.files, e.files, 0);
    }
  }

  /** Only single-file writes and a restart from `Running` lower a rank. */
  lemma NothingFalls(d: JobData, s: Step)
    requires !IsRestartOfRunning(d, s) && (s.op.SetFile? ==> Apply(d, s) == d)
    ensures |Apply(d, s).files| == |d.files|
    ensures forall i :: 0 <= i < |d.files| ==> Rank(d.files[i].state) <= Rank(Apply(d, s).files[i].state)
  {
  }

  ghost function RefundIn(d: JobData, steps: seq<Step>): nat {
    if steps == [] then 0
    else
      var n := |steps| - 1;
      RefundIn(d, steps[..n]) + Refund(Run(d, steps[..n]), steps[n])
  }

  lemma {:induction false} RefundsAreCounted(d: JobData, steps: seq<Step>)
    ensures RefundIn(d, steps) == RetriesIn(d, steps) + 2 * |d.files| * RestartsIn(d, steps)
  {
    if steps != [] {
      var n := |steps| - 1;
      var head, e := steps[..n], Run(d, steps[..n]);
      RefundsAreCounted(d, head);
      assert |e.files| == |d.files| by { RunsKeepTerminalStatesAndKeys(d, head); }
      Distribute(2 * |d.files|, RestartsIn(d, head), if IsRestartOfRunning(e, steps[n]) then 1 else 0);
    }
  }

  lemma {:induction false} RaisesArePaidFor(d: JobData, steps: seq<Step>)
    ensures TotalRank(d.files) + RaisesIn(d, steps) <= TotalRank(Run(d, steps).files) + RefundIn(d, steps)
  {
    if steps != [] {
      var n := |steps| - 1;
      RaisesArePaidFor(d, steps[..n]);
      StepAccounting(Run(d, steps[..n]), steps[n]);
    }
  }

  lemma Distribute(a: int, b: int, c: int)
    ensures a * (b + c) == a * b + a * c
  {
  }

  /** Over `n` files, a run with `r` retries and `s` restarts raises ranks at most `5n + r + 2ns` times. */
  lemma RaisesAreBounded(d: JobData, steps: seq<Step>)
    ensures RaisesIn(d, steps) <= 5 * |d.files| + RetriesIn(d, steps) + 2 * |d.files| * RestartsIn(d, steps)
  {
    RaisesArePaidFor(d, steps);
    RefundsAreCounted(d, steps);
    RunsKeepTerminalStatesAndKeys(d, steps);
    TotalRankBound(Run(d, steps).files);
  }

  // ---- Restart ----

  /** A second restart finds nothing to do and does not touch the job, not even its clock. */
  lemma RestartIsIdempotent(d: JobData, t0: nat, t1: nat)
    ensures Normalized(Normalized(d, t0), t1) == Normalized(d, t0)
    ensures NormalizeEffects(Normalized(d, t0)) == RestartEffects([], [])
  {
  }

  function StagingNames(files: seq<JobFile>): seq<string> { Concat(files, Name) }

  function KeptName(f: JobFile): seq<string> { Name(RequeueFile(f)) }

  lemma RequeueSplitsName(f: JobFile)
    ensures multiset(Name(f)) == multiset(KeptName(f)) + multiset(RequeueReport(f))
  {
  }

  /** From `Running`, every staging name is either kept or reported for deletion, never both or lost. */
  lemma RunningRestartConservesStaging(d: JobData, now: nat)
    requires d.state.Running?
    ensures multiset(StagingNames(d.files))
            == multiset(StagingNames(Normalized(d, now).files)) + multiset(NormalizeEffects(d).stagingToDelete)
  {
    RequeueConservesStaging(d.files);
  }

  lemma RequeueConservesStaging(files: seq<JobFile>)
    ensures multiset(StagingNames(files))
            == multiset(StagingNames(Map(files, RequeueFile))) + multiset(Concat(files, RequeueReport))
  {
    ConcatOfMap(files, RequeueFile, Name, KeptName);
    forall f | f in files ensures multiset(Name(f)) == multiset(KeptName(f)) + multiset(RequeueReport(f)) {
      RequeueSplitsName(f);
    }
    ConcatSplits(files, Name, KeptName, RequeueReport);
  }

  lemma {:induction false} ConcatOfMap<A, B, C>(s: seq<A>, m: A -> B, f: B -> seq<C>, fm: A -> seq<C>)
    requires forall x :: x in s ==> fm(x) == f(m(x))
    ensures Concat(Map(s, m), f) == Concat(s, fm)
  {
    if s != [] {
      var n := |s| - 1;
      ConcatOfMap(s[..n], m, f, fm);
      assert Map(s, m)[..n] == Map(s[..n], m);
      assert s[n] in s;
    }
  }

  lemma {:induction false} ConcatSplits<A, B>(s: seq<A>, f: A -> seq<B>, g: A -> seq<B>, h: A -> seq<B>)
    requires forall x :: x in s ==> multiset(f(x)) == multiset(g(x)) + multiset(h(x))
    ensures multiset(Concat(s, f)) == multiset(Concat(s, g)) + multiset(Concat(s, h))
  {
    if s != [] {
      var n := |s| - 1;
      ConcatSplits(s[..n], f, g, h);
      assert s[n] in s;
    }
  }

  /** Indices of the files a `Cancelling` restart discards, in order. */
  function DiscardedIndices(files: seq<JobFile>): (r: seq<nat>)
    ensures forall i :: i in r <==> 0 <= i < |files| && !files[i].state.IsTerminal() && !files[i].state.Importing?
  {
    if files == [] then []
    else
      var n := |files| - 1;
      DiscardedIndices(files[..n]) +
      if !files[n].state.IsTerminal() && !files[n].state.Importing? then [n] else []
  }

  /** The reconcile entries are exactly the `Importing` files, in file order, each under its own index. */
  lemma {:induction false} ReconcilesAreTheImportingFiles(files: seq<JobFile>)
    ensures forall e :: e in Reconciles(files) <==>
                        e.index < |files| && files[e.index].state.Importing? && e == EntryOf(e.index, files[e.index])
    ensures forall k, l :: 0 <= k < l < |Reconciles(files)| ==> Reconciles(files)[k].index < Reconciles(files)[l].index
  {
    if files != [] {
      var n := |files| - 1;
      ReconcilesAreTheImportingFiles(files[..n]);
    }
  }

  /** The deletion report is exactly the names of the discarded files, in file order. */
  lemma {:induction false} AbandonReportsTheDiscarded(files: seq<JobFile>, name: nat -> seq<string>)
    requires forall i: nat :: i < |files| ==> name(i) == Name(files[i])
    ensures Concat(files, AbandonReport) == Concat(DiscardedIndices(files), name)
  {
    if files != [] {
      var n := |files| - 1;
      var head := DiscardedIndices(files[..n]);
      AbandonReportsTheDiscarded(files[..n], name);
      if files[n].state.IsTerminal() || files[n].state.Importing? {
        assert DiscardedIndices(files) == head;
      } else {
        assert DiscardedIndices(files) == head + [n];
        ConcatSnoc<nat, string>(head, n, name);
      }
    }
  }

  /** From `Cancelling`, each non-terminal file is discarded or reconciled, none is both, and all end terminal. */
  lemma CancellingRestartSplitsFiles(d: JobData, now: nat)
    requires d.state.Cancelling?
    ensures forall i: nat :: i < |d.files| && !d.files[i].state.IsTerminal() <==>
              (i in DiscardedIndices(d.files) || exists e :: e in NormalizeEffects(d).needsReconcile && e.index == i)
    ensures forall e :: e in NormalizeEffects(d).needsReconcile ==>
              e.index !in DiscardedIndices(d.files) && e == EntryOf(e.index, d.files[e.index])
    ensures NormalizeEffects(d).stagingToDelete ==
              Concat(DiscardedIndices(d.files), (i: nat) => if i < |d.files| then Name(d.files[i]) else [])
    ensures AllTerminal(Normalized(d, now).files)
  {
    CancellingEffects(d, now);
    FilesSplit(d.files);
    AbandonReportsTheDiscarded(d.files, (i: nat) => if i < |d.files| then Name(d.files[i]) else []);
  }

  lemma CancellingEffects(d: JobData, now: nat)
    requires d.state.Cancelling?
    ensures NormalizeEffects(d) == RestartEffects(Concat(d.files, AbandonReport), Reconciles(d.files))
    ensures AllTerminal(Normalized(d, now).files)
  {
  }

  lemma FilesSplit(files: seq<JobFile>)
    ensures forall i: nat :: i < |files| && !files[i].state.IsTerminal() <==>
              (i in DiscardedIndices(files) || exists e :: e in Reconciles(files) && e.index == i)
    ensures forall e :: e in Reconciles(files) ==>
              e.index !in DiscardedIndices(files) && e == EntryOf(e.index, files[e.index])
  {
    ReconcilesAreTheImportingFiles(files);
    forall i: nat | i < |files| && files[i].state.Importing?
      ensures exists e :: e in Reconciles(files) && e.index == i
    {
      assert EntryOf(i, files[i]) in Reconciles(files);
    }
  }
}
