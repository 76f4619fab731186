/** The tables and mutators of a job, each spelled out on its states. */
module JobMeaning {
  import opened Common
  import opened ImportJob

  /** The moves of a file, one by one. */
  const FILE_MOVES: set<(FileState, FileState)> := {
    (Queued, Downloading), (Queued, SkippedDuplicate), (Queued, Unavailable), (Queued, FileCancelled),
    (Downloading, Verifying), (Downloading, Queued), (Downloading, Unavailable), (Downloading, FileFailed),
    (Downloading, FileCancelled), (Verifying, Verified), (Verifying, FileFailed), (Verifying, FileCancelled),
    (Verified, Importing), (Verified, FileCancelled), (Importing, Imported), (Importing, Verified),
    (Importing, FileFailed)}

  /** The moves of a job. */
  const JOB_MOVES: set<(JobState, JobState)> := {
    (Draft, Ready), (Draft, Cancelled), (Ready, Running), (Ready, Cancelled), (Running, Cancelling),
    (Running, Completed), (Running, Partial), (Running, Failed), (Running, Ready), (Cancelling, Cancelled)}

  /** Beyond these a file may only stay where it is, and only if no move leads away. */
  lemma FileTable(from: FileState, to: FileState)
    ensures IsFileTransitionAllowed(from, to) <==>
              (from, to) in FILE_MOVES || (from == to && forall s :: (from, s) !in FILE_MOVES)
    ensures from.IsTerminal() <==> forall s :: (from, s) !in FILE_MOVES
  {
    assert from.Queued? ==> (from, Downloading) in FILE_MOVES;
    assert from.Downloading? ==> (from, Verifying) in FILE_MOVES;
    assert from.Verifying? ==> (from, Verified) in FILE_MOVES;
    assert from.Verified? ==> (from, Importing) in FILE_MOVES;
    assert from.Importing? ==> (from, Imported) in FILE_MOVES;
  }

  lemma JobTable(from: JobState, to: JobState)
    ensures IsJobTransitionAllowed(from, to) <==>
              (from, to) in JOB_MOVES || (from == to && forall s :: (from, s) !in JOB_MOVES)
    ensures from.IsTerminal() <==> forall s :: (from, s) !in JOB_MOVES
  {
    assert from.Draft? ==> (from, Ready) in JOB_MOVES;
    assert from.Ready? ==> (from, Running) in JOB_MOVES;
    assert from.Running? ==> (from, Cancelling) in JOB_MOVES;
    assert from.Cancelling? ==> (from, Cancelled) in JOB_MOVES;
  }

  /** A running job with files settles once none of them can move, by how many succeeded: all, none, or some. */
  lemma SettlesByItsFiles(d: JobData, now: nat)
    ensures
      var e := Settled(d, now);
      if d.state.Running? && d.files != [] && forall f, s :: f in d.files ==> (f.state, s) !in FILE_MOVES
      then
        && e == d.(state := e.state, updatedAt := now)
        && (e.state == Completed <==> forall f :: f in d.files ==> f.state in {Imported, SkippedDuplicate})
        && (e.state == Failed <==> forall f :: f in d.files ==> f.state !in {Imported, SkippedDuplicate})
        && (e.state == Completed || e.state == Failed || e.state == Partial)
      else e == d
  {
    forall f | f in d.files ensures f.state.IsTerminal() <==> forall s :: (f.state, s) !in FILE_MOVES {
      FileTable(f.state, f.state);
    }
    forall f | f in d.files ensures f.state.IsSuccess() <==> f.state in {Imported, SkippedDuplicate} {}
    assert forall i :: 0 <= i < |d.files| ==> d.files[i] in d.files;
    assert AllTerminal(d.files) <==> forall f :: f in d.files ==> f.state.IsTerminal();
    if d.files != [] { assert d.files[0] in d.files; }
  }

  /** A request cancels the files that wait, touches no other, and reports the staging of the verified ones. */
  lemma RequestDoes(d: JobData, now: nat, n: string)
    requires d.state in {Draft, Ready, Running}
    ensures
      var e := CancelRequested(d, now);
      && e.state == (if d.state == Running then Cancelling else Cancelled) && e.updatedAt == now
      && |e.files| == |d.files|
      && forall i :: 0 <= i < |d.files| ==>
           e.files[i] ==
             if d.files[i].state in {Queued, Verified} then d.files[i].(state := FileCancelled) else d.files[i]
    ensures n in CancelEffects(d) <==>
              exists i :: 0 <= i < |d.files| && d.files[i].state == Verified && d.files[i].stagingName == Some(n)
  {
    ConcatMember(d.files, CancelReport, n);
  }

  lemma RequestIsIgnored(d: JobData, now: nat)
    requires d.state !in {Draft, Ready, Running}
    ensures CancelRequested(d, now) == d && CancelEffects(d) == []
  {
  }

  /** The end of a cancellation: only from `Cancelling`, only with no file in a worker's hands, and only the state. */
  lemma FinishDoes(d: JobData, now: nat)
    ensures
      CancelFinished(d, now) ==
        if d.state == Cancelling && forall f :: f in d.files ==> f.state !in {Downloading, Verifying, Importing}
        then d.(state := Cancelled, updatedAt := now) else d
  {
    assert forall i :: 0 <= i < |d.files| ==> d.files[i] in d.files;
  }

  /** A restart from `Running`: interrupted files start over without their staging, an import goes back one step. */
  lemma RunningRestartDoes(d: JobData, now: nat)
    requires d.state == Running
    ensures
      var e := Normalized(d, now);
      && e.state == Ready && e.updatedAt == now && |e.files| == |d.files|
      && forall i :: 0 <= i < |d.files| ==>
           e.files[i] ==
             if d.files[i].state in {Downloading, Verifying} then d.files[i].(state := Queued, stagingName := None)
             else if d.files[i].state == Importing then d.files[i].(state := Verified)
             else d.files[i]
    ensures NormalizeEffects(d).needsReconcile == []
  {
  }

  /** A restart from `Cancelling`: every file that could still move is cancelled, and nothing else of it changes. */
  lemma CancellingRestartDoes(d: JobData, now: nat)
    requires d.state == Cancelling
    ensures
      var e := Normalized(d, now);
      && e.state == Cancelled && e.updatedAt == now && |e.files| == |d.files|
      && forall i :: 0 <= i < |d.files| ==>
           e.files[i] ==
             if exists s :: (d.files[i].state, s) in FILE_MOVES then d.files[i].(state := FileCancelled) else d.files[i]
  {
    forall i | 0 <= i < |d.files|
      ensures d.files[i].state.IsTerminal() <==> forall s :: (d.files[i].state, s) !in FILE_MOVES
    {
      FileTable(d.files[i].state, d.files[i].state);
    }
  }

  lemma OtherRestartsDoNothing(d: JobData, now: nat)
    requires d.state !in {Running, Cancelling}
    ensures Normalized(d, now) == d && NormalizeEffects(d) == RestartEffects([], [])
  {
  }
}
