/** The import job of `job.rs`: tables, the mutable job, and its value-level meaning. */
module ImportJob {
  import opened Common

  const JOB_SCHEMA_VERSION: nat := 1

  datatype ImportTarget = ExistingCollection(collectionId: string) | NewCollection(name: string)

  datatype JobState = Draft | Ready | Running | Cancelling | Completed | Partial | Failed | Cancelled {
    predicate IsTerminal() { Completed? || Partial? || Failed? || Cancelled? }
  }

  datatype FileState =
    | Queued | Downloading | Verifying | Verified | Importing
    | Imported | SkippedDuplicate | Unavailable | FileFailed | FileCancelled
  {
    predicate IsTerminal() {
      Imported? || SkippedDuplicate? || Unavailable? || FileFailed? || FileCancelled?
    }

    predicate IsSuccess() { Imported? || SkippedDuplicate? }
  }

  datatype FileSource = Original | Derivative | Other(value: string) | Unknown

  datatype JobFile = JobFile(
    identifier: string, fileName: string, format: Option<string>, source: FileSource,
    expectedSize: Option<nat>, mtime: Option<nat>, md5: Option<string>, sha1: Option<string>,
    state: FileState, attempts: nat, error: Option<string>, stagingName: Option<string>,
    pageCount: Option<nat>, sha256: Option<string>, itemId: Option<string>)

  datatype ItemSnapshot = ItemSnapshot(
    identifier: string, title: Option<string>, creators: seq<string>, date: Option<string>,
    languages: seq<string>, collections: seq<string>, rights: Option<string>, licenseUrl: Option<string>)

  /** Everything a job holds, as a value: what is cloned, compared and written to disk. */
  datatype JobData = JobData(
    schemaVersion: nat, id: string, createdAt: nat, updatedAt: nat, target: ImportTarget,
    state: JobState, files: seq<JobFile>, items: seq<ItemSnapshot>)

  datatype ReconcileEntry = ReconcileEntry(
    index: nat, identifier: string, fileName: string, stagingName: Option<string>)

  datatype RestartEffects = RestartEffects(
    stagingToDelete: seq<string>, needsReconcile: seq<ReconcileEntry>)

  datatype NewJobError = Empty | Duplicate(identifier: string, fileName: string)

  datatype SetFileStateError = OutOfBounds(index: nat, len: nat) | Transition(from: FileState, to: FileState)

  datatype JobTransitionError = JobTransitionError(from: JobState, to: JobState)

  predicate IsFileTransitionAllowed(from: FileState, to: FileState) {
    if from == to then from.IsTerminal()
    else match from
      case Queued => to.Downloading? || to.SkippedDuplicate? || to.Unavailable? || to.FileCancelled?
      case Downloading => to.Verifying? || to.Queued? || to.Unavailable? || to.FileFailed? || to.FileCancelled?
      case Verifying => to.Verified? || to.FileFailed? || to.FileCancelled?
      case Verified => to.Importing? || to.FileCancelled?
      case Importing => to.Imported? || to.Verified? || to.FileFailed?
      case _ => false
  }

  predicate IsJobTransitionAllowed(from: JobState, to: JobState) {
    if from == to then from.IsTerminal()
    else match from
      case Draft => to.Ready? || to.Cancelled?
      case Ready => to.Running? || to.Cancelled?
      case Running => to.Cancelling? || to.Completed? || to.Partial? || to.Failed? || to.Ready?
      case Cancelling => to.Cancelled?
      case _ => false
  }

  function Key(f: JobFile): (string, string) { (f.identifier, f.fileName) }

  ghost predicate UniqueKeys(files: seq<JobFile>) {
    forall i, j :: 0 <= i < j < |files| ==> Key(files[i]) != Key(files[j])
  }

  /** Zero or one staging name. */
  function Name(f: JobFile): seq<string> {
    if f.stagingName.Some? then [f.stagingName.value] else []
  }

  // ---- What the mutators do, as functions on values ----

  /** The verdict on a list of finished files. */
  ghost function Outcome(files: seq<JobFile>): JobState {
    if forall i :: 0 <= i < |files| ==> files[i].state.IsSuccess() then Completed
    else if exists i :: 0 <= i < |files| && files[i].state.IsSuccess() then Partial
    else Failed
  }

  ghost predicate AllTerminal(files: seq<JobFile>) {
    forall i :: 0 <= i < |files| ==> files[i].state.IsTerminal()
  }

  ghost function Settled(d: JobData, now: nat): JobData {
    if d.state.Running? && d.files != [] && AllTerminal(d.files)
    then d.(state := Outcome(d.files), updatedAt := now)
    else d
  }

  function CancelFile(f: JobFile): JobFile {
    if f.state.Queued? || f.state.Verified? then f.(state := FileCancelled) else f
  }

  function CancelReport(f: JobFile): seq<string> {
    if f.state.Verified? then Name(f) else []
  }

  function CancelRequested(d: JobData, now: nat): JobData {
    match d.state
    case Draft => d.(state := Cancelled, updatedAt := now, files := Map(d.files, CancelFile))
    case Ready => d.(state := Cancelled, updatedAt := now, files := Map(d.files, CancelFile))
    case Running => d.(state := Cancelling, updatedAt := now, files := Map(d.files, CancelFile))
    case _ => d
  }

  function CancelEffects(d: JobData): seq<string> {
    if d.state.Draft? || d.state.Ready? || d.state.Running? then Concat(d.files, CancelReport) else []
  }

  predicate IsBusy(f: JobFile) { f.state.Downloading? || f.state.Verifying? || f.state.Importing? }

  ghost predicate Idle(files: seq<JobFile>) {
    forall i :: 0 <= i < |files| ==> !IsBusy(files[i])
  }

  ghost function CancelFinished(d: JobData, now: nat): JobData {
    if d.state.Cancelling? && Idle(d.files) then d.(state := Cancelled, updatedAt := now) else d
  }

  /** One file of a `Running` job after a restart. */
  function RequeueFile(f: JobFile): JobFile {
    match f.state
    case Downloading => f.(state := Queued, stagingName := None)
    case Verifying => f.(state := Queued, stagingName := None)
    case Importing => f.(state := Verified)
    case _ => f
  }

  function RequeueReport(f: JobFile): seq<string> {
    if f.state.Downloading? || f.state.Verifying? then Name(f) else []
  }

  /** One file of a `Cancelling` job after a restart. */
  function AbandonFile(f: JobFile): JobFile {
    if f.state.IsTerminal() then f else f.(state := FileCancelled)
  }

  function AbandonReport(f: JobFile): seq<string> {
    if f.state.IsTerminal() || f.state.Importing? then [] else Name(f)
  }

  function EntryOf(i: nat, f: JobFile): ReconcileEntry {
    ReconcileEntry(i, f.identifier, f.fileName, f.stagingName)
  }

  function Reconciles(files: seq<JobFile>): seq<ReconcileEntry> {
    if files == [] then []
    else
      var n := |files| - 1;
      Reconciles(files[..n]) + if files[n].state.Importing? then [EntryOf(n, files[n])] else []
  }

  lemma ReconcilesNext(files: seq<JobFile>, i: nat)
    requires i < |files|
    ensures Reconciles(files[..i + 1])
            == Reconciles(files[..i]) + if files[i].state.Importing? then [EntryOf(i, files[i])] else []
  {
    assert files[..i + 1][..i] == files[..i];
  }

  function Normalized(d: JobData, now: nat): JobData {
    match d.state
    case Running => d.(state := Ready, updatedAt := now, files := Map(d.files, RequeueFile))
    case Cancelling => d.(state := Cancelled, updatedAt := now, files := Map(d.files, AbandonFile))
    case _ => d
  }

  function NormalizeEffects(d: JobData): RestartEffects {
    match d.state
    case Running => RestartEffects(Concat(d.files, RequeueReport), [])
    case Cancelling => RestartEffects(Concat(d.files, AbandonReport), Reconciles(d.files))
    case _ => RestartEffects([], [])
  }

  // ---- The mutable job ----

  class Job {
    const schemaVersion: nat
    const id: string
    const createdAt: nat
    const target: ImportTarget
    const items: seq<ItemSnapshot>
    var updatedAt: nat
    var state: JobState
    var files: seq<JobFile>

    function Value(): JobData
      reads this
    {
      JobData(schemaVersion, id, createdAt, updatedAt, target, state, files, items)
    }

    constructor (d: JobData)
      ensures Value() == d
    {
      schemaVersion, id, createdAt, updatedAt := d.schemaVersion, d.id, d.createdAt, d.updatedAt;
      target, state, files, items := d.target, d.state, d.files, d.items;
    }

    /** A job in `Draft`, or the first reason there can be none. */
    static method New(id: string, now: nat, target: ImportTarget, files: seq<JobFile>)
      returns (r: Result<Job, NewJobError>)
      ensures r.Ok? <==> files != [] && UniqueKeys(files)
      ensures r.Ok? ==> fresh(r.value)
      ensures r.Ok? ==> r.value.Value() == JobData(JOB_SCHEMA_VERSION, id, now, now, target, Draft, files, [])
      ensures r.Err? && files == [] ==> r.error == Empty
      ensures r.Err? && files != [] ==>
        exists j :: 0 <= j < |files| && UniqueKeys(files[..j]) && !UniqueKeys(files[..j + 1]) &&
                    r.error == Duplicate(files[j].identifier, files[j].fileName)
    {
      if files == [] {
        return Err(Empty);
      }
      var seen: set<(string, string)> := {};
      for j := 0 to |files|
        invariant UniqueKeys(files[..j])
        invariant seen == set i | 0 <= i < j :: Key(files[i])
      {
        if Key(files[j]) in seen {
          ghost var i :| 0 <= i < j && Key(files[i]) == Key(files[j]);
          assert Key(files[..j + 1][i]) == Key(files[..j + 1][j]);
          return Err(Duplicate(files[j].identifier, files[j].fileName));
        }
        seen := seen + {Key(files[j])};
      }
      assert files[..|files|] == files;
      var job := new Job(JobData(JOB_SCHEMA_VERSION, id, now, now, target, Draft, files, []));
      return Ok(job);
    }

    method SetFileState(index: nat, to: FileState, now: nat) returns (r: Result<(), SetFileStateError>)
      modifies this
      ensures r.Err? ==> Value() == old(Value())
      ensures r.Ok? <==> index < |old(files)| && IsFileTransitionAllowed(old(files)[index].state, to)
      ensures r.Ok? ==>
        Value() == old(Value()).(files := old(files)[index := old(files)[index].(state := to)], updatedAt := now)
      ensures r.Err? ==>
        r.error == if index < |files| then Transition(files[index].state, to) else OutOfBounds(index, |files|)
    {
      if index >= |files| {
        return Err(OutOfBounds(index, |files|));
      }
      var from := files[index].state;
      if !IsFileTransitionAllowed(from, to) {
        return Err(Transition(from, to));
      }
      files := files[index := files[index].(state := to)];
      updatedAt := now;
      return Ok(());
    }

    method SetJobState(to: JobState, now: nat) returns (r: Result<(), JobTransitionError>)
      modifies this
      ensures r.Ok? <==> IsJobTransitionAllowed(old(state), to)
      ensures r.Ok? ==> Value() == old(Value()).(state := to, updatedAt := now)
      ensures r.Err? ==> Value() == old(Value()) && r.error == JobTransitionError(state, to)
    {
      if !IsJobTransitionAllowed(state, to) {
        return Err(JobTransitionError(state, to));
      }
      state, updatedAt := to, now;
      return Ok(());
    }

    method Settle(now: nat) returns (r: Option<JobState>)
      modifies this
      ensures Value() == Settled(old(Value()), now)
      ensures r == if old(state).Running? && files != [] && AllTerminal(files) then Some(state) else None
    {
      if state != Running || files == [] {
        return None;
      }
      if exists i :: 0 <= i < |files| && !files[i].state.IsTerminal() {
        return None;
      }
      var anySuccess := exists i :: 0 <= i < |files| && files[i].state.IsSuccess();
      var allSuccess := forall i :: 0 <= i < |files| ==> files[i].state.IsSuccess();
      var next := if allSuccess then Completed else if anySuccess then Partial else Failed;
      state, updatedAt := next, now;
      return Some(next);
    }

    method CancelOne(i: nat) returns (names: seq<string>)
      requires i < |files|
      modifies this`files
      ensures files == old(files)[i := CancelFile(old(files)[i])] && names == CancelReport(old(files)[i])
    {
      names := [];
      match files[i].state
      case Queued => files := files[i := files[i].(state := FileCancelled)];
      case Verified =>
        if files[i].stagingName.Some? {
          names := [files[i].stagingName.value];
        }
        files := files[i := files[i].(state := FileCancelled)];
      case _ =>
    }

    /** The loop both branches of `request_cancel` run. */
    method CancelFiles() returns (report: seq<string>)
      modifies this`files
      ensures files == Map(old(files), CancelFile)
      ensures report == Concat(old(files), CancelReport)
    {
      report := [];
      ghost var before := files;
      MapEnds(before, CancelFile);
      for i := 0 to |files|
        invariant |files| == |before| && files == PartlyMapped(before, i, CancelFile)
        invariant report == Concat(before[..i], CancelReport)
      {
        ConcatSnoc(before[..i], before[i], CancelReport);
        TakeNext(before, i);
        MapNext(before, i, CancelFile);
        var names := CancelOne(i);
        report := report + names;
      }
    }

    method RequestCancel(now: nat) returns (report: seq<string>)
      modifies this
      ensures Value() == CancelRequested(old(Value()), now)
      ensures report == CancelEffects(old(Value()))
    {
      match state
      case Draft =>
        report := CancelFiles();
        state, updatedAt := Cancelled, now;
      case Ready =>
        report := CancelFiles();
        state, updatedAt := Cancelled, now;
      case Running =>
        report := CancelFiles();
        state, updatedAt := Cancelling, now;
      case _ =>
        report := [];
    }

    method FinishCancelIfIdle(now: nat) returns (changed: bool)
      modifies this
      ensures Value() == CancelFinished(old(Value()), now)
      ensures changed <==> old(state).Cancelling? && state.Cancelled?
    {
      if state != Cancelling {
        return false;
      }
      if exists i :: 0 <= i < |files| && IsBusy(files[i]) {
        return false;
      }
      state, updatedAt := Cancelled, now;
      return true;
    }

    method NormalizeAfterRestart(now: nat) returns (effects: RestartEffects)
      modifies this
      ensures Value() == Normalized(old(Value()), now)
      ensures effects == NormalizeEffects(old(Value()))
    {
      match state
      case Running =>
        var report := RequeueFiles();
        state, updatedAt := Ready, now;
        effects := RestartEffects(report, []);
      case Cancelling =>
        var report, entries := AbandonFiles();
        state, updatedAt := Cancelled, now;
        effects := RestartEffects(report, entries);
      case _ =>
        effects := RestartEffects([], []);
    }

    method RequeueOne(i: nat) returns (names: seq<string>)
      requires i < |files|
      modifies this`files
      ensures files == old(files)[i := RequeueFile(old(files)[i])] && names == RequeueReport(old(files)[i])
    {
      names := [];
      var file := files[i];
      if file.state.Downloading? || file.state.Verifying? {
        if file.stagingName.Some? {
          names := [file.stagingName.value];
        }
        files := files[i := file.(state := Queued, stagingName := None)];
      } else if file.state.Importing? {
        files := files[i := file.(state := Verified)];
      }
    }

    /** The loop of the `Running` branch. */
    method RequeueFiles() returns (report: seq<string>)
      modifies this`files
      ensures files == Map(old(files), RequeueFile)
      ensures report == Concat(old(files), RequeueReport)
    {
      report := [];
      ghost var before := files;
      MapEnds(before, RequeueFile);
      for i := 0 to |files|
        invariant |files| == |before| && files == PartlyMapped(before, i, RequeueFile)
        invariant report == Concat(before[..i], RequeueReport)
      {
        ConcatSnoc(before[..i], before[i], RequeueReport);
        TakeNext(before, i);
        MapNext(before, i, RequeueFile);
        var names := RequeueOne(i);
        report := report + names;
      }
    }

    method AbandonOne(i: nat) returns (names: seq<string>, entry: seq<ReconcileEntry>)
      requires i < |files|
      modifies this`files
      ensures files == old(files)[i := AbandonFile(old(files)[i])] && names == AbandonReport(old(files)[i])
      ensures entry == if old(files)[i].state.Importing? then [EntryOf(i, old(files)[i])] else []
    {
      names, entry := [], [];
      var file := files[i];
      if file.state.IsTerminal() {
        return;
      }
      if file.state.Importing? {
        files := files[i := file.(state := FileCancelled)];
        entry := [ReconcileEntry(i, file.identifier, file.fileName, file.stagingName)];
        return;
      }
      files := files[i := file.(state := FileCancelled)];
      if file.stagingName.Some? {
        names := [file.stagingName.value];
      }
    }

    /** The loop of the `Cancelling` branch. */
    method AbandonFiles() returns (report: seq<string>, entries: seq<ReconcileEntry>)
      modifies this`files
      ensures files == Map(old(files), AbandonFile)
      ensures report == Concat(old(files), AbandonReport)
      ensures entries == Reconciles(old(files))
    {
      report, entries := [], [];
      ghost var before := files;
      MapEnds(before, AbandonFile);
      for i := 0 to |files|
        invariant |files| == |before| && files == PartlyMapped(before, i, AbandonFile)
        invariant report == Concat(before[..i], AbandonReport)
        invariant entries == Reconciles(before[..i])
      {
        ConcatSnoc(before[..i], before[i], AbandonReport);
        ReconcilesNext(before, i);
        TakeNext(before, i);
        MapNext(before, i, AbandonFile);
        var names, entry := AbandonOne(i);
        report, entries := report + names, entries + entry;
      }
    }
  }
}
