/** The store itself: `recover_all` over every entry of its root. */
module Store {
  import opened Common
  import opened ImportJob
  import opened JobRuns
  import opened Recovery
  import opened Sorting

  /** What the root may hold: a job folder, a symbolic link (never followed), or a plain file. */
  datatype RootEntry = Dir(folder: Folder) | Link(target: string) | Plain(bytes: Bytes)

  type Root = map<string, RootEntry>

  datatype Event = Event(folder: string, step: FsStep)

  datatype RecoveryReconcileEntry = RecoveryReconcileEntry(
    jobId: string, index: nat, identifier: string, fileName: string, stagingName: Option<string>)

  datatype RecoveryReport = RecoveryReport(
    jobs: seq<JobData>, needsReconcile: seq<RecoveryReconcileEntry>,
    skipped: seq<string>, quarantined: seq<string>, unsupported: seq<string>)

  /** What recovery decides about one root entry. */
  datatype Verdict = Skipped | Quarantined | Unsupported | Restored(job: JobData)

  function VerdictOf(c: Codec, name: string, e: RootEntry, now: nat): Verdict {
    if !e.Dir? || !IsValidJobId(name) || !IsFile(e.folder, MANIFEST) then Skipped
    else match ManifestJob(c, e.folder)
      case None => Quarantined
      case Some(j) =>
        if j.schemaVersion > JOB_SCHEMA_VERSION then Unsupported
        else if Normalized(j, now) != j && IsDirectory(e.folder, TMP) then Skipped
        else Restored(Normalized(j, now))
  }

  function AfterRecovery(c: Codec, name: string, e: RootEntry, now: nat): RootEntry {
    if e.Dir? && IsValidJobId(name) then Dir(Recovered(c, e.folder, now)) else e
  }

  function WithOwner(name: string): ReconcileEntry -> RecoveryReconcileEntry {
    (e: ReconcileEntry) => RecoveryReconcileEntry(name, e.index, e.identifier, e.fileName, e.stagingName)
  }

  function ReconcilesOf(c: Codec, name: string, e: RootEntry): seq<RecoveryReconcileEntry> {
    if e.Dir? && IsValidJobId(name) && Readable(c, e.folder)
    then Map(NormalizeEffects(ManifestJob(c, e.folder).value).needsReconcile, WithOwner(name))
    else []
  }

  predicate ByJobId(a: JobData, b: JobData) { StringLe(a.id, b.id) }

  predicate ByOwnerAndIndex(a: RecoveryReconcileEntry, b: RecoveryReconcileEntry) {
    if a.jobId == b.jobId then a.index <= b.index else StringLe(a.jobId, b.jobId)
  }

  // ---- The report as a function of the root ----

  function Filed(r: RecoveryReport, name: string, v: Verdict, entries: seq<RecoveryReconcileEntry>): RecoveryReport {
    var s := r.(needsReconcile := r.needsReconcile + entries);
    match v
    case Skipped => s.(skipped := s.skipped + [name])
    case Quarantined => s.(quarantined := s.quarantined + [name])
    case Unsupported => s.(unsupported := s.unsupported + [name])
    case Restored(j) => s.(jobs := s.jobs + [j])
  }

  function Verdicts(c: Codec, root: Root, now: nat): map<string, Verdict> {
    map n | n in root :: VerdictOf(c, n, root[n], now)
  }

  function Entries(c: Codec, root: Root): map<string, seq<RecoveryReconcileEntry>> {
    map n | n in root :: ReconcilesOf(c, n, root[n])
  }

  /** What the loop gathers over `names`, before the final sorts. */
  function Gathered(names: seq<string>, verdicts: map<string, Verdict>,
                    entries: map<string, seq<RecoveryReconcileEntry>>): RecoveryReport
    requires forall n :: n in names ==> n in verdicts && n in entries
  {
    if names == [] then RecoveryReport([], [], [], [], [])
    else
      var n := names[|names| - 1];
      Filed(Gathered(names[..|names| - 1], verdicts, entries), n, verdicts[n], entries[n])
  }

  function InReportOrder(r: RecoveryReport): RecoveryReport {
    r.(jobs := Sort(ByJobId, r.jobs), needsReconcile := Sort(ByOwnerAndIndex, r.needsReconcile))
  }

  /** The names of the root, sorted: each exactly once. */
  ghost predicate Enumerates(names: seq<string>, root: Root) {
    && Sorted(StringLe, names)
    && (forall n :: n in names <==> n in root)
    && (forall i, j :: 0 <= i < j < |names| ==> names[i] != names[j])
  }

  // ---- The trace of a whole recovery ----

  function Tagged(name: string, steps: seq<FsStep>): seq<Event> {
    Map(steps, (s: FsStep) => Event(name, s))
  }

  function PlanOf(c: Codec, name: string, e: RootEntry, now: nat, listing: seq<string>): seq<FsStep> {
    if e.Dir? && IsValidJobId(name) then Plan(c, e.folder, now, listing) else []
  }

  /** The plans of `names`, one after the other. */
  function TraceOf(names: seq<string>, plans: map<string, seq<FsStep>>): seq<Event>
    requires forall n :: n in names ==> n in plans
  {
    if names == [] then []
    else
      var n := names[|names| - 1];
      TraceOf(names[..|names| - 1], plans) + Tagged(n, plans[n])
  }

  ghost predicate HonestListing(c: Codec, name: string, e: RootEntry, listing: seq<string>) {
    e.Dir? && IsValidJobId(name) && Readable(c, e.folder) ==> Lists(listing, Listed(c, e.folder))
  }

  /** Each of `plans` is the plan of its entry under some honest listing of its folder. */
  ghost predicate HonestPlans(c: Codec, root: Root, now: nat, names: seq<string>, plans: map<string, seq<FsStep>>) {
    forall n :: n in names ==> n in root && n in plans && IsPlanOf(c, n, root[n], now, plans[n])
  }

  ghost predicate IsPlanOf(c: Codec, n: string, e: RootEntry, now: nat, plan: seq<FsStep>) {
    exists listing :: HonestListing(c, n, e, listing) && plan == PlanOf(c, n, e, now, listing)
  }

  /** Where a sweep takes each entry. */
  function Goal(c: Codec, root0: Root, now: nat): string -> RootEntry {
    n => if n in root0 then AfterRecovery(c, n, root0[n], now) else Plain([])
  }

  /** The first `i` of `names` are at their goal, the rest as they were. */
  ghost predicate Swept(goal: string -> RootEntry, root0: Root, root: Root, names: seq<string>, i: nat) {
    && i <= |names| && root.Keys == root0.Keys
    && (forall k :: 0 <= k < |names| ==> names[k] in root0)
    && (forall k :: 0 <= k < i ==> root[names[k]] == goal(names[k]))
    && (forall k :: i <= k < |names| ==> root[names[k]] == root0[names[k]])
  }

  lemma SweepStep(goal: string -> RootEntry, root0: Root, root: Root, names: seq<string>, i: nat)
    requires Enumerates(names, root0) && Swept(goal, root0, root, names, i) && i < |names|
    ensures Swept(goal, root0, root[names[i] := goal(names[i])], names, i + 1)
  {
    assert names[i] in names;
  }

  lemma SweepDone(goal: string -> RootEntry, root0: Root, root: Root, names: seq<string>)
    requires Enumerates(names, root0) && Swept(goal, root0, root, names, |names|)
    ensures forall n :: n in root ==> root[n] == goal(n)
  {
    forall n | n in root ensures root[n] == goal(n) {
      assert n in names;
    }
  }

  function RootDo(root: Root, e: Event): Root {
    if e.folder in root && root[e.folder].Dir?
    then root[e.folder := Dir(Do(root[e.folder].folder, e.step))]
    else root
  }

  function RootExec(root: Root, events: seq<Event>): Root {
    if events == [] then root else RootDo(RootExec(root, events[..|events| - 1]), events[|events| - 1])
  }

  lemma RemovesNext(steps: seq<FsStep>, names: seq<string>, i: nat)
    requires i < |names|
    ensures steps + Removes(names[..i + 1]) == steps + Removes(names[..i]) + [Remove(names[i])]
  {
  }

  /** The steps of a trace that touch one folder. */
  function StepsIn(events: seq<Event>, name: string): seq<FsStep> {
    Map(Filter(events, (e: Event) => e.folder == name), (e: Event) => e.step)
  }

  class JobStore {
    const codec: Codec
    var root: Root
    ghost var trace: seq<Event>

    constructor (codec: Codec, root: Root)
      ensures this.codec == codec && this.root == root && trace == []
    {
      this.codec, this.root, trace := codec, root, [];
    }

    /** `this` is `root0` after `steps` inside folder `name`, and the trace says so. */
    ghost predicate Tracks(name: string, root0: Root, trace0: seq<Event>, steps: seq<FsStep>)
      reads this
    {
      && name in root0 && root0[name].Dir?
      && root == root0[name := Dir(Exec(root0[name].folder, steps))]
      && trace == trace0 + Tagged(name, steps)
    }

    /** One filesystem call inside a job folder. */
    method Perform(name: string, s: FsStep, ghost root0: Root, ghost trace0: seq<Event>, ghost steps: seq<FsStep>)
      requires Tracks(name, root0, trace0, steps)
      modifies this
      ensures Tracks(name, root0, trace0, steps + [s])
    {
      root := root[name := Dir(Do(root[name].folder, s))];
      trace := trace + [Event(name, s)];
      ExecSnoc(root0[name].folder, steps, s);
      assert Tagged(name, steps + [s]) == Tagged(name, steps) + [Event(name, s)];
    }

    /** Delete each of `names`, ignoring failures. */
    method RemoveAll(
      name: string, names: seq<string>, ghost root0: Root, ghost trace0: seq<Event>, ghost steps: seq<FsStep>)
      requires Tracks(name, root0, trace0, steps)
      modifies this
      ensures Tracks(name, root0, trace0, steps + Removes(names))
    {
      assert steps + Removes([]) == steps;
      for i := 0 to |names|
        invariant Tracks(name, root0, trace0, steps + Removes(names[..i]))
      {
        Perform(name, Remove(names[i]), root0, trace0, steps + Removes(names[..i]));
        RemovesNext(steps, names, i);
      }
      assert names[..|names|] == names;
    }

    /** `write_job_atomic`: temporary file, contents, newline, rename; fails if the temporary name is a directory. */
    method WriteJobAtomic(
      name: string, j: JobData, ghost root0: Root, ghost trace0: seq<Event>, ghost steps: seq<FsStep>)
      returns (ok: bool)
      requires Tracks(name, root0, trace0, steps)
      modifies this
      ensures ok <==> !IsDirectory(old(root)[name].folder, TMP)
      ensures Tracks(name, root0, trace0, steps + SaveSteps(codec, old(root)[name].folder, j))
    {
      if IsDirectory(root[name].folder, TMP) {
        assert steps + [] == steps;
        return false;
      }
      var bytes := codec.encode(j);
      var s1, s2, s3, s4 := Create(TMP), Write(TMP, bytes), Write(TMP, NEWLINE), Rename(TMP, MANIFEST);
      Perform(name, s1, root0, trace0, steps);
      Perform(name, s2, root0, trace0, steps + [s1]);
      Perform(name, s3, root0, trace0, steps + [s1] + [s2]);
      Perform(name, s4, root0, trace0, steps + [s1] + [s2] + [s3]);
      assert steps + [s1] + [s2] + [s3] + [s4] == steps + [s1, s2, s3, s4];
      return true;
    }

    /** Remove a temporary file left by an interrupted write. */
    method DropLeftover(name: string)
      requires name in root && root[name].Dir?
      modifies this
      ensures Tracks(name, old(root), old(trace), DropTmp(old(root)[name].folder))
    {
      ghost var root0, trace0 := root, trace;
      assert root0[name := Dir(root[name].folder)] == root0 && trace + Tagged(name, []) == trace;
      if IsFile(root[name].folder, TMP) {
        Perform(name, Remove(TMP), root0, trace0, []);
        assert [] + [Remove(TMP)] == [Remove(TMP)];
      }
    }

    /** The readable case: normalize the job, delete what it no longer needs, save it if it changed. */
    method Restore(name: string, before: JobData, now: nat, ghost root0: Root, ghost trace0: seq<Event>)
      returns (verdict: Verdict, entries: seq<ReconcileEntry>, ghost listing: seq<string>)
      requires name in root0 && root0[name].Dir? && IsValidJobId(name)
      requires Readable(codec, root0[name].folder) && ManifestJob(codec, root0[name].folder) == Some(before)
      requires Tracks(name, root0, trace0, DropTmp(root0[name].folder))
      modifies this
      ensures verdict == VerdictOf(codec, name, root0[name], now)
      ensures entries == NormalizeEffects(before).needsReconcile
      ensures Lists(listing, Listed(codec, root0[name].folder))
      ensures Tracks(name, root0, trace0, Plan(codec, root0[name].folder, now, listing))
    {
      ghost var f := root0[name].folder;
      var job := new Job(before);
      var effects := job.NormalizeAfterRestart(now);
      var after := job.Value();
      entries := effects.needsReconcile;
      ghost var s1 := DropTmp(f);
      var discarded := Filter(effects.stagingToDelete, IsConfined);
      RemoveAll(name, discarded, root0, trace0, s1);
      ghost var s2 := s1 + Removes(discarded);
      var names := ReadDir(root[name].folder.Keys);
      listing := names;
      var orphans := OrphanDeletions(before, names);
      RemoveAll(name, orphans, root0, trace0, s2);
      ghost var s3 := s2 + Removes(orphans);
      PlanOfReadable(codec, f, now, listing);
      DeletionsKeepTmp(f, discarded, orphans);
      verdict := Restored(after);
      if after != before {
        var saved := WriteJobAtomic(name, after, root0, trace0, s3);
        if !saved {
          verdict := Skipped;
        }
      } else {
        assert s3 + [] == s3;
      }
    }

    /** One root entry, from the checks on its name and type to the end of its recovery. */
    method RecoverEntry(name: string, now: nat)
      returns (verdict: Verdict, entries: seq<RecoveryReconcileEntry>, ghost plan: seq<FsStep>)
      requires name in root
      modifies this
      ensures verdict == VerdictOf(codec, name, old(root)[name], now)
      ensures entries == ReconcilesOf(codec, name, old(root)[name])
      ensures IsPlanOf(codec, name, old(root)[name], now, plan)
      ensures root == old(root)[name := AfterRecovery(codec, name, old(root)[name], now)]
      ensures trace == old(trace) + Tagged(name, plan)
    {
      ghost var listing: seq<string> := [];
      verdict, entries, plan := Skipped, [], [];
      assert root[name := root[name]] == root;
      if !root[name].Dir? || !IsValidJobId(name) {
        assert HonestListing(codec, name, root[name], listing) && plan == PlanOf(codec, name, root[name], now, listing);
        return;
      }
      ghost var root0, trace0, f := root, trace, root[name].folder;
      NamesDoNotClash(now);
      DropLeftover(name);
      ghost var steps := DropTmp(f);
      SameManifest(f);
      assert steps + [] == steps;
      if IsFile(root[name].folder, MANIFEST) {
        var parsed := codec.decode(root[name].folder[MANIFEST].bytes);
        if parsed.None? {
          Perform(name, Rename(MANIFEST, CorruptName(now)), root0, trace0, steps);
          verdict := Quarantined;
        } else if parsed.value.schemaVersion > JOB_SCHEMA_VERSION {
          verdict := Unsupported;
        } else {
          var found;
          verdict, found, listing := Restore(name, parsed.value, now, root0, trace0);
          entries := Map(found, WithOwner(name));
        }
      }
      plan := Plan(codec, f, now, listing);
      assert HonestListing(codec, name, Dir(f), listing);
      PlanAchievesRecovered(codec, f, now, listing);
    }

    /** Restart recovery over every entry of the root, in sorted order. */
    method RecoverAll(now: nat)
      returns (report: RecoveryReport, ghost names: seq<string>, ghost plans: map<string, seq<FsStep>>)
      modifies this
      ensures Enumerates(names, old(root)) && root.Keys == old(root).Keys
      ensures forall n :: n in root ==> root[n] == AfterRecovery(codec, n, old(root)[n], now)
      ensures report == InReportOrder(Gathered(names, Verdicts(codec, old(root), now), Entries(codec, old(root))))
      ensures HonestPlans(codec, old(root), now, names, plans)
      ensures trace == old(trace) + TraceOf(names, plans)
    {
      var sorted := SortedNames(root);
      names, plans := sorted, map[];
      report := RecoveryReport([], [], [], [], []);
      ghost var verdicts, allEntries := Verdicts(codec, root, now), Entries(codec, root);
      for i := 0 to |sorted|
        invariant Swept(Goal(codec, old(root), now), old(root), root, sorted, i)
        invariant HonestPlans(codec, old(root), now, sorted[..i], plans)
        invariant report == Gathered(sorted[..i], verdicts, allEntries)
        invariant trace == old(trace) + TraceOf(sorted[..i], plans)
      {
        ghost var was := root;
        var verdict, entries;
        ghost var plan;
        verdict, entries, plan := RecoverEntry(sorted[i], now);
        SweepStep(Goal(codec, old(root), now), old(root), was, sorted, i);
        FreshName(sorted, old(root), i);
        GatherUnfolds(sorted, i, verdicts, allEntries);
        TraceUnfolds(old(trace), sorted, i, plans, plan);
        PlansStep(codec, old(root), now, sorted, i, plans, plan);
        report := Filed(report, sorted[i], verdict, entries);
        plans := plans[sorted[i] := plan];
      }
      assert sorted[..|sorted|] == sorted;
      SweepDone(Goal(codec, old(root), now), old(root), root, sorted);
      report := InReportOrder(report);
    }
  }

  lemma SameManifest(f: Folder)
    ensures Exec(f, DropTmp(f)) == WithoutTmp(f)
    ensures IsFile(WithoutTmp(f), MANIFEST) <==> IsFile(f, MANIFEST)
    ensures IsFile(f, MANIFEST) ==> WithoutTmp(f)[MANIFEST] == f[MANIFEST]
  {
    DropTmpWorks(f);
    NamesDoNotClash(0);
  }

  /** The names in a directory, in whatever order they come. */
  method ReadDir(names: set<string>) returns (listing: seq<string>)
    ensures forall n :: n in listing <==> n in names
    ensures forall i, j :: 0 <= i < j < |listing| ==> listing[i] != listing[j]
  {
    var left := names;
    listing := [];
    while left != {}
      invariant left <= names && forall n :: n in names <==> n in listing || n in left
      invariant forall i :: 0 <= i < |listing| ==> listing[i] !in left
      invariant forall i, j :: 0 <= i < j < |listing| ==> listing[i] != listing[j]
    {
      var n :| n in left;
      left, listing := left - {n}, listing + [n];
    }
  }

  method SortedNames(root: Root) returns (names: seq<string>)
    ensures Enumerates(names, root)
  {
    var found := ReadDir(root.Keys);
    StringOrder();
    SortIsSorted(StringLe, found);
    names := Sort(StringLe, found);
    forall n ensures n in names <==> n in root {
      SortMembers(StringLe, found, n);
    }
    DistinctMultiset(found);
    MultisetDistinct(names);
  }

  lemma PlanOfReadable(c: Codec, f: Folder, now: nat, listing: seq<string>)
    requires Readable(c, f)
    ensures
      var j := ManifestJob(c, f).value;
      Plan(c, f, now, listing) ==
        (DropTmp(f) + Removes(StagingDeletions(j)) + Removes(OrphanDeletions(j, listing))) +
        if Normalized(j, now) != j then SaveSteps(c, f, Normalized(j, now)) else []
  {
  }

  lemma DeletionsKeepTmp(f: Folder, a: seq<string>, b: seq<string>)
    ensures IsDirectory(Exec(f, DropTmp(f) + Removes(a) + Removes(b)), TMP) <==> IsDirectory(f, TMP)
  {
    SameTmp(f, DropTmp(f) + Removes(a) + Removes(b));
  }

  /** Deletions never turn the temporary name into a directory, or out of one. */
  lemma {:induction false} SameTmp(f: Folder, steps: seq<FsStep>)
    requires forall s :: s in steps ==> s.Remove?
    ensures IsDirectory(Exec(f, steps), TMP) <==> IsDirectory(f, TMP)
  {
    if steps != [] {
      SameTmp(f, steps[..|steps| - 1]);
      assert steps[|steps| - 1] in steps;
    }
  }

  lemma GatherUnfolds(names: seq<string>, i: nat, verdicts: map<string, Verdict>,
                      entries: map<string, seq<RecoveryReconcileEntry>>)
    requires i < |names| && forall n :: n in names ==> n in verdicts && n in entries
    ensures Gathered(names[..i + 1], verdicts, entries)
            == Filed(Gathered(names[..i], verdicts, entries), names[i], verdicts[names[i]], entries[names[i]])
  {
    assert names[..i + 1][..i] == names[..i];
  }

  lemma {:induction false} TraceIgnoresOtherPlans(
    names: seq<string>, l: map<string, seq<FsStep>>, m: map<string, seq<FsStep>>)
    requires forall n :: n in names ==> n in l && n in m && l[n] == m[n]
    ensures TraceOf(names, l) == TraceOf(names, m)
  {
    if names != [] {
      TraceIgnoresOtherPlans(names[..|names| - 1], l, m);
      assert names[|names| - 1] in names;
    }
  }

  lemma PlansStep(c: Codec, root: Root, now: nat, names: seq<string>, i: nat,
                  plans: map<string, seq<FsStep>>, plan: seq<FsStep>)
    requires i < |names| && names[i] in root && names[i] !in names[..i]
    requires HonestPlans(c, root, now, names[..i], plans) && IsPlanOf(c, names[i], root[names[i]], now, plan)
    ensures HonestPlans(c, root, now, names[..i + 1], plans[names[i] := plan])
  {
    TakeNext(names, i);
  }

  lemma TraceUnfolds(trace0: seq<Event>, names: seq<string>, i: nat, plans: map<string, seq<FsStep>>, plan: seq<FsStep>)
    requires i < |names| && names[i] !in names[..i] && forall n :: n in names[..i] ==> n in plans
    ensures forall n :: n in names[..i + 1] ==> n in plans || n == names[i]
    ensures trace0 + TraceOf(names[..i + 1], plans[names[i] := plan])
            == (trace0 + TraceOf(names[..i], plans)) + Tagged(names[i], plan)
  {
    TakeNext(names, i);
    assert names[..i + 1][..i] == names[..i];
    TraceIgnoresOtherPlans(names[..i], plans, plans[names[i] := plan]);
  }

  lemma FreshName(names: seq<string>, root: Root, i: nat)
    requires Enumerates(names, root) && i < |names|
    ensures names[i] !in names[..i] && names[i] in root
  {
    assert names[i] in names;
  }

  // ---- The report ----

  /** Each root entry is counted in exactly one list. */
  lemma {:induction false} ReportCountsTheRoot(names: seq<string>, verdicts: map<string, Verdict>,
                                               entries: map<string, seq<RecoveryReconcileEntry>>)
    requires forall n :: n in names ==> n in verdicts && n in entries
    ensures
      var r := Gathered(names, verdicts, entries);
      |r.jobs| + |r.skipped| + |r.quarantined| + |r.unsupported| == |names|
  {
    if names != [] {
      ReportCountsTheRoot(names[..|names| - 1], verdicts, entries);
    }
  }

  /** And it is in the list its verdict names. */
  lemma {:induction false} ReportFollowsVerdicts(names: seq<string>, verdicts: map<string, Verdict>,
                                                 entries: map<string, seq<RecoveryReconcileEntry>>, n: string)
    requires forall m :: m in names ==> m in verdicts && m in entries
    ensures
      var r := Gathered(names, verdicts, entries);
      && (n in r.skipped <==> n in names && verdicts[n].Skipped?)
      && (n in r.quarantined <==> n in names && verdicts[n].Quarantined?)
      && (n in r.unsupported <==> n in names && verdicts[n].Unsupported?)
      && (n in names && verdicts[n].Restored? ==> verdicts[n].job in r.jobs)
  {
    if names != [] {
      var k := |names| - 1;
      var head := Gathered(names[..k], verdicts, entries);
      ReportFollowsVerdicts(names[..k], verdicts, entries, n);
      TakeNext(names, k);
      assert names == names[..k] + [names[k]];
      assert n in names <==> n in names[..k] || n == names[k];
      var v := verdicts[names[k]];
      FiledMembers(head, names[k], v, entries[names[k]], n);
    }
  }

  lemma FiledMembers(r: RecoveryReport, name: string, v: Verdict, entries: seq<RecoveryReconcileEntry>, n: string)
    ensures
      var s := Filed(r, name, v, entries);
      && (n in s.skipped <==> n in r.skipped || (n == name && v.Skipped?))
      && (n in s.quarantined <==> n in r.quarantined || (n == name && v.Quarantined?))
      && (n in s.unsupported <==> n in r.unsupported || (n == name && v.Unsupported?))
      && (forall j :: j in s.jobs <==> j in r.jobs || v == Restored(j))
  {
  }

  lemma SortsKeepTheReport(r: RecoveryReport)
    ensures
      var s := InReportOrder(r);
      && multiset(s.jobs) == multiset(r.jobs) && Sorted(ByJobId, s.jobs)
      && multiset(s.needsReconcile) == multiset(r.needsReconcile) && Sorted(ByOwnerAndIndex, s.needsReconcile)
      && s.skipped == r.skipped && s.quarantined == r.quarantined && s.unsupported == r.unsupported
  {
    StringOrder();
    assert Total(ByJobId);
    forall x, y, z | ByOwnerAndIndex(x, y) && ByOwnerAndIndex(y, z) ensures ByOwnerAndIndex(x, z) {
      StringLeTransitive(x.jobId, y.jobId, z.jobId);
      StringLeTotal(x.jobId, y.jobId);
    }
    assert Total(ByOwnerAndIndex);
    SortIsSorted(ByJobId, r.jobs);
    SortIsSorted(ByOwnerAndIndex, r.needsReconcile);
  }

  // ---- What the report says of the disk ----

  /** A job folder with a manifest file, and what that file holds. */
  ghost predicate HasManifest(c: Codec, root: Root, n: string, job: Option<JobData>) {
    && n in root && root[n].Dir? && IsValidJobId(n)
    && "job.json" in root[n].folder && root[n].folder["job.json"].File?
    && c.decode(root[n].folder["job.json"].bytes) == job
  }

  ghost predicate HoldsReadableJob(c: Codec, root: Root, n: string, j: JobData) {
    HasManifest(c, root, n, Some(j)) && j.schemaVersion <= 1
  }

  /** The job would change and cannot be saved. */
  ghost predicate CannotSave(root: Root, n: string, j: JobData, now: nat)
    requires n in root && root[n].Dir?
  {
    Normalized(j, now) != j && "job.json.tmp" in root[n].folder && root[n].folder["job.json.tmp"].Directory?
  }

  function ReportOf(c: Codec, root: Root, names: seq<string>, now: nat): RecoveryReport
    requires forall n :: n in names ==> n in root
  {
    InReportOrder(Gathered(names, Verdicts(c, root, now), Entries(c, root)))
  }

  /** Which list of the report names an entry follows from what is on disk. */
  lemma NamesInReport(c: Codec, root: Root, names: seq<string>, now: nat, n: string)
    requires forall m :: m in names <==> m in root
    ensures
      var r := ReportOf(c, root, names, now);
      && (n in r.quarantined <==> HasManifest(c, root, n, None))
      && (n in r.unsupported <==> exists j :: HasManifest(c, root, n, Some(j)) && j.schemaVersion > 1)
      && (n in r.skipped <==>
            && n in root
            && ((forall job :: !HasManifest(c, root, n, job))
                || exists j :: HoldsReadableJob(c, root, n, j) && CannotSave(root, n, j, now)))
  {
    ReportFollowsVerdicts(names, Verdicts(c, root, now), Entries(c, root), n);
    if n in root {
      VerdictIs(c, root, now, n);
    }
  }

  lemma VerdictIs(c: Codec, root: Root, now: nat, n: string)
    requires n in root
    ensures
      var v := VerdictOf(c, n, root[n], now);
      && (v.Quarantined? <==> HasManifest(c, root, n, None))
      && (v.Unsupported? <==> exists j :: HasManifest(c, root, n, Some(j)) && j.schemaVersion > 1)
      && (v.Skipped? <==>
            || (forall job :: !HasManifest(c, root, n, job))
            || exists j :: HoldsReadableJob(c, root, n, j) && CannotSave(root, n, j, now))
      && forall k :: v == Restored(k) <==>
           exists j :: HoldsReadableJob(c, root, n, j) && !CannotSave(root, n, j, now) && k == Normalized(j, now)
  {
    if root[n].Dir? && IsValidJobId(n) && IsFile(root[n].folder, MANIFEST) {
      var job := c.decode(root[n].folder[MANIFEST].bytes);
      assert HasManifest(c, root, n, job);
      if job.Some? && job.value.schemaVersion <= 1 { assert HoldsReadableJob(c, root, n, job.value); }
    }
  }

  /** The jobs reported are the readable ones, restarted, and each is what its folder then holds. */
  lemma JobsInReport(c: Codec, root: Root, names: seq<string>, now: nat, k: JobData)
    requires forall m :: m in names <==> m in root
    ensures
      k in ReportOf(c, root, names, now).jobs <==>
        exists n, j :: HoldsReadableJob(c, root, n, j) && !CannotSave(root, n, j, now) && k == Normalized(j, now)
  {
    var verdicts := Verdicts(c, root, now);
    JobsFollowVerdicts(names, verdicts, Entries(c, root), k);
    SortsKeepTheReport(Gathered(names, verdicts, Entries(c, root)));
    SortMembers(ByJobId, Gathered(names, verdicts, Entries(c, root)).jobs, k);
    forall n | n in root
      ensures verdicts[n] == Restored(k) <==>
        exists j :: HoldsReadableJob(c, root, n, j) && !CannotSave(root, n, j, now) && k == Normalized(j, now)
    {
      VerdictIs(c, root, now, n);
    }
  }

  lemma {:induction false} JobsFollowVerdicts(names: seq<string>, verdicts: map<string, Verdict>,
                                              entries: map<string, seq<RecoveryReconcileEntry>>, k: JobData)
    requires forall m :: m in names ==> m in verdicts && m in entries
    ensures k in Gathered(names, verdicts, entries).jobs <==> exists n :: n in names && verdicts[n] == Restored(k)
  {
    if names != [] {
      var i := |names| - 1;
      JobsFollowVerdicts(names[..i], verdicts, entries, k);
      FiledMembers(Gathered(names[..i], verdicts, entries), names[i], verdicts[names[i]], entries[names[i]], names[i]);
      assert forall n :: n in names <==> n in names[..i] || n == names[i];
    }
  }

  lemma {:induction false} EntriesAreGathered(names: seq<string>, verdicts: map<string, Verdict>,
                                              entries: map<string, seq<RecoveryReconcileEntry>>,
                                              e: RecoveryReconcileEntry)
    requires forall m :: m in names ==> m in verdicts && m in entries
    ensures e in Gathered(names, verdicts, entries).needsReconcile <==> exists n :: n in names && e in entries[n]
  {
    if names != [] {
      var i := |names| - 1;
      EntriesAreGathered(names[..i], verdicts, entries, e);
      assert forall n :: n in names <==> n in names[..i] || n == names[i];
    }
  }

  /** File `i` of a cancelling job was being imported. */
  ghost predicate WasImporting(c: Codec, root: Root, n: string, j: JobData, i: nat, e: RecoveryReconcileEntry) {
    && HoldsReadableJob(c, root, n, j) && j.state == Cancelling && i < |j.files| && j.files[i].state == Importing
    && e == RecoveryReconcileEntry(n, i, j.files[i].identifier, j.files[i].fileName, j.files[i].stagingName)
  }

  lemma ReconcilesOfEntry(c: Codec, root: Root, n: string, e: RecoveryReconcileEntry)
    requires n in root
    ensures e in ReconcilesOf(c, n, root[n]) <==> exists j, i: nat :: WasImporting(c, root, n, j, i, e)
  {
    if root[n].Dir? && IsValidJobId(n) && Readable(c, root[n].folder) {
      var j := ManifestJob(c, root[n].folder).value;
      assert HoldsReadableJob(c, root, n, j);
      var found := NormalizeEffects(j).needsReconcile;
      ReconcilesAreTheImportingFiles(j.files);
      assert ReconcilesOf(c, n, root[n]) == Map(found, WithOwner(n));
      if e in ReconcilesOf(c, n, root[n]) {
        var k :| 0 <= k < |found| && e == WithOwner(n)(found[k]);
        assert found[k] in found;
        assert WasImporting(c, root, n, j, found[k].index, e);
      }
      if j', i: nat :| WasImporting(c, root, n, j', i, e) {
        assert EntryOf(i, j.files[i]) in found;
        var k :| 0 <= k < |found| && found[k] == EntryOf(i, j.files[i]);
        assert Map(found, WithOwner(n))[k] == e;
      }
    }
  }

  /** To be reconciled are the imports that cancelling jobs were in the middle of. */
  lemma ReconcilesInReport(c: Codec, root: Root, names: seq<string>, now: nat, e: RecoveryReconcileEntry)
    requires forall m :: m in names <==> m in root
    ensures e in ReportOf(c, root, names, now).needsReconcile <==>
              exists n, j, i: nat :: WasImporting(c, root, n, j, i, e)
  {
    var entries := Entries(c, root);
    EntriesAreGathered(names, Verdicts(c, root, now), entries, e);
    SortsKeepTheReport(Gathered(names, Verdicts(c, root, now), entries));
    SortMembers(ByOwnerAndIndex, Gathered(names, Verdicts(c, root, now), entries).needsReconcile, e);
    forall n | n in root ensures e in entries[n] <==> exists j, i: nat :: WasImporting(c, root, n, j, i, e) {
      ReconcilesOfEntry(c, root, n, e);
    }
  }

  /** Jobs go by their id, entries by the id of their job and then by their place in it. */
  lemma ReportIsOrdered(c: Codec, root: Root, names: seq<string>, now: nat, i: nat, k: nat)
    requires forall m :: m in names <==> m in root
    ensures
      var r := ReportOf(c, root, names, now);
      && (i < k < |r.jobs| ==> StringLe(r.jobs[i].id, r.jobs[k].id))
      && (i < k < |r.needsReconcile| ==>
            var (a, b) := (r.needsReconcile[i], r.needsReconcile[k]);
            StringLe(a.jobId, b.jobId) && (a.jobId == b.jobId ==> a.index <= b.index))
  {
    SortsKeepTheReport(Gathered(names, Verdicts(c, root, now), Entries(c, root)));
    StringOrder();
  }

  /** A restored job is what its folder then holds. */
  lemma RestoredIsOnDisk(c: Codec, root: Root, now: nat, n: string, j: JobData)
    requires Lawful(c) && HoldsReadableJob(c, root, n, j) && !CannotSave(root, n, j, now)
    ensures
      var after := AfterRecovery(c, n, root[n], now);
      && after.Dir? && IsFile(after.folder, "job.json")
      && c.decode(after.folder["job.json"].bytes) == Some(Normalized(j, now))
  {
    NamesDoNotClash(now);
  }

  /**
   * Links and plain files are left alone. Of the folders that are not restored, only those skipped because their
   * job could be read but not saved lose staged PDFs, and they lose exactly the doomed ones.
   */
  lemma UnrestoredEntriesLoseNoPdf(c: Codec, name: string, e: RootEntry, now: nat, n: string)
    requires !VerdictOf(c, name, e, now).Restored?
    ensures !e.Dir? || !IsValidJobId(name) ==> AfterRecovery(c, name, e, now) == e
    ensures e.Dir? && IsFile(e.folder, n) && IsValidStagingName(n) ==>
              var after := AfterRecovery(c, name, e, now);
              && (n in after.folder ==> after.folder[n] == e.folder[n])
              && (n !in after.folder <==>
                    && IsValidJobId(name) && VerdictOf(c, name, e, now).Skipped? && Readable(c, e.folder)
                    && Doomed(ManifestJob(c, e.folder).value, n))
  {
    if e.Dir? && IsFile(e.folder, n) && IsValidStagingName(n) {
      RecoveryDeletesExactlyTheDoomed(c, e.folder, now, n);
    }
  }

  // ---- A crash anywhere in the whole sweep ----

  lemma {:induction false} RootExecIsFolderwise(root: Root, events: seq<Event>, name: string)
    requires name in root && root[name].Dir?
    ensures name in RootExec(root, events)
    ensures RootExec(root, events)[name] == Dir(Exec(root[name].folder, StepsIn(events, name)))
  {
    if events != [] {
      var k := |events| - 1;
      var head := StepsIn(events[..k], name);
      RootExecIsFolderwise(root, events[..k], name);
      StepsInSnoc(events[..k], events[k], name);
      assert events == events[..k] + [events[k]];
      if events[k].folder == name {
        ExecSnoc(root[name].folder, head, events[k].step);
      } else {
        assert head + [] == head;
      }
    }
  }

  lemma StepsInSnoc(events: seq<Event>, e: Event, name: string)
    ensures StepsIn(events + [e], name) == StepsIn(events, name) + if e.folder == name then [e.step] else []
  {
    FilterSnoc(events, e, (x: Event) => x.folder == name);
  }

  lemma TaggedNext(events: seq<Event>, other: string, steps: seq<FsStep>)
    requires steps != []
    ensures events + Tagged(other, steps)
            == (events + Tagged(other, steps[..|steps| - 1])) + [Event(other, steps[|steps| - 1])]
  {
  }

  lemma {:induction false} StepsInTagged(events: seq<Event>, other: string, steps: seq<FsStep>, name: string)
    ensures StepsIn(events + Tagged(other, steps), name)
            == StepsIn(events, name) + if other == name then steps else []
  {
    if steps == [] {
      assert events + Tagged(other, steps) == events;
    } else {
      var k := |steps| - 1;
      StepsInTagged(events, other, steps[..k], name);
      TaggedNext(events, other, steps);
      StepsInSnoc(events + Tagged(other, steps[..k]), Event(other, steps[k]), name);
      assert steps == steps[..k] + [steps[k]];
    }
  }

  /** A folder's steps in the whole trace are exactly its own plan. */
  lemma {:induction false} TraceHoldsEachPlan(names: seq<string>, plans: map<string, seq<FsStep>>, name: string)
    requires forall n :: n in names ==> n in plans
    requires forall i, j :: 0 <= i < j < |names| ==> names[i] != names[j]
    ensures StepsIn(TraceOf(names, plans), name) == if name in names then plans[name] else []
  {
    if names != [] {
      var k := |names| - 1;
      TraceHoldsEachPlan(names[..k], plans, name);
      StepsInTagged(TraceOf(names[..k], plans), names[k], plans[names[k]], name);
      TakeNext(names, k);
      assert names == names[..k] + [names[k]];
    }
  }

  lemma {:induction false} StepsOfPrefix(events: seq<Event>, k: nat, name: string) returns (d: nat)
    requires k <= |events|
    ensures d <= |StepsIn(events, name)| && StepsIn(events[..k], name) == StepsIn(events, name)[..d]
  {
    if k == |events| {
      d := |StepsIn(events, name)|;
      assert events[..k] == events;
    } else {
      var n := |events| - 1;
      d := StepsOfPrefix(events[..n], k, name);
      assert events[..n][..k] == events[..k];
      StepsInSnoc(events[..n], events[n], name);
      assert events == events[..n] + [events[n]];
    }
  }

  /** Where a crash after `k` steps of a sweep leaves the root; `cut` bytes of a write in progress arrive. */
  function RootCrashed(root: Root, events: seq<Event>, k: nat, cut: nat): Root
    requires k <= |events|
  {
    var g := RootExec(root, events[..k]);
    if k < |events| && events[k].step.Write? && cut <= |events[k].step.bytes|
    then RootDo(g, Event(events[k].folder, Write(events[k].step.name, events[k].step.bytes[..cut])))
    else g
  }

  /** The next step of a trace is the next step of its folder's plan. */
  lemma NextOwnStep(events: seq<Event>, k: nat, d: nat, plan: seq<FsStep>)
    requires k < |events| && StepsIn(events, events[k].folder) == plan
    requires d <= |plan| && StepsIn(events[..k], events[k].folder) == plan[..d]
    ensures d < |plan| && plan[d] == events[k].step
  {
    var name := events[k].folder;
    var e := StepsOfPrefix(events, k + 1, name);
    TakeNext(events, k);
    StepsInSnoc(events[..k], events[k], name);
    assert plan[..e] == plan[..d] + [events[k].step];
    assert plan[..e][d] == events[k].step;
  }

  /**
   * Cut the whole sweep after any number of filesystem steps, or inside a write: every job folder is then where
   * a crash of its own recovery would leave it.
   */
  lemma SweepCrashIsFolderCrash(c: Codec, root: Root, now: nat, names: seq<string>,
                                plans: map<string, seq<FsStep>>, k: nat, cut: nat, name: string) returns (a: Attempt)
    requires Enumerates(names, root) && HonestPlans(c, root, now, names, plans)
    requires k <= |TraceOf(names, plans)|
    requires name in root && root[name].Dir? && IsValidJobId(name)
    ensures Honest(c, root[name].folder, a) && a.now == now
    ensures name in RootCrashed(root, TraceOf(names, plans), k, cut)
    ensures RootCrashed(root, TraceOf(names, plans), k, cut)[name] == Dir(Tried(c, root[name].folder, a))
  {
    var events, f := TraceOf(names, plans), root[name].folder;
    assert name in names;
    TraceHoldsEachPlan(names, plans, name);
    var d := StepsOfPrefix(events, k, name);
    RootExecIsFolderwise(root, events[..k], name);
    var listing :|
      HonestListing(c, name, root[name], listing) && plans[name] == PlanOf(c, name, root[name], now, listing);
    if k < |events| && events[k].folder == name {
      NextOwnStep(events, k, d, plans[name]);
      a := Attempt(now, listing, d, cut);
    } else {
      a := CutAt(c, f, plans[name], now, listing, d);
    }
  }

  lemma CutAt(c: Codec, f: Folder, plan: seq<FsStep>, now: nat, listing: seq<string>, d: nat) returns (a: Attempt)
    requires plan == Plan(c, f, now, listing) && d <= |plan|
    ensures a.now == now && a.listing == listing && Tried(c, f, a) == Exec(f, plan[..d])
  {
    a := Attempt(now, listing, d, if d < |plan| && plan[d].Write? then |plan[d].bytes| + 1 else 0);
    assert plan[..|plan|] == plan;
  }

  /** `after` is what a sweep of `before` left behind: complete, cut after some step, or cut inside a write. */
  ghost predicate IsCutSweep(c: Codec, before: Root, after: Root) {
    exists now, names, plans, k: nat, cut: nat ::
      && Enumerates(names, before) && HonestPlans(c, before, now, names, plans)
      && k <= |TraceOf(names, plans)| && after == RootCrashed(before, TraceOf(names, plans), k, cut)
  }

  ghost predicate IsSweepHistory(c: Codec, roots: seq<Root>) {
    roots != [] && forall i :: 0 <= i < |roots| - 1 ==> IsCutSweep(c, roots[i], roots[i + 1])
  }

  /** Seen from one job folder, a history of cut sweeps is a history of cut recoveries of that folder. */
  lemma {:induction false} HistoryOfOneFolder(c: Codec, roots: seq<Root>, name: string) returns (attempts: seq<Attempt>)
    requires IsSweepHistory(c, roots) && name in roots[0] && roots[0][name].Dir? && IsValidJobId(name)
    ensures AllHonest(c, roots[0][name].folder, attempts)
    ensures name in roots[|roots| - 1]
    ensures roots[|roots| - 1][name] == Dir(AfterAll(c, roots[0][name].folder, attempts))
  {
    attempts := [];
    if |roots| > 1 {
      var k := |roots| - 2;
      var init := roots[..k + 1];
      forall i | 0 <= i < |init| - 1 ensures IsCutSweep(c, init[i], init[i + 1]) {
        assert IsCutSweep(c, roots[i], roots[i + 1]);
      }
      var earlier := HistoryOfOneFolder(c, init, name);
      assert IsCutSweep(c, roots[k], roots[k + 1]);
      var now, names, plans, done: nat, cut: nat :|
        && Enumerates(names, roots[k]) && HonestPlans(c, roots[k], now, names, plans)
        && done <= |TraceOf(names, plans)| && roots[k + 1] == RootCrashed(roots[k], TraceOf(names, plans), done, cut);
      var a := SweepCrashIsFolderCrash(c, roots[k], now, names, plans, done, cut, name);
      attempts := earlier + [a];
      HonestAppend(c, roots[0][name].folder, earlier, a);
    }
  }

  lemma HonestAppend(c: Codec, f: Folder, attempts: seq<Attempt>, a: Attempt)
    requires AllHonest(c, f, attempts) && Honest(c, AfterAll(c, f, attempts), a)
    ensures AllHonest(c, f, attempts + [a])
    ensures AfterAll(c, f, attempts + [a]) == Tried(c, AfterAll(c, f, attempts), a)
  {
    assert (attempts + [a])[..|attempts|] == attempts;
    forall i | 0 <= i < |attempts| ensures Honest(c, AfterAll(c, f, (attempts + [a])[..i]), (attempts + [a])[i]) {
      StillHonest(c, f, attempts, a, i);
    }
  }

  lemma StillHonest(c: Codec, f: Folder, attempts: seq<Attempt>, a: Attempt, i: nat)
    requires AllHonest(c, f, attempts) && i < |attempts|
    ensures Honest(c, AfterAll(c, f, (attempts + [a])[..i]), (attempts + [a])[i])
  {
    SamePrefix(attempts, a, i);
  }

  lemma SamePrefix(attempts: seq<Attempt>, a: Attempt, i: nat)
    requires i < |attempts|
    ensures (attempts + [a])[..i] == attempts[..i] && (attempts + [a])[i] == attempts[i]
  {
  }

  /** Over any history of recoveries of the whole store, cut or not, no staged PDF outside the doomed set is lost. */
  lemma StagedFilesSurviveEveryHistory(c: Codec, roots: seq<Root>, name: string, n: string)
    requires Lawful(c) && IsSweepHistory(c, roots)
    requires name in roots[0] && roots[0][name].Dir? && IsValidJobId(name)
    requires IsFile(roots[0][name].folder, n) && IsValidStagingName(n)
    requires Readable(c, roots[0][name].folder) ==> !Doomed(ManifestJob(c, roots[0][name].folder).value, n)
    ensures
      var last := roots[|roots| - 1];
      && name in last && last[name].Dir? && n in last[name].folder
      && last[name].folder[n] == roots[0][name].folder[n]
  {
    var attempts := HistoryOfOneFolder(c, roots, name);
    StagedFilesSurvive(c, roots[0][name].folder, attempts, n);
  }

  /** The staged PDF of file `i` of job `j`, if it was in the folder, is there unchanged. */
  ghost predicate StagingIsSafe(j: JobData, i: nat, before: Folder, after: RootEntry)
    requires i < |j.files|
  {
    j.files[i].stagingName.Some? && IsValidStagingName(j.files[i].stagingName.value)
    && IsFile(before, j.files[i].stagingName.value) ==>
      var n := j.files[i].stagingName.value;
      after.Dir? && n in after.folder && after.folder[n] == before[n]
  }

  /**
   * Data safety. In a job with pairwise distinct staging names, every file that is `Verified` after the restart
   * and every file to be reconciled, if its own staging name is well formed, still has its staged PDF, after any
   * number of recoveries of the whole store, each of them complete or cut anywhere.
   */
  lemma KeptFilesSurviveEveryHistory(c: Codec, roots: seq<Root>, name: string, j: JobData)
    requires Lawful(c) && IsSweepHistory(c, roots)
    requires name in roots[0] && roots[0][name].Dir? && IsValidJobId(name)
    requires Readable(c, roots[0][name].folder) && ManifestJob(c, roots[0][name].folder) == Some(j)
    requires DistinctStaging(j)
    ensures
      var last := roots[|roots| - 1];
      name in last && forall i: nat :: IsKept(j, i) ==> StagingIsSafe(j, i, roots[0][name].folder, last[name])
  {
    var attempts := HistoryOfOneFolder(c, roots, name);
    forall i: nat | IsKept(j, i)
      ensures StagingIsSafe(j, i, roots[0][name].folder, roots[|roots| - 1][name])
    {
      var staged := j.files[i].stagingName;
      if staged.Some? && IsValidStagingName(staged.value) && IsFile(roots[0][name].folder, staged.value) {
        DistinctNamesProtectKeptStaging(j, i, j.files[i].stagingName.value);
        StagedFilesSurviveEveryHistory(c, roots, name, j.files[i].stagingName.value);
      }
    }
  }
}
