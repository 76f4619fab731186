/**
 * Recovery of one job folder, as the list of filesystem steps `recover_all` performs on it,
 * and what a crash between (or inside) any two of those steps can leave behind.
 */
module Recovery {
  import opened Common
  import opened ImportJob
  import opened JobRuns

  const MANIFEST: string := "job.json"
  const TMP: string := "job.json.tmp"
  const NEWLINE: Bytes := [10]

  datatype Entry = File(bytes: Bytes) | Directory

  type Folder = map<string, Entry>

  /** How jobs are written and read back; a lawful one reads back what it wrote. */
  datatype Codec = Codec(encode: JobData -> Bytes, decode: Bytes -> Option<JobData>)

  ghost predicate Lawful(c: Codec) {
    forall j: JobData :: c.decode(c.encode(j) + NEWLINE) == Some(j)
  }

  // ---- Names ----

  predicate IsHex(c: char) { '0' <= c <= '9' || 'a' <= c <= 'f' }

  predicate IsValidJobId(id: string) {
    && |id| == 36
    && id[8] == id[13] == id[18] == id[23] == '-'
    && forall i :: 0 <= i < 36 && i !in {8, 13, 18, 23} ==> IsHex(id[i])
  }

  predicate IsValidStagingName(name: string) {
    |name| == 40 && name[36..] == ".pdf" && IsValidJobId(name[..36])
  }

  /** One path component that cannot leave its folder. */
  predicate IsConfined(name: string) {
    name != "" && name != "." && name != ".." && '/' !in name
  }

  function CorruptName(now: nat): string { "job.json.corrupt-" + Decimal(now) }

  lemma NamesDoNotClash(now: nat)
    ensures !IsValidStagingName(MANIFEST) && !IsValidStagingName(TMP) && !IsValidStagingName(CorruptName(now))
    ensures CorruptName(now) != MANIFEST && CorruptName(now) != TMP && MANIFEST != TMP
  {
    var name := CorruptName(now);
    assert name[|name| - 1] == Decimal(now)[|Decimal(now)| - 1];
    if |name| == 40 {
      assert name[36..][3] == name[39];
    }
  }

  // ---- Filesystem steps ----

  datatype FsStep =
    | Remove(name: string)
    | Create(name: string)
    | Write(name: string, bytes: Bytes)
    | Rename(src: string, dst: string)

  predicate IsFile(f: Folder, n: string) { n in f && f[n].File? }

  predicate IsDirectory(f: Folder, n: string) { n in f && f[n].Directory? }

  /** One step; a step the filesystem would refuse changes nothing. */
  function Do(f: Folder, s: FsStep): Folder {
    match s
    case Remove(n) => if IsFile(f, n) then f - {n} else f
    case Create(n) => if IsDirectory(f, n) then f else f[n := File([])]
    case Write(n, b) => if IsFile(f, n) then f[n := File(f[n].bytes + b)] else f
    case Rename(a, b) => if IsFile(f, a) && !IsDirectory(f, b) then (f - {a})[b := f[a]] else f
  }

  function Exec(f: Folder, steps: seq<FsStep>): Folder {
    if steps == [] then f else Do(Exec(f, steps[..|steps| - 1]), steps[|steps| - 1])
  }

  lemma {:induction false} ExecAppend(f: Folder, s: seq<FsStep>, t: seq<FsStep>)
    ensures Exec(f, s + t) == Exec(Exec(f, s), t)
  {
    if t == [] {
      assert s + t == s;
    } else {
      var n := |t| - 1;
      assert (s + t)[..|s| + n] == s + t[..n];
      ExecAppend(f, s, t[..n]);
    }
  }

  lemma ExecSnoc(f: Folder, s: seq<FsStep>, x: FsStep)
    ensures Exec(f, s + [x]) == Do(Exec(f, s), x)
  {
    assert (s + [x])[..|s|] == s;
  }

  // ---- The plan of one recovery ----

  function ManifestJob(c: Codec, f: Folder): Option<JobData> {
    if IsFile(f, MANIFEST) then c.decode(f[MANIFEST].bytes) else None
  }

  /** The folder holds a job this build can read. */
  predicate Readable(c: Codec, f: Folder) {
    ManifestJob(c, f).Some? && ManifestJob(c, f).value.schemaVersion <= JOB_SCHEMA_VERSION
  }

  function ReconcileNames(j: JobData): seq<string> {
    Concat(NormalizeEffects(j).needsReconcile,
           (e: ReconcileEntry) => if e.stagingName.Some? then [e.stagingName.value] else [])
  }

  function References(j: JobData): seq<string> { Concat(j.files, Name) }

  /** A staged PDF no file and no reconcile entry of the restarted job names. */
  predicate IsOrphan(j: JobData, n: string) {
    && IsValidStagingName(n)
    && n !in References(Normalized(j, 0))
    && n !in ReconcileNames(j)
  }

  /** The names a recovery of job `j` deletes. */
  predicate Doomed(j: JobData, n: string) {
    (n in NormalizeEffects(j).stagingToDelete && IsConfined(n)) || IsOrphan(j, n)
  }

  function Removes(names: seq<string>): seq<FsStep> { Map(names, (n: string) => Remove(n)) }

  function DropTmp(f: Folder): seq<FsStep> { if IsFile(f, TMP) then [Remove(TMP)] else [] }

  function StagingDeletions(j: JobData): seq<string> {
    Filter(NormalizeEffects(j).stagingToDelete, IsConfined)
  }

  function OrphanDeletions(j: JobData, listing: seq<string>): seq<string> {
    Filter(listing, n => IsOrphan(j, n))
  }

  function SaveSteps(c: Codec, f: Folder, j: JobData): seq<FsStep> {
    if IsDirectory(f, TMP) then []
    else [Create(TMP), Write(TMP, c.encode(j)), Write(TMP, NEWLINE), Rename(TMP, MANIFEST)]
  }

  /** Every step of one recovery at time `now`, when the folder lists itself as `listing`. */
  function Plan(c: Codec, f: Folder, now: nat, listing: seq<string>): seq<FsStep> {
    DropTmp(f) +
    if !IsFile(f, MANIFEST) then []
    else if ManifestJob(c, f).None? then [Rename(MANIFEST, CorruptName(now))]
    else if !Readable(c, f) then []
    else
      var j := ManifestJob(c, f).value;
      var k := Normalized(j, now);
      Removes(StagingDeletions(j)) + Removes(OrphanDeletions(j, listing)) +
      if k != j then SaveSteps(c, f, k) else []
  }

  /** The folder as the orphan pass finds it. */
  function Listed(c: Codec, f: Folder): Folder {
    if Readable(c, f)
    then Exec(f, DropTmp(f) + Removes(StagingDeletions(ManifestJob(c, f).value)))
    else f
  }

  ghost predicate Lists(listing: seq<string>, f: Folder) {
    forall n :: n in listing <==> n in f
  }

  // ---- What an uninterrupted recovery achieves ----

  function WithoutTmp(f: Folder): Folder { if IsFile(f, TMP) then f - {TMP} else f }

  function Survivors(j: JobData, f: Folder): Folder {
    map n | n in f && !(f[n].File? && Doomed(j, n)) :: f[n]
  }

  /** The folder after one uninterrupted recovery at `now`, in closed form. */
  function Recovered(c: Codec, f: Folder, now: nat): Folder {
    var g := WithoutTmp(f);
    if !IsFile(f, MANIFEST) then g
    else if ManifestJob(c, f).None? then Do(g, Rename(MANIFEST, CorruptName(now)))
    else if !Readable(c, f) then g
    else
      var j := ManifestJob(c, f).value;
      var k := Normalized(j, now);
      if k == j || IsDirectory(f, TMP) then Survivors(j, g)
      else Survivors(j, g)[MANIFEST := File(c.encode(k) + NEWLINE)]
  }

  lemma {:induction false} ExecRemoves(f: Folder, names: seq<string>)
    ensures Exec(f, Removes(names)) == map n | n in f && !(f[n].File? && n in names) :: f[n]
  {
    if names != [] {
      var n := |names| - 1;
      ExecRemoves(f, names[..n]);
      assert Removes(names)[..n] == Removes(names[..n]);
      assert forall x :: x in names <==> x in names[..n] || x == names[n];
    }
  }

  lemma DeletionsAreTheDoomed(j: JobData, f: Folder, listing: seq<string>)
    requires Lists(listing, Exec(f, Removes(StagingDeletions(j))))
    ensures Exec(f, Removes(StagingDeletions(j)) + Removes(OrphanDeletions(j, listing))) == Survivors(j, f)
  {
    var first, second := StagingDeletions(j), OrphanDeletions(j, listing);
    var mid := Exec(f, Removes(first));
    ExecAppend(f, Removes(first), Removes(second));
    ExecRemoves(f, first);
    ExecRemoves(mid, second);
    forall n ensures n in first <==> n in NormalizeEffects(j).stagingToDelete && IsConfined(n) {
      FilterMember(NormalizeEffects(j).stagingToDelete, IsConfined, n);
    }
    forall n ensures n in second <==> n in listing && IsOrphan(j, n) {
      FilterMember(listing, m => IsOrphan(j, m), n);
    }
  }

  lemma ExecSave(c: Codec, f: Folder, j: JobData)
    requires !IsFile(f, TMP) && !IsDirectory(f, MANIFEST)
    ensures Exec(f, SaveSteps(c, f, j))
            == if IsDirectory(f, TMP) then f else f[MANIFEST := File(c.encode(j) + NEWLINE)]
  {
    if !IsDirectory(f, TMP) {
      NamesDoNotClash(0);
      var s1, s2, s3, s4 := Create(TMP), Write(TMP, c.encode(j)), Write(TMP, NEWLINE), Rename(TMP, MANIFEST);
      ExecSnoc(f, [], s1);
      ExecSnoc(f, [s1], s2);
      ExecSnoc(f, [s1, s2], s3);
      ExecSnoc(f, [s1, s2, s3], s4);
      assert [] + [s1] == [s1] && [s1] + [s2] == [s1, s2] && [s1, s2] + [s3] == [s1, s2, s3];
      assert [s1, s2, s3] + [s4] == SaveSteps(c, f, j);
      assert Exec(f, [s1]) == f[TMP := File([])];
      assert Exec(f, [s1, s2]) == f[TMP := File([] + c.encode(j))];
      assert [] + c.encode(j) == c.encode(j);
      assert Exec(f, [s1, s2, s3]) == f[TMP := File(c.encode(j) + NEWLINE)];
    }
  }

  lemma DropTmpWorks(f: Folder)
    ensures Exec(f, DropTmp(f)) == WithoutTmp(f)
  {
    if IsFile(f, TMP) {
      assert [Remove(TMP)][..0] == [];
    }
  }

  lemma ListedFolder(c: Codec, f: Folder)
    requires Readable(c, f)
    ensures Listed(c, f) == Exec(WithoutTmp(f), Removes(StagingDeletions(ManifestJob(c, f).value)))
  {
    ExecAppend(f, DropTmp(f), Removes(StagingDeletions(ManifestJob(c, f).value)));
    DropTmpWorks(f);
  }

  /** The steps of an uninterrupted recovery add up to the closed form, in whatever order the folder is listed. */
  lemma PlanAchievesRecovered(c: Codec, f: Folder, now: nat, listing: seq<string>)
    requires Readable(c, f) ==> Lists(listing, Listed(c, f))
    ensures Exec(f, Plan(c, f, now, listing)) == Recovered(c, f, now)
  {
    var drop, g := DropTmp(f), WithoutTmp(f);
    NamesDoNotClash(now);
    DropTmpWorks(f);
    if !IsFile(f, MANIFEST) {
      assert Plan(c, f, now, listing) == drop;
    } else if ManifestJob(c, f).None? {
      var last := Rename(MANIFEST, CorruptName(now));
      assert (drop + [last])[..|drop|] == drop;
    } else if !Readable(c, f) {
      assert Plan(c, f, now, listing) == drop;
    } else {
      var j := ManifestJob(c, f).value;
      var k := Normalized(j, now);
      var dels := Removes(StagingDeletions(j)) + Removes(OrphanDeletions(j, listing));
      var save := if k != j then SaveSteps(c, f, k) else [];
      assert Plan(c, f, now, listing) == drop + (dels + save);
      ExecAppend(f, drop, dels + save);
      DeleteThenSave(c, f, now, listing);
    }
  }

  lemma DeleteThenSave(c: Codec, f: Folder, now: nat, listing: seq<string>)
    requires Readable(c, f) && Lists(listing, Listed(c, f))
    ensures
      var j := ManifestJob(c, f).value;
      var k := Normalized(j, now);
      Exec(WithoutTmp(f), Removes(StagingDeletions(j)) + Removes(OrphanDeletions(j, listing))
                          + if k != j then SaveSteps(c, f, k) else [])
      == Recovered(c, f, now)
  {
    var g, j := WithoutTmp(f), ManifestJob(c, f).value;
    var k := Normalized(j, now);
    var dels := Removes(StagingDeletions(j)) + Removes(OrphanDeletions(j, listing));
    ListedFolder(c, f);
    DeletionsAreTheDoomed(j, g, listing);
    NamesDoNotClash(now);
    if k != j {
      ExecAppend(g, dels, SaveSteps(c, f, k));
      assert SaveSteps(c, f, k) == SaveSteps(c, Survivors(j, g), k);
      ExecSave(c, Survivors(j, g), k);
    } else {
      assert dels + [] == dels;
    }
  }

  // ---- Crashes ----

  /** A job that does not ask for its own manifest to be deleted. */
  predicate Sane(c: Codec, f: Folder) {
    Readable(c, f) ==> MANIFEST !in NormalizeEffects(ManifestJob(c, f).value).stagingToDelete
  }

  /** `g` is `f` in the middle of a recovery: same manifest, some doomed files gone, any temporary file. */
  ghost predicate Pending(c: Codec, f: Folder, g: Folder) {
    && (MANIFEST in f <==> MANIFEST in g)
    && (MANIFEST in f ==> g[MANIFEST] == f[MANIFEST])
    && (forall n :: n in g && n != TMP ==> n in f && g[n] == f[n])
    && (forall n :: n in f && n !in g && n != TMP ==>
          Readable(c, f) && f[n].File? && Doomed(ManifestJob(c, f).value, n))
    && (IsDirectory(f, TMP) <==> IsDirectory(g, TMP))
  }

  lemma PendingRecovers(c: Codec, f: Folder, g: Folder, now: nat)
    requires Pending(c, f, g)
    ensures Sane(c, f) <==> Sane(c, g)
    ensures Recovered(c, g, now) == Recovered(c, f, now)
  {
    NamesDoNotClash(now);
    assert ManifestJob(c, f) == ManifestJob(c, g);
    var f', g' := WithoutTmp(f), WithoutTmp(g);
    if Readable(c, f) {
      var j := ManifestJob(c, f).value;
      assert Survivors(j, f') == Survivors(j, g');
    } else {
      assert f' == g';
    }
  }

  lemma PendingIsTransitive(c: Codec, f: Folder, g: Folder, h: Folder)
    requires Pending(c, f, g) && Pending(c, g, h)
    ensures Pending(c, f, h)
  {
    assert ManifestJob(c, f) == ManifestJob(c, g);
  }

  /** The steps that leave a folder `Pending`. */
  predicate Benign(c: Codec, f: Folder, s: FsStep) {
    match s
    case Remove(n) => n == TMP || (Readable(c, f) && n != MANIFEST && Doomed(ManifestJob(c, f).value, n))
    case Create(n) => n == TMP
    case Write(n, _) => n == TMP
    case Rename(_, _) => false
  }

  lemma BenignStepStaysPending(c: Codec, f: Folder, g: Folder, s: FsStep)
    requires Pending(c, f, g) && Benign(c, f, s)
    ensures Pending(c, f, Do(g, s))
  {
    NamesDoNotClash(0);
  }

  lemma {:induction false} BenignStepsStayPending(c: Codec, f: Folder, g: Folder, steps: seq<FsStep>)
    requires Pending(c, f, g) && AllBenign(c, f, steps)
    ensures Pending(c, f, Exec(g, steps))
  {
    if steps != [] {
      var n := |steps| - 1;
      BenignStepsStayPending(c, f, g, steps[..n]);
      assert steps[n] in steps;
      BenignStepStaysPending(c, f, Exec(g, steps[..n]), steps[n]);
    }
  }

  ghost predicate AllBenign(c: Codec, f: Folder, steps: seq<FsStep>) {
    forall s :: s in steps ==> Benign(c, f, s)
  }

  lemma RemovesAreBenign(c: Codec, f: Folder, names: seq<string>)
    requires forall n :: n in names ==> Readable(c, f) && n != MANIFEST && Doomed(ManifestJob(c, f).value, n)
    ensures AllBenign(c, f, Removes(names))
  {
    forall s | s in Removes(names) ensures Benign(c, f, s) {
      var i :| 0 <= i < |names| && Removes(names)[i] == s;
      assert names[i] in names;
    }
  }

  /** A plan is benign steps closed by at most one rename. */
  lemma PlanIsBenignBeforeItsRename(c: Codec, f: Folder, now: nat, listing: seq<string>)
    returns (body: seq<FsStep>, close: seq<FsStep>)
    requires Sane(c, f)
    ensures Plan(c, f, now, listing) == body + close
    ensures AllBenign(c, f, body) && |close| <= 1 && (close != [] ==> close[0].Rename?)
  {
    body, close := DropTmp(f), [];
    if IsFile(f, MANIFEST) && ManifestJob(c, f).None? {
      close := [Rename(MANIFEST, CorruptName(now))];
    } else if Readable(c, f) {
      var j := ManifestJob(c, f).value;
      var k := Normalized(j, now);
      NamesDoNotClash(now);
      forall n | n in StagingDeletions(j) ensures n != MANIFEST && Doomed(j, n) {
        FilterMember(NormalizeEffects(j).stagingToDelete, IsConfined, n);
      }
      forall n | n in OrphanDeletions(j, listing) ensures n != MANIFEST && Doomed(j, n) {
        FilterMember(listing, m => IsOrphan(j, m), n);
      }
      RemovesAreBenign(c, f, StagingDeletions(j));
      RemovesAreBenign(c, f, OrphanDeletions(j, listing));
      body := body + (Removes(StagingDeletions(j)) + Removes(OrphanDeletions(j, listing)));
      if k != j && !IsDirectory(f, TMP) {
        body := body + [Create(TMP), Write(TMP, c.encode(k)), Write(TMP, NEWLINE)];
        close := [Rename(TMP, MANIFEST)];
      }
    }
  }

  /** Where a crash after `done` steps leaves a folder; `cut` bytes of a write in progress arrive. */
  function Crashed(f: Folder, plan: seq<FsStep>, done: nat, cut: nat): Folder {
    if done >= |plan| then Exec(f, plan)
    else
      var g := Exec(f, plan[..done]);
      if plan[done].Write? && cut <= |plan[done].bytes|
      then Do(g, Write(plan[done].name, plan[done].bytes[..cut]))
      else g
  }

  /** One run of recovery, cut short after `done` steps (or complete, when there are no more). */
  datatype Attempt = Attempt(now: nat, listing: seq<string>, done: nat, cut: nat)

  ghost predicate Honest(c: Codec, f: Folder, a: Attempt) {
    Readable(c, f) ==> Lists(a.listing, Listed(c, f))
  }

  function Tried(c: Codec, f: Folder, a: Attempt): Folder {
    Crashed(f, Plan(c, f, a.now, a.listing), a.done, a.cut)
  }

  lemma AttemptOutcome(c: Codec, f: Folder, a: Attempt)
    requires Sane(c, f) && Honest(c, f, a)
    ensures Pending(c, f, Tried(c, f, a)) || Tried(c, f, a) == Recovered(c, f, a.now)
  {
    var plan := Plan(c, f, a.now, a.listing);
    if a.done >= |plan| {
      PlanAchievesRecovered(c, f, a.now, a.listing);
    } else {
      var body, close := PlanIsBenignBeforeItsRename(c, f, a.now, a.listing);
      assert a.done <= |body| && plan[..a.done] == body[..a.done];
      assert plan[a.done] in body || plan[a.done].Rename?;
      BenignStepsStayPending(c, f, f, plan[..a.done]);
      if plan[a.done].Write? && a.cut <= |plan[a.done].bytes| {
        BenignStepStaysPending(c, f, Exec(f, plan[..a.done]),
                               Write(plan[a.done].name, plan[a.done].bytes[..a.cut]));
      }
    }
  }

  function AfterAll(c: Codec, f: Folder, attempts: seq<Attempt>): Folder {
    if attempts == [] then f
    else Tried(c, AfterAll(c, f, attempts[..|attempts| - 1]), attempts[|attempts| - 1])
  }

  ghost predicate AllHonest(c: Codec, f: Folder, attempts: seq<Attempt>) {
    forall i :: 0 <= i < |attempts| ==> Honest(c, AfterAll(c, f, attempts[..i]), attempts[i])
  }

  // ---- A recovered folder is settled ----

  lemma RestartKeepsReconcileReferences(j: JobData, now: nat, n: string)
    ensures n in ReconcileNames(j) ==> n in References(Normalized(j, now))
    ensures References(Normalized(j, now)) == References(Normalized(j, 0))
  {
    if n in ReconcileNames(j) {
      var entries := NormalizeEffects(j).needsReconcile;
      var name := (e: ReconcileEntry) => if e.stagingName.Some? then [e.stagingName.value] else [];
      ConcatMember(entries, name, n);
      var i :| 0 <= i < |entries| && n in name(entries[i]);
      ReconcilesAreTheImportingFiles(j.files);
      assert entries[i] in Reconciles(j.files);
      var files := Normalized(j, now).files;
      assert n in Name(files[entries[i].index]);
      ConcatMember(files, Name, n);
    }
  }

  lemma SavedJobDoomsNoSurvivor(j: JobData, now: nat, n: string)
    ensures Doomed(Normalized(j, now), n) ==> Doomed(j, n)
  {
    var k := Normalized(j, now);
    RestartKeepsReconcileReferences(j, now, n);
    RestartKeepsReconcileReferences(k, now, n);
    assert Normalized(k, 0) == k || k == j;
    assert NormalizeEffects(k) == RestartEffects([], []) || k == j;
  }

  /** A directory stands where the recovery would put the quarantined manifest, or the new one's temporary file. */
  predicate IsBlocked(c: Codec, f: Folder, now: nat) {
    IsFile(f, MANIFEST) &&
    match ManifestJob(c, f)
    case None => IsDirectory(f, CorruptName(now))
    case Some(j) => Readable(c, f) && Normalized(j, now) != j && IsDirectory(f, TMP)
  }

  /** After a complete recovery nothing is left to do, unless it was blocked with the manifest still there. */
  lemma RecoveredIsSettled(c: Codec, f: Folder, t0: nat, t1: nat)
    requires Lawful(c)
    ensures Sane(c, Recovered(c, f, t0))
    ensures if IsBlocked(c, f, t0) && Sane(c, f) then Pending(c, f, Recovered(c, f, t0))
            else Recovered(c, Recovered(c, f, t0), t1) == Recovered(c, f, t0)
  {
    NamesDoNotClash(t0);
    NamesDoNotClash(t1);
    var r := Recovered(c, f, t0);
    if Readable(c, f) {
      var j := ManifestJob(c, f).value;
      var k := Normalized(j, t0);
      if Sane(c, f) { SurvivorsKeepTheManifest(c, f); } else { InsaneJobsChange(c, f, t0); }
      if k == j {
        assert Survivors(j, r) == r;
      } else if IsDirectory(f, TMP) {
        if Sane(c, f) { assert Pending(c, f, r); }
      } else {
        SavedIsSettled(c, f, t0, t1);
      }
    }
  }

  /** A job that lists its manifest has something to restart, and loses the manifest unless it can save a new one. */
  lemma InsaneJobsChange(c: Codec, f: Folder, now: nat)
    requires Readable(c, f) && !Sane(c, f)
    ensures Normalized(ManifestJob(c, f).value, now) != ManifestJob(c, f).value
    ensures IsDirectory(f, TMP) ==> MANIFEST !in Recovered(c, f, now)
  {
    NamesDoNotClash(now);
  }

  lemma SavedIsSettled(c: Codec, f: Folder, t0: nat, t1: nat)
    requires Lawful(c) && Readable(c, f) && !IsDirectory(f, TMP)
    requires Normalized(ManifestJob(c, f).value, t0) != ManifestJob(c, f).value
    ensures Sane(c, Recovered(c, f, t0)) && Recovered(c, Recovered(c, f, t0), t1) == Recovered(c, f, t0)
  {
    NamesDoNotClash(t0);
    var r, j := Recovered(c, f, t0), ManifestJob(c, f).value;
    var k := Normalized(j, t0);
    assert ManifestJob(c, r) == Some(k);
    RestartIsIdempotent(j, t0, t1);
    forall n | n in r && r[n].File? ensures !Doomed(k, n) {
      if n == MANIFEST {
        assert NormalizeEffects(k).stagingToDelete == [];
      } else {
        SavedJobDoomsNoSurvivor(j, t0, n);
      }
    }
    assert Survivors(k, r) == r;
  }

  lemma SurvivorsKeepTheManifest(c: Codec, f: Folder)
    requires Sane(c, f) && Readable(c, f)
    ensures MANIFEST in Survivors(ManifestJob(c, f).value, WithoutTmp(f))
  {
    NamesDoNotClash(0);
  }

  // ---- Main results ----

  /** Some run among `attempts` finished its work: `r` is what that run alone would have left. */
  ghost predicate FinishedBy(c: Codec, f: Folder, attempts: seq<Attempt>, r: Folder) {
    exists i :: 0 <= i < |attempts| && r == Recovered(c, f, attempts[i].now)
  }

  /** After any crashes, a folder is mid-recovery from its first state or from a finished one. */
  lemma {:induction false} CrashedStates(c: Codec, f: Folder, attempts: seq<Attempt>) returns (base: Folder)
    requires Lawful(c) && Sane(c, f) && AllHonest(c, f, attempts)
    ensures Pending(c, base, AfterAll(c, f, attempts)) && Sane(c, base)
    ensures base == f || (FinishedBy(c, f, attempts, base) && forall t :: Recovered(c, base, t) == base)
  {
    if attempts == [] {
      base := f;
    } else {
      var n := |attempts| - 1;
      var a, g := attempts[n], AfterAll(c, f, attempts[..n]);
      EarlierHonest(c, f, attempts);
      base := CrashedStates(c, f, attempts[..n]);
      assert FinishedBy(c, f, attempts[..n], base) ==> FinishedBy(c, f, attempts, base);
      PendingRecovers(c, base, g, a.now);
      AttemptOutcome(c, g, a);
      if Pending(c, g, Tried(c, g, a)) {
        PendingIsTransitive(c, base, g, Tried(c, g, a));
      } else {
        base := FinishStep(c, f, attempts, base, a.now);
      }
    }
  }

  /** A run that completes moves the base on, or finds it already final. */
  lemma FinishStep(c: Codec, f: Folder, attempts: seq<Attempt>, base: Folder, now: nat) returns (next: Folder)
    requires Lawful(c) && Sane(c, base) && attempts != [] && now == attempts[|attempts| - 1].now
    requires base == f || (FinishedBy(c, f, attempts, base) && forall t :: Recovered(c, base, t) == base)
    ensures Pending(c, next, Recovered(c, base, now)) && Sane(c, next)
    ensures next == f || (FinishedBy(c, f, attempts, next) && forall t :: Recovered(c, next, t) == next)
  {
    var r := Recovered(c, base, now);
    RecoveredIsSettled(c, base, now, now);
    if IsBlocked(c, base, now) {
      next := base;
    } else {
      next := r;
      forall t ensures Recovered(c, r, t) == r {
        RecoveredIsSettled(c, base, now, t);
      }
      assert base == f ==> r == Recovered(c, f, attempts[|attempts| - 1].now);
    }
  }

  /**
   * Crash anywhere, any number of times, then let one recovery finish: the folder is exactly what one
   * uninterrupted recovery, at the time of one of those runs, would have made of it.
   */
  lemma CrashAnywhere(c: Codec, f: Folder, attempts: seq<Attempt>, last: Attempt)
    requires Lawful(c) && Sane(c, f) && AllHonest(c, f, attempts)
    requires Honest(c, AfterAll(c, f, attempts), last)
    requires last.done >= |Plan(c, AfterAll(c, f, attempts), last.now, last.listing)|
    ensures FinishedBy(c, f, attempts + [last], Tried(c, AfterAll(c, f, attempts), last))
    ensures !IsFile(Tried(c, AfterAll(c, f, attempts), last), TMP)
  {
    var g := AfterAll(c, f, attempts);
    var base := CrashedStates(c, f, attempts);
    PlanAchievesRecovered(c, g, last.now, last.listing);
    PendingRecovers(c, base, g, last.now);
    RecoveredHasNoTmp(c, g, last.now);
    LastFinishes(c, f, attempts, last, Recovered(c, base, last.now));
  }

  lemma RecoveredHasNoTmp(c: Codec, f: Folder, now: nat)
    ensures !IsFile(Recovered(c, f, now), TMP)
  {
    NamesDoNotClash(now);
  }

  lemma LastFinishes(c: Codec, f: Folder, attempts: seq<Attempt>, last: Attempt, r: Folder)
    requires r == Recovered(c, f, last.now) || FinishedBy(c, f, attempts, r)
    ensures FinishedBy(c, f, attempts + [last], r)
  {
    var all := attempts + [last];
    if r == Recovered(c, f, last.now) {
      assert all[|attempts|] == last;
    } else {
      var i :| 0 <= i < |attempts| && r == Recovered(c, f, attempts[i].now);
      assert all[i] == attempts[i];
    }
  }

  /** The manifest of `g` is gone, that of `f`, or a whole new version saved at one of `times`. */
  ghost predicate ManifestAmong(c: Codec, f: Folder, g: Folder, times: set<nat>) {
    || MANIFEST !in g
    || (MANIFEST in f && g[MANIFEST] == f[MANIFEST])
    || (Readable(c, f) &&
        exists t :: t in times && g[MANIFEST] == File(c.encode(Normalized(ManifestJob(c, f).value, t)) + NEWLINE))
  }

  ghost function Times(attempts: seq<Attempt>): set<nat> { set a | a in attempts :: a.now }

  /** A step that leaves the manifest alone, or removes it. */
  predicate SparesManifest(s: FsStep) {
    match s
    case Remove(_) => true
    case Create(n) => n != MANIFEST
    case Write(n, _) => n != MANIFEST
    case Rename(_, _) => false
  }

  /** A step that has nothing to do with file `n`. */
  predicate Avoids(s: FsStep, n: string) {
    match s
    case Remove(m) => m != n
    case Create(m) => m != n
    case Write(m, _) => m != n
    case Rename(a, b) => a != n && b != n
  }

  lemma {:induction false} SparedManifest(f: Folder, steps: seq<FsStep>)
    requires forall s :: s in steps ==> SparesManifest(s)
    ensures MANIFEST in Exec(f, steps) ==> MANIFEST in f && Exec(f, steps)[MANIFEST] == f[MANIFEST]
  {
    if steps != [] {
      SparedManifest(f, steps[..|steps| - 1]);
      assert SparesManifest(steps[|steps| - 1]);
    }
  }

  lemma {:induction false} AvoidedFile(f: Folder, steps: seq<FsStep>, n: string)
    requires n in f && forall s :: s in steps ==> Avoids(s, n)
    ensures n in Exec(f, steps) && Exec(f, steps)[n] == f[n]
  {
    if steps != [] {
      AvoidedFile(f, steps[..|steps| - 1], n);
      assert Avoids(steps[|steps| - 1], n);
    }
  }

  /** A crash leaves what some of the steps, the last perhaps in part, make of the folder. */
  lemma CrashedIsExec(f: Folder, plan: seq<FsStep>, done: nat, cut: nat) returns (steps: seq<FsStep>)
    ensures Crashed(f, plan, done, cut) == Exec(f, steps)
    ensures done >= |plan| ==> steps == plan
    ensures done < |plan| ==>
              && plan[..done] <= steps
              && forall s :: s in steps ==>
                   s in plan[..done] || (s.Write? && plan[done].Write? && s.name == plan[done].name)
  {
    if done >= |plan| {
      steps := plan;
    } else if plan[done].Write? && cut <= |plan[done].bytes| {
      var part := Write(plan[done].name, plan[done].bytes[..cut]);
      steps := plan[..done] + [part];
      ExecSnoc(f, plan[..done], part);
    } else {
      steps := plan[..done];
    }
  }

  /** All steps of a plan avoid a staged PDF that is not doomed, and all but a closing rename spare the manifest. */
  lemma PlanAvoids(c: Codec, f: Folder, now: nat, listing: seq<string>, n: string)
    requires IsValidStagingName(n) && (Readable(c, f) ==> !Doomed(ManifestJob(c, f).value, n))
    ensures forall s :: s in Plan(c, f, now, listing) ==> Avoids(s, n)
  {
    NamesDoNotClash(now);
    forall s | s in Plan(c, f, now, listing) ensures Avoids(s, n) {
      if Readable(c, f) { StepAvoids(c, f, now, listing, s, n); }
    }
  }

  lemma StepAvoids(c: Codec, f: Folder, now: nat, listing: seq<string>, s: FsStep, n: string)
    requires IsValidStagingName(n) && Readable(c, f) && !Doomed(ManifestJob(c, f).value, n)
    requires s in Plan(c, f, now, listing)
    ensures Avoids(s, n)
  {
    NamesDoNotClash(now);
    var j := ManifestJob(c, f).value;
    RemovesAvoid(StagingDeletions(j), n, s);
    RemovesAvoid(OrphanDeletions(j, listing), n, s);
    FilterMember(NormalizeEffects(j).stagingToDelete, IsConfined, n);
    FilterMember(listing, m => IsOrphan(j, m), n);
    PlanSteps(c, f, now, listing, s);
  }

  lemma RemovesAvoid(names: seq<string>, n: string, s: FsStep)
    ensures s in Removes(names) && n !in names ==> Avoids(s, n)
  {
    if s in Removes(names) {
      var i :| 0 <= i < |names| && Removes(names)[i] == s;
      assert names[i] in names;
    }
  }

  lemma PlanSteps(c: Codec, f: Folder, now: nat, listing: seq<string>, s: FsStep)
    requires Readable(c, f) && s in Plan(c, f, now, listing)
    ensures
      var j := ManifestJob(c, f).value;
      || s in DropTmp(f) || s in Removes(StagingDeletions(j)) || s in Removes(OrphanDeletions(j, listing))
      || s in SaveSteps(c, f, Normalized(j, now))
  {
  }

  lemma PlanSparesManifest(c: Codec, f: Folder, now: nat, listing: seq<string>, i: nat)
    requires i < |Plan(c, f, now, listing)|
    ensures SparesManifest(Plan(c, f, now, listing)[i]) || i == |Plan(c, f, now, listing)| - 1
  {
    NamesDoNotClash(now);
    var plan := Plan(c, f, now, listing);
    if Readable(c, f) {
      var j := ManifestJob(c, f).value;
      var k := Normalized(j, now);
      var dels := DropTmp(f) + (Removes(StagingDeletions(j)) + Removes(OrphanDeletions(j, listing)));
      var save := if k != j then SaveSteps(c, f, k) else [];
      assert plan == dels + save;
      OnlyRemoves(DropTmp(f), StagingDeletions(j), OrphanDeletions(j, listing));
      if i >= |dels| { assert plan[i] == save[i - |dels|]; }
    }
  }

  lemma OnlyRemoves(drop: seq<FsStep>, a: seq<string>, b: seq<string>)
    requires forall i :: 0 <= i < |drop| ==> drop[i].Remove?
    ensures
      var dels := drop + (Removes(a) + Removes(b));
      forall i :: 0 <= i < |dels| ==> dels[i].Remove?
  {
  }

  /** What one attempt makes of the manifest. */
  lemma AttemptManifest(c: Codec, f: Folder, a: Attempt)
    requires Honest(c, f, a)
    ensures ManifestAmong(c, f, Tried(c, f, a), {a.now})
  {
    var plan := Plan(c, f, a.now, a.listing);
    var steps := CrashedIsExec(f, plan, a.done, a.cut);
    if a.done >= |plan| {
      PlanAchievesRecovered(c, f, a.now, a.listing);
      RecoveredManifest(c, f, a.now);
    } else {
      forall s | s in steps ensures SparesManifest(s) {
        PlanSparesManifest(c, f, a.now, a.listing, a.done);
        if s in plan[..a.done] {
          var i :| 0 <= i < a.done && plan[i] == s;
          PlanSparesManifest(c, f, a.now, a.listing, i);
        }
      }
      SparedManifest(f, steps);
    }
  }

  lemma RecoveredManifest(c: Codec, f: Folder, now: nat)
    ensures ManifestAmong(c, f, Recovered(c, f, now), {now})
  {
    NamesDoNotClash(now);
  }

  /** A saved manifest stays saved: its job has nothing left to restart. */
  lemma ManifestAmongIsTransitive(c: Codec, f: Folder, g: Folder, h: Folder, times: set<nat>, t: nat)
    requires Lawful(c) && ManifestAmong(c, f, g, times) && ManifestAmong(c, g, h, {t})
    ensures ManifestAmong(c, f, h, times + {t})
  {
    if MANIFEST in h && MANIFEST in g && g[MANIFEST] != f[MANIFEST] {
      var j := ManifestJob(c, f).value;
      var u :| u in times && g[MANIFEST] == File(c.encode(Normalized(j, u)) + NEWLINE);
      assert ManifestJob(c, g) == Some(Normalized(j, u));
      RestartIsIdempotent(j, u, t);
    }
  }

  lemma {:induction false} ManifestAfterAll(c: Codec, f: Folder, attempts: seq<Attempt>)
    requires Lawful(c) && AllHonest(c, f, attempts)
    ensures ManifestAmong(c, f, AfterAll(c, f, attempts), Times(attempts))
  {
    if attempts != [] {
      var n := |attempts| - 1;
      EarlierHonest(c, f, attempts);
      ManifestAfterAll(c, f, attempts[..n]);
      ManifestAfterOneMore(c, f, AfterAll(c, f, attempts[..n]), Times(attempts[..n]), attempts[n]);
      TimesNext(attempts);
    }
  }

  lemma ManifestAfterOneMore(c: Codec, f: Folder, g: Folder, times: set<nat>, a: Attempt)
    requires Lawful(c) && ManifestAmong(c, f, g, times) && Honest(c, g, a)
    ensures ManifestAmong(c, f, Tried(c, g, a), times + {a.now})
  {
    AttemptManifest(c, g, a);
    ManifestAmongIsTransitive(c, f, g, Tried(c, g, a), times, a.now);
  }

  lemma TimesNext(attempts: seq<Attempt>)
    requires attempts != []
    ensures Times(attempts) == Times(attempts[..|attempts| - 1]) + {attempts[|attempts| - 1].now}
  {
    var n := |attempts| - 1;
    assert attempts == attempts[..n] + [attempts[n]];
  }

  lemma EarlierHonest(c: Codec, f: Folder, attempts: seq<Attempt>)
    requires attempts != [] && AllHonest(c, f, attempts)
    ensures AllHonest(c, f, attempts[..|attempts| - 1])
  {
    var n := |attempts| - 1;
    forall i | 0 <= i < n ensures Honest(c, AfterAll(c, f, attempts[..n][..i]), attempts[..n][i]) {
      HonestEarlier(c, f, attempts, n, i);
    }
  }

  lemma HonestEarlier(c: Codec, f: Folder, attempts: seq<Attempt>, n: nat, i: nat)
    requires i < n <= |attempts| && Honest(c, AfterAll(c, f, attempts[..i]), attempts[i])
    ensures Honest(c, AfterAll(c, f, attempts[..n][..i]), attempts[..n][i])
  {
    assert attempts[..n][..i] == attempts[..i] && attempts[..n][i] == attempts[i];
  }

  /**
   * At every moment the manifest is the whole old version, the whole version of a run among the attempts, or
   * gone; and it is never gone unless the job lists its own manifest for deletion.
   */
  lemma ManifestIsNeverTorn(c: Codec, f: Folder, attempts: seq<Attempt>)
    requires Lawful(c) && AllHonest(c, f, attempts) && Readable(c, f)
    ensures
      var g, j := AfterAll(c, f, attempts), ManifestJob(c, f).value;
      && (MANIFEST !in g || g[MANIFEST] == f[MANIFEST] ||
          exists i :: 0 <= i < |attempts| && g[MANIFEST] == File(c.encode(Normalized(j, attempts[i].now)) + NEWLINE))
      && (Sane(c, f) ==> IsFile(g, MANIFEST))
  {
    ManifestAfterAll(c, f, attempts);
    if Sane(c, f) {
      var base := CrashedStates(c, f, attempts);
      SurvivorsKeepTheManifest(c, f);
      if base != f {
        var i :| 0 <= i < |attempts| && base == Recovered(c, f, attempts[i].now);
        assert IsFile(base, MANIFEST);
      }
    }
  }

  /** A folder that came from `f` by recoveries dooms no staged PDF that `f` did not. */
  lemma DoomIsNotExtended(c: Codec, f: Folder, g: Folder, times: set<nat>, n: string)
    requires Lawful(c) && ManifestAmong(c, f, g, times) && Readable(c, g)
    requires Readable(c, f) ==> !Doomed(ManifestJob(c, f).value, n)
    ensures !Doomed(ManifestJob(c, g).value, n)
  {
    if g[MANIFEST] != f[MANIFEST] {
      var j := ManifestJob(c, f).value;
      var t :| t in times && g[MANIFEST] == File(c.encode(Normalized(j, t)) + NEWLINE);
      SavedJobDoomsNoSurvivor(j, t, n);
    }
  }

  /** No staged PDF outside the doomed set is ever lost, whatever the job and whatever crashes follow. */
  lemma {:induction false} StagedFilesSurvive(c: Codec, f: Folder, attempts: seq<Attempt>, n: string)
    requires Lawful(c) && AllHonest(c, f, attempts)
    requires IsFile(f, n) && IsValidStagingName(n)
    requires Readable(c, f) ==> !Doomed(ManifestJob(c, f).value, n)
    ensures n in AfterAll(c, f, attempts) && AfterAll(c, f, attempts)[n] == f[n]
  {
    if attempts != [] {
      var k := |attempts| - 1;
      var a, g := attempts[k], AfterAll(c, f, attempts[..k]);
      EarlierHonest(c, f, attempts);
      StagedFilesSurvive(c, f, attempts[..k], n);
      ManifestAfterAll(c, f, attempts[..k]);
      if Readable(c, g) { DoomIsNotExtended(c, f, g, Times(attempts[..k]), n); }
      AttemptAvoids(c, g, a, n);
    }
  }

  lemma AttemptAvoids(c: Codec, f: Folder, a: Attempt, n: string)
    requires n in f && IsValidStagingName(n) && (Readable(c, f) ==> !Doomed(ManifestJob(c, f).value, n))
    ensures n in Tried(c, f, a) && Tried(c, f, a)[n] == f[n]
  {
    var plan := Plan(c, f, a.now, a.listing);
    var steps := CrashedIsExec(f, plan, a.done, a.cut);
    PlanAvoids(c, f, a.now, a.listing, n);
    if a.done < |plan| { assert plan[a.done] in plan; }
    forall s | s in steps ensures Avoids(s, n) {
      if a.done < |plan| && s in plan[..a.done] { assert s in plan; }
    }
    AvoidedFile(f, steps, n);
  }

  /** A staged PDF is gone after a complete recovery exactly when it is doomed; otherwise it is untouched. */
  lemma RecoveryDeletesExactlyTheDoomed(c: Codec, f: Folder, now: nat, n: string)
    requires IsFile(f, n) && IsValidStagingName(n)
    ensures n !in Recovered(c, f, now) <==> Readable(c, f) && Doomed(ManifestJob(c, f).value, n)
    ensures n in Recovered(c, f, now) ==> Recovered(c, f, now)[n] == f[n]
  {
    NamesDoNotClash(now);
  }

  lemma StagingNamesAreConfined(n: string)
    requires IsValidStagingName(n)
    ensures IsConfined(n)
  {
    forall k | 0 <= k < |n| ensures n[k] != '/' {
      if k < 36 {
        assert n[..36][k] == n[k];
      } else {
        assert n[36..][k - 36] == n[k];
      }
    }
  }

  /** The restart keeps file `i`: it ends `Verified`, or is reported for reconciliation. */
  ghost predicate IsKept(j: JobData, i: nat) {
    && i < |j.files|
    && (|| Normalized(j, 0).files[i].state.Verified?
        || exists e :: e in NormalizeEffects(j).needsReconcile && e.index == i)
  }

  /** The restart starts file `i` over, or gives it up. */
  predicate IsDiscarded(j: JobData, i: nat) {
    && i < |j.files|
    && (|| (j.state.Running? && (j.files[i].state.Downloading? || j.files[i].state.Verifying?))
        || (j.state.Cancelling? && !j.files[i].state.IsTerminal() && !j.files[i].state.Importing?))
  }

  lemma DeletionsAreTheDiscarded(j: JobData, n: string)
    ensures n in NormalizeEffects(j).stagingToDelete <==>
            exists k: nat :: IsDiscarded(j, k) && j.files[k].stagingName == Some(n)
  {
    var report := if j.state.Running? then RequeueReport else AbandonReport;
    if j.state.Running? || j.state.Cancelling? {
      ConcatMember(j.files, report, n);
      forall k: nat | k < |j.files|
        ensures n in report(j.files[k]) <==> IsDiscarded(j, k) && j.files[k].stagingName == Some(n)
      {
      }
    }
  }

  /** The staging of a file the restart keeps is deleted exactly when a discarded file has the same name. */
  lemma KeptStagingIsDoomedIff(j: JobData, i: nat, n: string)
    requires IsKept(j, i) && j.files[i].stagingName == Some(n) && IsValidStagingName(n)
    ensures Doomed(j, n) <==> exists k: nat :: IsDiscarded(j, k) && j.files[k].stagingName == Some(n)
  {
    var files := Normalized(j, 0).files;
    ReconcilesAreTheImportingFiles(j.files);
    assert n in Name(files[i]);
    ConcatMember(files, Name, n);
    StagingNamesAreConfined(n);
    DeletionsAreTheDiscarded(j, n);
  }

  /** No two files of a job share a staging name. */
  ghost predicate DistinctStaging(j: JobData) {
    forall i, k :: 0 <= i < k < |j.files| && j.files[i].stagingName.Some? ==>
                     j.files[i].stagingName != j.files[k].stagingName
  }

  /** With pairwise distinct staging names, everything the restart keeps is safe. */
  lemma DistinctNamesProtectKeptStaging(j: JobData, i: nat, n: string)
    requires DistinctStaging(j)
    requires IsKept(j, i) && j.files[i].stagingName == Some(n) && IsValidStagingName(n)
    ensures !Doomed(j, n)
  {
    KeptStagingIsDoomedIff(j, i, n);
    ReconcilesAreTheImportingFiles(j.files);
    forall k: nat | IsDiscarded(j, k) ensures j.files[k].stagingName != Some(n) {
      assert k != i;
    }
  }

  /**
   * Which staged PDFs a recovery deletes, in terms of the job alone: one stays exactly when some file of the
   * job names it and no discarded file does.
   */
  lemma StagedFileStaysIff(c: Codec, f: Folder, now: nat, n: string)
    requires Readable(c, f) && IsFile(f, n) && IsValidStagingName(n)
    ensures
      var j := ManifestJob(c, f).value;
      n in Recovered(c, f, now) <==>
        && (exists i :: 0 <= i < |j.files| && j.files[i].stagingName == Some(n))
        && !exists k: nat :: IsDiscarded(j, k) && j.files[k].stagingName == Some(n)
  {
    var j := ManifestJob(c, f).value;
    RecoveryDeletesExactlyTheDoomed(c, f, now, n);
    StagingNamesAreConfined(n);
    DeletionsAreTheDiscarded(j, n);
    if n !in NormalizeEffects(j).stagingToDelete {
      RestartKeepsReconcileReferences(j, 0, n);
      KeptReferences(j, n);
    }
  }

  /** A name no discarded file has is named after the restart exactly if it was before. */
  lemma KeptReferences(j: JobData, n: string)
    requires !exists k: nat :: IsDiscarded(j, k) && j.files[k].stagingName == Some(n)
    ensures n in References(Normalized(j, 0)) <==> exists i :: 0 <= i < |j.files| && j.files[i].stagingName == Some(n)
  {
    var files := Normalized(j, 0).files;
    ConcatMember(files, Name, n);
    forall i: nat | i < |j.files|
      ensures n in Name(files[i]) <==> j.files[i].stagingName == Some(n)
    {
      assert !(IsDiscarded(j, i) && j.files[i].stagingName == Some(n));
    }
  }

  /** `id` is five groups of lowercase hexadecimal digits, of 8, 4, 4, 4 and 12, with hyphens between. */
  predicate IsGrouped(id: string, a: string, b: string, d: string, e: string, g: string) {
    && id == a + "-" + b + "-" + d + "-" + e + "-" + g
    && |a| == 8 && |b| == 4 && |d| == 4 && |e| == 4 && |g| == 12
    && forall x :: x in a + b + d + e + g ==> x in "0123456789abcdef"
  }

  /** The job ids are exactly the strings of that shape. */
  lemma JobIdShape(id: string)
    ensures IsValidJobId(id) <==> exists a, b, d, e, g :: IsGrouped(id, a, b, d, e, g)
  {
    if IsValidJobId(id) { IdSplits(id); }
    if a, b, d, e, g :| IsGrouped(id, a, b, d, e, g) { GroupsMakeAnId(id, a, b, d, e, g); }
  }

  /** A staging name is a job id with the ending of a PDF. */
  lemma StagingNameShape(n: string)
    ensures IsValidStagingName(n) <==> exists id :: IsValidJobId(id) && n == id + ".pdf"
  {
    if IsValidStagingName(n) { assert n == n[..36] + ".pdf"; }
    if id :| IsValidJobId(id) && n == id + ".pdf" { assert n[..36] == id && n[36..] == ".pdf"; }
  }

  /** What a recovery does to the names that belong to the store, for each kind of manifest. */
  lemma StoreNamesAfterRecovery(c: Codec, f: Folder, now: nat)
    ensures
      var g, tmp, corrupt := Recovered(c, f, now), "job.json.tmp", "job.json.corrupt-" + Decimal(now);
      && (IsFile(f, tmp) ==> tmp !in g)
      && (!IsFile(f, "job.json") ==> g == if IsFile(f, tmp) then f - {tmp} else f)
      && (IsFile(f, "job.json") ==>
            match c.decode(f["job.json"].bytes)
            case None =>
              !IsDirectory(f, corrupt) ==>
                "job.json" !in g && corrupt in g && g[corrupt] == f["job.json"]
                && forall n :: n !in {"job.json", tmp, corrupt} ==> (n in g <==> n in f) && (n in f ==> g[n] == f[n])
            case Some(j) =>
              && (j.schemaVersion > 1 ==> g == if IsFile(f, tmp) then f - {tmp} else f)
              && (j.schemaVersion <= 1 && Normalized(j, now) != j && !IsDirectory(f, tmp) ==>
                    "job.json" in g && g["job.json"] == File(c.encode(Normalized(j, now)) + [10])))
  {
    NamesDoNotClash(now);
  }

  lemma IdSplits(id: string)
    requires IsValidJobId(id)
    ensures IsGrouped(id, id[..8], id[9..13], id[14..18], id[19..23], id[24..])
  {
    var a, b, d, e, g := id[..8], id[9..13], id[14..18], id[19..23], id[24..];
    assert id == a + "-" + b + "-" + d + "-" + e + "-" + g;
    forall x | x in a + b + d + e + g ensures x in "0123456789abcdef" { HexDigits(x); }
  }

  lemma HexDigits(x: char)
    ensures IsHex(x) <==> x in "0123456789abcdef"
  {
    var digits := "0123456789abcdef";
    if IsHex(x) {
      var i := if x <= '9' then x as int - '0' as int else x as int - 'a' as int + 10;
      assert digits[i] == x;
    }
  }

  lemma GroupsMakeAnId(id: string, a: string, b: string, d: string, e: string, g: string)
    requires IsGrouped(id, a, b, d, e, g)
    ensures IsValidJobId(id)
  {
    forall i | 0 <= i < 36 && i !in {8, 13, 18, 23} ensures IsHex(id[i]) {
      assert id[i] in a + b + d + e + g by {
        assert i < 8 ==> id[i] == a[i];
        assert 8 < i < 13 ==> id[i] == b[i - 9];
        assert 13 < i < 18 ==> id[i] == d[i - 14];
        assert 18 < i < 23 ==> id[i] == e[i - 19];
        assert 23 < i ==> id[i] == g[i - 24];
      }
      HexDigits(id[i]);
    }
  }
}
