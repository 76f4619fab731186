/** Exactly which job folders a crash during recovery cannot harm. */
module CrashSafety {
  import opened Common
  import opened ImportJob
  import opened JobRuns
  import opened Recovery

  /** Why `Sane` is needed: a manifest listed for deletion is gone for good if the crash falls after that step. */
  lemma SelfDeletingManifestIsLost(c: Codec, f: Folder, now: nat, listing: seq<string>)
    requires Readable(c, f) && !Sane(c, f) && !IsDirectory(f, TMP)
    requires Lists(listing, Listed(c, f))
    ensures IsFile(Recovered(c, f, now), MANIFEST)
    ensures exists done, cut ::
      var g := Tried(c, f, Attempt(now, listing, done, cut));
      MANIFEST !in g && forall t :: MANIFEST !in Recovered(c, g, t)
  {
    ManifestComesBack(c, f, now);
    var first := DropTmp(f) + Removes(StagingDeletions(ManifestJob(c, f).value));
    var a := Attempt(now, listing, |first|, 0);
    assert Plan(c, f, now, listing)[..|first|] == first;
    assert Tried(c, f, a) == Listed(c, f);
    ListedWithoutManifest(c, f);
    forall t ensures MANIFEST !in Recovered(c, Listed(c, f), t) { NoManifestStays(c, Listed(c, f), t); }
  }

  lemma ListedWithoutManifest(c: Codec, f: Folder)
    requires Readable(c, f) && !Sane(c, f)
    ensures MANIFEST !in Listed(c, f)
  {
    NamesDoNotClash(0);
    var j := ManifestJob(c, f).value;
    ListedFolder(c, f);
    ExecRemoves(WithoutTmp(f), StagingDeletions(j));
    FilterMember(NormalizeEffects(j).stagingToDelete, IsConfined, MANIFEST);
  }

  lemma NoManifestStays(c: Codec, f: Folder, now: nat)
    requires MANIFEST !in f
    ensures MANIFEST !in Recovered(c, f, now)
  {
  }

  lemma {:induction false} ListingExists(names: set<string>) returns (listing: seq<string>)
    ensures forall n :: n in listing <==> n in names
  {
    if names == {} {
      listing := [];
    } else {
      var n :| n in names;
      var rest := ListingExists(names - {n});
      listing := rest + [n];
    }
  }

  /** However recovery is crashed and retried, a run that ends leaves what some run alone would have left. */
  ghost predicate CrashSafe(c: Codec, f: Folder) {
    forall attempts: seq<Attempt>, last: Attempt ::
      AllHonest(c, f, attempts) && Honest(c, AfterAll(c, f, attempts), last) &&
      last.done >= |Plan(c, AfterAll(c, f, attempts), last.now, last.listing)| ==>
      FinishedBy(c, f, attempts + [last], Tried(c, AfterAll(c, f, attempts), last))
  }

  /**
   * Crash safety, exactly. It holds for jobs that do not list their own manifest for deletion. For the others it
   * holds only where no save is possible, because a directory has the temporary name, and the manifest happens
   * to be the last file to go.
   */
  lemma CrashSafeIff(c: Codec, f: Folder)
    requires Lawful(c) && Readable(c, f)
    ensures CrashSafe(c, f) <==> Sane(c, f) || (IsDirectory(f, TMP) && ManifestGoesLast(c, f))
  {
    if Sane(c, f) || (IsDirectory(f, TMP) && ManifestGoesLast(c, f)) {
      forall attempts: seq<Attempt>, last: Attempt |
        AllHonest(c, f, attempts) && Honest(c, AfterAll(c, f, attempts), last) &&
        last.done >= |Plan(c, AfterAll(c, f, attempts), last.now, last.listing)|
        ensures FinishedBy(c, f, attempts + [last], Tried(c, AfterAll(c, f, attempts), last))
      {
        if Sane(c, f) {
          CrashAnywhere(c, f, attempts, last);
        } else {
          BlockedFinish(c, f, attempts, last);
        }
      }
    } else {
      var crash, last;
      if IsDirectory(f, TMP) {
        crash, last := BlockedLosingHistory(c, f);
      } else {
        crash, last := LosingHistory(c, f);
        LosingHistoryIsNotFinished(c, f, crash, last);
      }
      NotCrashSafe(c, f, [crash], last);
    }
  }

  lemma NotCrashSafe(c: Codec, f: Folder, attempts: seq<Attempt>, last: Attempt)
    requires AllHonest(c, f, attempts) && Honest(c, AfterAll(c, f, attempts), last)
    requires last.done >= |Plan(c, AfterAll(c, f, attempts), last.now, last.listing)|
    requires !FinishedBy(c, f, attempts + [last], Tried(c, AfterAll(c, f, attempts), last))
    ensures !CrashSafe(c, f)
  {
  }

  // ---- Jobs that list their own manifest, in folders where nothing can be saved ----

  /** Every doomed file that is there goes no later than the manifest. */
  ghost predicate ManifestGoesLast(c: Codec, f: Folder) {
    Readable(c, f) &&
    var j := ManifestJob(c, f).value;
    exists p: nat :: ManifestAt(j, p) && GoBy(f, j, p)
  }

  ghost predicate GoBy(f: Folder, j: JobData, p: nat)
    requires p < |StagingDeletions(j)|
  {
    forall n :: IsFile(f, n) && Doomed(j, n) ==> n in StagingDeletions(j)[..p + 1]
  }

  /** The manifest is the deletion `p` of a restart, and none before. */
  predicate ManifestAt(j: JobData, p: nat) {
    p < |StagingDeletions(j)| && StagingDeletions(j)[p] == MANIFEST && MANIFEST !in StagingDeletions(j)[..p]
  }

  function Deletions(j: JobData, listing: seq<string>): seq<string> {
    StagingDeletions(j) + OrphanDeletions(j, listing)
  }

  function Without(f: Folder, names: seq<string>): Folder { map n | n in f && !(f[n].File? && n in names) :: f[n] }

  lemma DeletionsAreDoomed(j: JobData, listing: seq<string>, n: string)
    ensures n in Deletions(j, listing) ==> Doomed(j, n)
    ensures MANIFEST in OrphanDeletions(j, listing) ==> false
    ensures MANIFEST in NormalizeEffects(j).stagingToDelete <==> MANIFEST in StagingDeletions(j)
  {
    NamesDoNotClash(0);
    FilterMember(NormalizeEffects(j).stagingToDelete, IsConfined, n);
    FilterMember(NormalizeEffects(j).stagingToDelete, IsConfined, MANIFEST);
    FilterMember(listing, m => IsOrphan(j, m), n);
    FilterMember(listing, m => IsOrphan(j, m), MANIFEST);
  }

  /** An attempt then deletes some of the names, in order, and nothing else. */
  lemma BlockedAttempt(c: Codec, f: Folder, a: Attempt) returns (d: nat)
    requires Readable(c, f) && IsDirectory(f, TMP)
    ensures
      var all := Deletions(ManifestJob(c, f).value, a.listing);
      d <= |all| && (d == if a.done < |all| then a.done else |all|) && Tried(c, f, a) == Without(f, all[..d])
  {
    var j := ManifestJob(c, f).value;
    var all := Deletions(j, a.listing);
    var plan := Plan(c, f, a.now, a.listing);
    assert plan == Removes(all);
    d := if a.done < |all| then a.done else |all|;
    assert plan[..d] == Removes(all[..d]) && plan[..|plan|] == plan;
    ExecRemoves(f, all[..d]);
  }

  lemma FirstManifest(j: JobData) returns (p: nat)
    requires MANIFEST in StagingDeletions(j)
    ensures ManifestAt(j, p)
  {
    p := FirstAt(StagingDeletions(j), MANIFEST);
  }

  lemma {:induction false} FirstAt(s: seq<string>, x: string) returns (p: nat)
    requires x in s
    ensures p < |s| && s[p] == x && x !in s[..p]
  {
    var n := |s| - 1;
    if x in s[..n] {
      p := FirstAt(s[..n], x);
      assert s[..n][..p] == s[..p];
    } else {
      p := n;
    }
  }

  /** When the manifest goes last, a crash leaves either everything to be done or nothing. */
  lemma {:induction false} BlockedStates(c: Codec, f: Folder, attempts: seq<Attempt>)
    requires Readable(c, f) && IsDirectory(f, TMP) && ManifestGoesLast(c, f) && AllHonest(c, f, attempts)
    ensures
      var g := AfterAll(c, f, attempts);
      Pending(c, f, g) || g == Survivors(ManifestJob(c, f).value, f)
  {
    if attempts != [] {
      var n := |attempts| - 1;
      EarlierHonest(c, f, attempts);
      BlockedStates(c, f, attempts[..n]);
      BlockedStep(c, f, AfterAll(c, f, attempts[..n]), attempts[n]);
    }
  }

  lemma BlockedStep(c: Codec, f: Folder, g: Folder, a: Attempt)
    requires Readable(c, f) && IsDirectory(f, TMP) && ManifestGoesLast(c, f)
    requires Pending(c, f, g) || g == Survivors(ManifestJob(c, f).value, f)
    ensures Pending(c, f, Tried(c, g, a)) || Tried(c, g, a) == Survivors(ManifestJob(c, f).value, f)
  {
    var j := ManifestJob(c, f).value;
    NamesDoNotClash(a.now);
    if Pending(c, f, g) {
      assert ManifestJob(c, g) == Some(j);
      var d := BlockedAttempt(c, g, a);
      BlockedDeletions(c, f, g, a.listing, d);
    } else {
      var p: nat :| ManifestAt(j, p) && GoBy(f, j, p);
      assert StagingDeletions(j)[p] in StagingDeletions(j);
      DeletionsAreDoomed(j, a.listing, MANIFEST);
      assert Plan(c, g, a.now, a.listing) == [];
    }
  }

  lemma BlockedDeletions(c: Codec, f: Folder, g: Folder, listing: seq<string>, d: nat)
    requires Readable(c, f) && IsDirectory(f, TMP) && ManifestGoesLast(c, f) && Pending(c, f, g)
    requires d <= |Deletions(ManifestJob(c, f).value, listing)|
    ensures
      var j := ManifestJob(c, f).value;
      var h := Without(g, Deletions(j, listing)[..d]);
      Pending(c, f, h) || h == Survivors(j, f)
  {
    var j := ManifestJob(c, f).value;
    var all := Deletions(j, listing);
    var names := all[..d];
    var p: nat :| ManifestAt(j, p) && GoBy(f, j, p);
    forall n | n in names ensures Doomed(j, n) {
      assert n in all;
      DeletionsAreDoomed(j, listing, n);
    }
    if d <= p {
      assert names == StagingDeletions(j)[..p][..d];
      assert MANIFEST !in names;
    } else {
      assert names[..p + 1] == StagingDeletions(j)[..p + 1];
      assert forall n :: n in StagingDeletions(j)[..p + 1] ==> n in names;
      assert StagingDeletions(j)[..p + 1][p] == MANIFEST;
      assert Without(g, names) == Survivors(j, f);
    }
  }

  lemma BlockedFinish(c: Codec, f: Folder, attempts: seq<Attempt>, last: Attempt)
    requires Readable(c, f) && IsDirectory(f, TMP) && ManifestGoesLast(c, f)
    requires AllHonest(c, f, attempts) && Honest(c, AfterAll(c, f, attempts), last)
    requires last.done >= |Plan(c, AfterAll(c, f, attempts), last.now, last.listing)|
    ensures FinishedBy(c, f, attempts + [last], Tried(c, AfterAll(c, f, attempts), last))
  {
    var g := AfterAll(c, f, attempts);
    var j := ManifestJob(c, f).value;
    BlockedStates(c, f, attempts);
    PlanAchievesRecovered(c, g, last.now, last.listing);
    if Pending(c, f, g) {
      PendingRecovers(c, f, g, last.now);
    } else {
      SettledSurvivors(c, f, last.now);
    }
    LastFinishes(c, f, attempts, last, Recovered(c, f, last.now));
  }

  lemma SettledSurvivors(c: Codec, f: Folder, now: nat)
    requires Readable(c, f) && IsDirectory(f, TMP) && ManifestGoesLast(c, f)
    ensures
      var g := Survivors(ManifestJob(c, f).value, f);
      Recovered(c, g, now) == g == Recovered(c, f, now)
  {
    var j := ManifestJob(c, f).value;
    var p: nat :| ManifestAt(j, p) && GoBy(f, j, p);
    assert StagingDeletions(j)[p] in StagingDeletions(j);
    DeletionsAreDoomed(j, [], MANIFEST);
    NamesDoNotClash(now);
  }

  /** Otherwise a crash right after the manifest is gone leaves a doomed file for good. */
  lemma BlockedLosingHistory(c: Codec, f: Folder) returns (crash: Attempt, last: Attempt)
    requires Readable(c, f) && !Sane(c, f) && IsDirectory(f, TMP) && !ManifestGoesLast(c, f)
    ensures
      var g := AfterAll(c, f, [crash]);
      && AllHonest(c, f, [crash]) && Honest(c, g, last) && last.done >= |Plan(c, g, last.now, last.listing)|
      && !FinishedBy(c, f, [crash] + [last], Tried(c, g, last))
  {
    var j := ManifestJob(c, f).value;
    DeletionsAreDoomed(j, [], MANIFEST);
    var p := FirstManifest(j);
    var left :| IsFile(f, left) && Doomed(j, left) && left !in StagingDeletions(j)[..p + 1];
    var listing := ListingExists(Listed(c, f).Keys);
    crash := Attempt(0, listing, p + 1, 0);
    last := Attempt(0, [], 0, 0);
    var g := Tried(c, f, crash);
    CutAfterManifest(c, f, p, listing, left);
    assert [crash][..0] == [] && AfterAll(c, f, []) == f;
    assert AfterAll(c, f, [crash]) == g;
    WithoutManifestNothingIsPlanned(c, g);
    forall t ensures left !in Recovered(c, f, t) { DoomedIsRecoveredAway(c, f, left, t); }
  }

  /** After that cut the manifest is gone and `left` remains. */
  lemma CutAfterManifest(c: Codec, f: Folder, p: nat, listing: seq<string>, left: string)
    requires Readable(c, f) && IsDirectory(f, TMP)
    requires
      var j := ManifestJob(c, f).value;
      ManifestAt(j, p) && IsFile(f, left) && left !in StagingDeletions(j)[..p + 1]
    ensures
      var g := Tried(c, f, Attempt(0, listing, p + 1, 0));
      MANIFEST !in g && left in g && IsDirectory(g, TMP)
  {
    var j := ManifestJob(c, f).value;
    var d := BlockedAttempt(c, f, Attempt(0, listing, p + 1, 0));
    assert Deletions(j, listing)[..p + 1] == StagingDeletions(j)[..p + 1];
    assert StagingDeletions(j)[..p + 1][p] == MANIFEST;
  }

  lemma WithoutManifestNothingIsPlanned(c: Codec, f: Folder)
    requires MANIFEST !in f && IsDirectory(f, TMP)
    ensures Plan(c, f, 0, []) == [] && Tried(c, f, Attempt(0, [], 0, 0)) == f && Honest(c, f, Attempt(0, [], 0, 0))
  {
  }

  lemma DoomedIsRecoveredAway(c: Codec, f: Folder, n: string, now: nat)
    requires Readable(c, f) && IsDirectory(f, TMP) && IsFile(f, n) && Doomed(ManifestJob(c, f).value, n)
    ensures n !in Recovered(c, f, now)
  {
  }

  /** In such a folder even an uncut recovery loses the manifest. */
  lemma BlockedSaveLosesManifest(c: Codec, f: Folder, now: nat)
    requires Readable(c, f) && !Sane(c, f) && IsDirectory(f, TMP)
    ensures MANIFEST !in Recovered(c, f, now)
  {
    InsaneJobsChange(c, f, now);
  }

  /** The manifest survives every history exactly when the job does not list it for deletion, blocked or not. */
  lemma ManifestIsKeptIffSane(c: Codec, f: Folder)
    requires Lawful(c) && Readable(c, f)
    ensures (forall attempts: seq<Attempt> :: AllHonest(c, f, attempts) ==> MANIFEST in AfterAll(c, f, attempts))
            <==> Sane(c, f)
  {
    if Sane(c, f) {
      forall attempts: seq<Attempt> | AllHonest(c, f, attempts) ensures MANIFEST in AfterAll(c, f, attempts) {
        ManifestIsNeverTorn(c, f, attempts);
      }
    } else {
      var listing := ListingExists(Listed(c, f).Keys);
      var first := DropTmp(f) + Removes(StagingDeletions(ManifestJob(c, f).value));
      var crash := Attempt(0, listing, |first|, 0);
      CutAfterDeletions(c, f, listing);
      ListedWithoutManifest(c, f);
      assert [crash][..0] == [] && AfterAll(c, f, []) == f;
      assert AfterAll(c, f, [crash]) == Tried(c, f, crash) && AllHonest(c, f, [crash]);
    }
  }

  lemma CutAfterDeletions(c: Codec, f: Folder, listing: seq<string>)
    requires Readable(c, f)
    ensures
      var first := DropTmp(f) + Removes(StagingDeletions(ManifestJob(c, f).value));
      Tried(c, f, Attempt(0, listing, |first|, 0)) == Listed(c, f)
  {
    NamesDoNotClash(0);
    var plan, first := Plan(c, f, 0, listing), DropTmp(f) + Removes(StagingDeletions(ManifestJob(c, f).value));
    assert plan[..|first|] == first;
    if |first| < |plan| {
      assert !plan[|first|].Write?;
    } else {
      assert plan == first;
    }
  }

  /** A cancelling job in which a file to be reconciled and a discarded one share a staging name loses that PDF. */
  lemma SharedStagingIsDoomed(d: JobData, importing: JobFile, queued: JobFile, n: string) returns (j: JobData)
    requires IsValidStagingName(n)
    ensures IsKept(j, 0) && j.files[0].stagingName == Some(n) && Doomed(j, n)
  {
    j := d.(state := Cancelling,
            files := [importing.(state := Importing, stagingName := Some(n)),
                      queued.(state := Queued, stagingName := Some(n))]);
    ReconcilesAreTheImportingFiles(j.files);
    assert EntryOf(0, j.files[0]) in Reconciles(j.files);
    assert IsDiscarded(j, 1);
    KeptStagingIsDoomedIff(j, 0, n);
  }

  /** A cancelling job whose only file was given the name of the manifest as its staging name. */
  lemma AnInsaneFolder(c: Codec, file: JobFile, d: JobData) returns (f: Folder)
    requires Lawful(c)
    ensures Readable(c, f) && !Sane(c, f)
  {
    var j := d.(schemaVersion := JOB_SCHEMA_VERSION, state := Cancelling,
                files := [file.(state := Queued, stagingName := Some(MANIFEST))]);
    f := map[MANIFEST := File(c.encode(j) + NEWLINE)];
    assert j.files[0] in j.files;
    DeletionsAreTheDiscarded(j, MANIFEST);
    assert IsDiscarded(j, 0);
  }

  /** A crash at the wrong moment and a full recovery after it, with the manifest gone. */
  lemma LosingHistory(c: Codec, f: Folder) returns (crash: Attempt, last: Attempt)
    requires Readable(c, f) && !Sane(c, f) && !IsDirectory(f, TMP)
    ensures
      var g := AfterAll(c, f, [crash]);
      && AllHonest(c, f, [crash]) && Honest(c, g, last) && last.done >= |Plan(c, g, last.now, last.listing)|
      && MANIFEST !in Tried(c, g, last)
  {
    var listing := ListingExists(Listed(c, f).Keys);
    SelfDeletingManifestIsLost(c, f, 0, listing);
    var done, cut :|
      var g := Tried(c, f, Attempt(0, listing, done, cut));
      MANIFEST !in g && forall t :: MANIFEST !in Recovered(c, g, t);
    crash := Attempt(0, listing, done, cut);
    var g := Tried(c, f, crash);
    assert [crash][..0] == [] && AfterAll(c, f, []) == f;
    assert AfterAll(c, f, [crash]) == g;
    last := Attempt(0, [], |Plan(c, g, 0, [])|, 0);
    assert Plan(c, g, 0, [])[..|Plan(c, g, 0, [])|] == Plan(c, g, 0, []);
    PlanAchievesRecovered(c, g, 0, []);
  }

  lemma LosingHistoryIsNotFinished(c: Codec, f: Folder, crash: Attempt, last: Attempt)
    requires Readable(c, f) && !Sane(c, f) && !IsDirectory(f, TMP)
    requires MANIFEST !in Tried(c, AfterAll(c, f, [crash]), last)
    ensures !FinishedBy(c, f, [crash] + [last], Tried(c, AfterAll(c, f, [crash]), last))
  {
    forall t ensures MANIFEST in Recovered(c, f, t) { ManifestComesBack(c, f, t); }
  }

  lemma ManifestComesBack(c: Codec, f: Folder, now: nat)
    requires Readable(c, f) && !Sane(c, f) && !IsDirectory(f, TMP)
    ensures IsFile(Recovered(c, f, now), MANIFEST)
  {
    NamesDoNotClash(now);
  }
}
