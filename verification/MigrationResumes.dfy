/** Where a run ends that resumes after a crash, against the uncut run from the same database, whatever that holds. */
module MigrationResumes {
  import opened Common
  import opened MigrationRuns
  import opened Migrations

  /** The schema once everything pending is recorded, if the run comes that far. */
  function EndOf<S>(r: Registry<S>, pending: seq<string>, s: S): Option<S> {
    if pending == [] then Some(s)
    else match Target(r, pending[0], s)
      case None => None
      case Some(t) => EndOf(r, pending[1..], t)
  }

  /** The database such a run ends with. */
  lemma {:induction false} LastIsTheEnd<S>(r: Registry<S>, pending: seq<string>, d: Db<S>)
    ensures StopsAt(r, pending, d.schema).None? <==> EndOf(r, pending, d.schema).Some?
    ensures EndOf(r, pending, d.schema).Some? ==>
              LastOf(r, pending, d) == Db(d.applied + pending, EndOf(r, pending, d.schema).value)
  {
    if pending == [] {
      assert d.applied + [] == d.applied;
    } else if Target(r, pending[0], d.schema).Some? {
      var next := OneTrailEnd(r, pending[0], d);
      LastIsTheEnd(r, pending[1..], next);
      OneTrailEnds(r, pending[0], d);
      assert next.applied + pending[1..] == d.applied + pending;
    }
  }

  /** The first state with the records of `e`. */
  function FirstWith<S>(trail: seq<Db<S>>, e: Db<S>): Db<S> {
    if trail == [] then e
    else if trail[0].applied == e.applied then trail[0]
    else FirstWith(trail[1..], e)
  }

  lemma {:induction false} SkipOthers<S>(a: seq<Db<S>>, b: seq<Db<S>>, e: Db<S>)
    requires forall x :: x in a ==> x.applied != e.applied
    ensures FirstWith(a + b, e) == FirstWith(b, e)
  {
    if a == [] {
      assert a + b == b;
    } else {
      assert (a + b)[1..] == a[1..] + b;
      SkipOthers(a[1..], b, e);
    }
  }

  /** Where the run stood before it began the migration that it had not recorded when it reached `e`. */
  function StartOf<S>(r: Registry<S>, d: Db<S>, e: Db<S>): Db<S> { FirstWith(Durable(r, d), e) }

  /** From `e` the next migration records what it would have recorded uncut. */
  ghost predicate Resumes<S>(r: Registry<S>, d: Db<S>, e: Db<S>) {
    var pending := Pending(r, e.applied);
    pending != [] ==> Target(r, pending[0], e.schema) == Target(r, pending[0], StartOf(r, d, e).schema)
  }

  /** `e` is `from`, or where statements of the next migration took it. */
  ghost predicate IsWithin<S>(r: Registry<S>, pending: seq<string>, from: Db<S>, e: Db<S>) {
    e == from ||
    (pending != [] && r.migration(pending[0]).Piecewise? && !IsBurned(r, pending[0], from.schema)
     && var sts := r.migration(pending[0]).statements;
        exists i :: 0 < i <= |sts| && RunAll(sts[..i], from.schema) == Some(e.schema))
  }

  /** A state inside the first pending migration. */
  lemma InFirst<S>(r: Registry<S>, pending: seq<string>, d: Db<S>, e: Db<S>)
    requires pending != [] && e in OneTrail(r, pending[0], d) && e.applied == d.applied
    ensures IsWithin(r, pending, d, e)
  {
    OneTrailRecords(r, pending[0], d, e);
    assert |d.applied + [pending[0]]| == |d.applied| + 1;
    if IsBurned(r, pending[0], d.schema) || IsOccupied(r, pending[0], d.schema) || r.migration(pending[0]).Whole? {
      assert false;
    }
    var i := PassedIsACut(r.migration(pending[0]).statements, d, e);
  }

  /** All but the last state of one migration hold the records it started with. */
  lemma OneTrailSplits<S>(r: Registry<S>, name: string, d: Db<S>) returns (before: seq<Db<S>>)
    requires Target(r, name, d.schema).Some?
    ensures OneTrail(r, name, d) == before + [OneTrailEnd(r, name, d)]
    ensures forall x :: x in before ==> x.applied == d.applied
  {
    if IsBurned(r, name, d.schema) || IsOccupied(r, name, d.schema) || r.migration(name).Whole? {
      before := [];
    } else {
      before := Passed(r.migration(name).statements, d);
      forall x | x in before ensures x.applied == d.applied {
        PassedKeepsRecords(r.migration(name).statements, d, x);
      }
    }
  }

  /** The states of a run come in stretches, one for each migration, and every stretch starts on the way of the run. */
  lemma {:induction false} Stretches<S>(r: Registry<S>, pending: seq<string>, d: Db<S>, e: Db<S>) returns (i: nat)
    requires e in [d] + Trail(r, pending, d)
    ensures i <= |pending| && e.applied == d.applied + pending[..i]
    ensures
      var from := FirstWith([d] + Trail(r, pending, d), e);
      && from.applied == e.applied && IsWithin(r, pending[i..], from, e)
      && StopsAt(r, pending[i..], from.schema) == StopsAt(r, pending, d.schema)
      && EndOf(r, pending[i..], from.schema) == EndOf(r, pending, d.schema)
    decreases |pending|
  {
    assert pending[0..] == pending && d.applied + pending[..0] == d.applied;
    if e == d {
      i := 0;
    } else if Target(r, pending[0], d.schema).None? {
      i := 0;
      OneTrailRecords(r, pending[0], d, e);
      InFirst(r, pending, d, e);
    } else {
      var next := OneTrailEnd(r, pending[0], d);
      var before := OneTrailSplits(r, pending[0], d);
      var rest := Trail(r, pending[1..], next);
      assert Trail(r, pending, d) == before + ([next] + rest);
      if e in before {
        i := 0;
        InFirst(r, pending, d, e);
      } else {
        var j := Stretches(r, pending[1..], next, e);
        i := j + 1;
        Appended(d.applied, pending, j);
        assert pending[i..] == pending[1..][j..];
        assert [d] + Trail(r, pending, d) == ([d] + before) + ([next] + rest);
        SkipOthers([d] + before, [next] + rest, e);
      }
    }
  }

  lemma Appended(applied: seq<string>, pending: seq<string>, j: nat)
    requires j < |pending|
    ensures applied + [pending[0]] + pending[1..][..j] == applied + pending[..j + 1] != applied
  {
    assert |applied + pending[..j + 1]| == |applied| + j + 1;
    assert pending[..j + 1] == [pending[0]] + pending[1..][..j];
  }

  lemma DurableStretches<S>(r: Registry<S>, d: Db<S>, k: nat, e: Db<S>) returns (m: nat)
    requires Distinct(r) && HoldsFirst(r, d, k) && e in Durable(r, d)
    ensures HoldsFirst(r, e, m) && Pending(r, e.applied) == Names(r)[m..]
    ensures e.applied + Pending(r, e.applied) == d.applied + Pending(r, d.applied)
    ensures
      var from, pending := StartOf(r, d, e), Pending(r, e.applied);
      && from.applied == e.applied && IsWithin(r, pending, from, e)
      && StopsAt(r, pending, from.schema) == FailureOf(r, d)
      && EndOf(r, pending, from.schema) == EndOf(r, Pending(r, d.applied), d.schema)
  {
    var i := Stretches(r, Pending(r, d.applied), d, e);
    m := k + i;
    StretchHolds(r, d, k, i, e);
  }

  lemma StretchHolds<S>(r: Registry<S>, d: Db<S>, k: nat, i: nat, e: Db<S>)
    requires Distinct(r) && HoldsFirst(r, d, k)
    requires i <= |Pending(r, d.applied)| && e.applied == d.applied + Pending(r, d.applied)[..i]
    ensures HoldsFirst(r, e, k + i) && Pending(r, e.applied) == Names(r)[k + i..]
    ensures Pending(r, e.applied) == Pending(r, d.applied)[i..]
    ensures e.applied + Pending(r, e.applied) == d.applied + Pending(r, d.applied)
  {
    PendingIsTheRest(r, d, k);
    MoreRecords(r, d, k, i, e);
    PendingIsTheRest(r, e, k + i);
    SplitAgain(d.applied, Names(r), k, i);
  }

  lemma SplitAgain(applied: seq<string>, names: seq<string>, k: nat, i: nat)
    requires k + i <= |names|
    ensures names[k..][i..] == names[k + i..]
    ensures applied + names[k..] == (applied + names[k..][..i]) + names[k + i..]
  {
  }

  lemma {:induction false} MoreRecords<S>(r: Registry<S>, d: Db<S>, k: nat, i: nat, e: Db<S>)
    requires HoldsFirst(r, d, k) && k + i <= |r.keys| && e.applied == d.applied + Names(r)[k..][..i]
    ensures HoldsFirst(r, e, k + i)
  {
    if i == 0 {
      assert e.applied == d.applied;
    } else {
      var names := Names(r)[k..];
      var f := Db(d.applied + names[..i - 1], e.schema);
      MoreRecords(r, d, k, i - 1, f);
      RecordNext(r, f, k + i - 1, e.schema);
      assert names[..i] == names[..i - 1] + [names[i - 1]];
      assert f.applied + [Names(r)[k + i - 1]] == e.applied;
    }
  }

  /** The same end: stopped at the same migration, or complete with the same database. */
  ghost predicate SameEnd<S>(r: Registry<S>, d: Db<S>, e: Db<S>) {
    && FailureOf(r, d) == FailureOf(r, e)
    && (FailureOf(r, d).None? ==> Durable(r, d)[|Durable(r, d)| - 1] == Durable(r, e)[|Durable(r, e)| - 1])
  }

  /** A run that resumes after one cut. */
  lemma ResumedRunEndsAsUncut<S>(r: Registry<S>, d: Db<S>, k: nat, e: Db<S>) returns (m: nat)
    requires Distinct(r) && HoldsFirst(r, d, k) && e in Durable(r, d) && Resumes(r, d, e)
    ensures HoldsFirst(r, e, m) && SameEnd(r, d, e)
  {
    m := DurableStretches(r, d, k, e);
    EndIsDurable(r, d);
    EndIsDurable(r, e);
    SameTargetSameEnd(r, Pending(r, e.applied), StartOf(r, d, e).schema, e.schema);
  }

  lemma SameTargetSameEnd<S>(r: Registry<S>, pending: seq<string>, s: S, t: S)
    requires pending != [] ==> Target(r, pending[0], s) == Target(r, pending[0], t)
    requires pending == [] ==> s == t
    ensures StopsAt(r, pending, s) == StopsAt(r, pending, t) && EndOf(r, pending, s) == EndOf(r, pending, t)
  {
  }

  lemma EndIsDurable<S>(r: Registry<S>, d: Db<S>)
    ensures
      var pending := Pending(r, d.applied);
      && (FailureOf(r, d).None? <==> EndOf(r, pending, d.schema).Some?)
      && (FailureOf(r, d).None? ==>
            Durable(r, d)[|Durable(r, d)| - 1] == Db(d.applied + pending, EndOf(r, pending, d.schema).value))
  {
    LastIsTheEnd(r, Pending(r, d.applied), d);
  }

  lemma ResumingPrefix<S>(r: Registry<S>, h: seq<Db<S>>)
    requires IsHistory(r, h) && |h| > 1 && forall i :: 0 <= i < |h| - 1 ==> Resumes(r, h[i], h[i + 1])
    ensures
      var n := |h| - 1;
      && h[n] in Durable(r, h[n - 1]) && Resumes(r, h[n - 1], h[n])
      && forall i :: 0 <= i < n - 1 ==> Resumes(r, h[..n][i], h[..n][i + 1])
  {
    var n := |h| - 1;
    assert h[n - 1 + 1] in Durable(r, h[n - 1]) && Resumes(r, h[n - 1], h[n - 1 + 1]);
    forall i | 0 <= i < n - 1 ensures Resumes(r, h[..n][i], h[..n][i + 1]) { assert Resumes(r, h[i], h[i + 1]); }
  }

  /**
   * Cut the applier any number of times, on any database that holds a sorted prefix. If from each restart the
   * migration at hand records what it would have recorded uncut, the next full run ends exactly as the uncut
   * one: at the same failure, or with the same database.
   */
  lemma {:induction false} CrashHistoryEndsAsUncut<S>(r: Registry<S>, h: seq<Db<S>>, k: nat) returns (m: nat)
    requires Distinct(r) && IsHistory(r, h) && HoldsFirst(r, h[0], k)
    requires forall i :: 0 <= i < |h| - 1 ==> Resumes(r, h[i], h[i + 1])
    ensures HoldsFirst(r, h[|h| - 1], m) && SameEnd(r, h[0], h[|h| - 1])
  {
    var n := |h| - 1;
    if n == 0 {
      m := k;
    } else {
      HistoryPrefix(r, h);
      ResumingPrefix(r, h);
      var l := CrashHistoryEndsAsUncut(r, h[..n], k);
      m := ResumedRunEndsAsUncut(r, h[n - 1], l, h[n]);
      SameEndTwice(r, h[0], h[n - 1], h[n]);
    }
  }

  lemma SameEndTwice<S>(r: Registry<S>, a: Db<S>, b: Db<S>, c: Db<S>)
    requires SameEnd(r, a, b) && SameEnd(r, b, c)
    ensures SameEnd(r, a, c)
  {
  }

  /** A cut inside a migration that leaves marks always resumes, whatever the database held. */
  lemma MarkedCutsResume<S(!new)>(r: Registry<S>, d: Db<S>, k: nat, e: Db<S>, marks: seq<S -> bool>)
    requires Distinct(r) && HoldsFirst(r, d, k) && e in Durable(r, d)
    requires
      var pending := Pending(r, e.applied);
      && pending != [] && pending[0] != BATCH_PROCESSING && r.migration(pending[0]).Piecewise?
      && LeavesMarks(r.migration(pending[0]).statements, marks)
    ensures Resumes(r, d, e)
  {
    var m := DurableStretches(r, d, k, e);
    var from, pending := StartOf(r, d, e), Pending(r, e.applied);
    var sts := r.migration(pending[0]).statements;
    if e != from {
      var i :| 0 < i <= |sts| && RunAll(sts[..i], from.schema) == Some(e.schema);
      MarkedMigrationsReplay(sts, marks, i, from.schema);
    }
  }

  /** Nothing to resume: a cut outside statement-by-statement migrations. */
  lemma CutsBetweenMigrationsResume<S>(r: Registry<S>, d: Db<S>, k: nat, e: Db<S>)
    requires Distinct(r) && HoldsFirst(r, d, k) && e in Durable(r, d)
    requires Pending(r, e.applied) == [] || r.migration(Pending(r, e.applied)[0]).Whole?
    ensures Resumes(r, d, e)
  {
    var m := DurableStretches(r, d, k, e);
  }
}
