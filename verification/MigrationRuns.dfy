/** What migration runs keep and where they end, however often they are cut. */
module MigrationRuns {
  import opened Common
  import opened Migrations
  import opened Sorting

  // ---- The registry stays a sorted prefix: distinct names are enough ----

  ghost predicate Distinct<S>(r: Registry<S>) {
    forall i, j :: 0 <= i < j < |r.keys| ==> r.keys[i] != r.keys[j]
  }

  function Known<S>(r: Registry<S>): string -> bool { name => name in r.keys }

  /** The applied migrations this build knows; names of a newer build are ignored. */
  function AppliedHere<S>(r: Registry<S>, applied: seq<string>): seq<string> { Filter(applied, Known(r)) }

  predicate HoldsFirst<S>(r: Registry<S>, d: Db<S>, k: nat) {
    k <= |r.keys| && AppliedHere(r, d.applied) == Names(r)[..k]
  }

  lemma NamesAreDistinct<S>(r: Registry<S>)
    requires Distinct(r)
    ensures forall i, j :: 0 <= i < j < |Names(r)| ==> Names(r)[i] != Names(r)[j]
  {
    StringOrder();
    SortIsSorted(StringLe, r.keys);
    DistinctMultiset(r.keys);
    MultisetDistinct(Names(r));
  }

  lemma {:induction false} FilterNone<A>(s: seq<A>, p: A -> bool)
    requires forall i :: 0 <= i < |s| ==> !p(s[i])
    ensures Filter(s, p) == []
  {
    if s != [] { FilterNone(s[..|s| - 1], p); }
  }

  lemma {:induction false} FilterRest<A>(s: seq<A>, k: nat, p: A -> bool)
    requires k <= |s| && forall i :: 0 <= i < |s| ==> (p(s[i]) <==> i >= k)
    ensures Filter(s, p) == s[k..]
  {
    if |s| == k {
      FilterNone(s, p);
    } else {
      var n := |s| - 1;
      FilterRest(s[..n], k, p);
      assert s[k..] == s[..n][k..] + [s[n]];
    }
  }

  lemma InPrefix(names: seq<string>, k: nat, i: nat)
    requires k <= |names| && i < |names| && forall i, j :: 0 <= i < j < |names| ==> names[i] != names[j]
    ensures names[i] in names[..k] <==> i < k
  {
    assert i < k ==> names[..k][i] == names[i];
  }

  /** What is pending after a sorted prefix is the rest, in order. */
  lemma PendingIsTheRest<S>(r: Registry<S>, d: Db<S>, k: nat)
    requires Distinct(r) && HoldsFirst(r, d, k)
    ensures Pending(r, d.applied) == Names(r)[k..]
  {
    NamesAreDistinct(r);
    forall i | 0 <= i < |r.keys| ensures Absent(d.applied)(Names(r)[i]) <==> i >= k {
      FilterMember(d.applied, Known(r), Names(r)[i]);
      InPrefix(Names(r), k, i);
      NamesAreKeys(r, Names(r)[i]);
    }
    FilterRest(Names(r), k, Absent(d.applied));
  }

  /** Recording the next migration extends the prefix. */
  lemma RecordNext<S>(r: Registry<S>, d: Db<S>, k: nat, t: S)
    requires HoldsFirst(r, d, k) && k < |r.keys|
    ensures HoldsFirst(r, Db(d.applied + [Names(r)[k]], t), k + 1)
  {
    FilterSnoc(d.applied, Names(r)[k], Known(r));
    NamesAreKeys(r, Names(r)[k]);
    TakeNext(Names(r), k);
  }

  lemma {:induction false} PassedKeepsRecords<S>(sts: seq<Statement<S>>, d: Db<S>, e: Db<S>)
    requires e in Passed(sts, d)
    ensures e.applied == d.applied
  {
    var t := Tolerated(sts[0], d.schema).value;
    if e != Db(d.applied, t) { PassedKeepsRecords(sts[1..], Db(d.applied, t), e); }
  }

  /** One migration adds its own record, last, or none. */
  lemma OneTrailRecords<S>(r: Registry<S>, name: string, d: Db<S>, e: Db<S>)
    requires e in OneTrail(r, name, d)
    ensures e.applied == d.applied || (Target(r, name, d.schema).Some? && e == OneTrailEnd(r, name, d))
  {
    var record := if Target(r, name, d.schema).Some? then [OneTrailEnd(r, name, d)] else [];
    if e !in record {
      PassedKeepsRecords(r.migration(name).statements, d, e);
    }
  }

  function OneTrailEnd<S>(r: Registry<S>, name: string, d: Db<S>): Db<S>
    requires Target(r, name, d.schema).Some?
  {
    Db(d.applied + [name], Target(r, name, d.schema).value)
  }

  /** Every durable state of a run from a sorted prefix holds a sorted prefix that is no shorter. */
  lemma {:induction false} TrailKeepsPrefix<S>(r: Registry<S>, d: Db<S>, k: nat, e: Db<S>) returns (m: nat)
    requires HoldsFirst(r, d, k) && e in Trail(r, Names(r)[k..], d)
    ensures k <= m && HoldsFirst(r, e, m)
    decreases |r.keys| - k
  {
    var name := Names(r)[k];
    assert Names(r)[k..][1..] == Names(r)[k + 1..];
    if e in OneTrail(r, name, d) {
      OneTrailRecords(r, name, d, e);
      RecordNext(r, d, k, e.schema);
      m := if e.applied == d.applied then k else k + 1;
    } else {
      var next := OneTrailEnd(r, name, d);
      RecordNext(r, d, k, next.schema);
      m := TrailKeepsPrefix(r, next, k + 1, e);
    }
  }

  lemma DurableKeepsPrefix<S>(r: Registry<S>, d: Db<S>, k: nat, e: Db<S>) returns (m: nat)
    requires Distinct(r) && HoldsFirst(r, d, k) && e in Durable(r, d)
    ensures k <= m && HoldsFirst(r, e, m)
  {
    PendingIsTheRest(r, d, k);
    if e == d {
      m := k;
    } else {
      m := TrailKeepsPrefix(r, d, k, e);
    }
  }

  /** However often the applier is cut, the registry is a sorted prefix and never shrinks. */
  lemma {:induction false} HistoryKeepsPrefix<S>(r: Registry<S>, h: seq<Db<S>>, k: nat) returns (m: nat)
    requires Distinct(r) && IsHistory(r, h) && HoldsFirst(r, h[0], k)
    ensures k <= m && HoldsFirst(r, h[|h| - 1], m)
  {
    var n := |h| - 1;
    if n == 0 {
      m := k;
    } else {
      HistoryPrefix(r, h);
      var l := HistoryKeepsPrefix(r, h[..n], k);
      m := DurableKeepsPrefix(r, h[n - 1], l, h[n]);
    }
  }

  lemma HistoryPrefix<S>(r: Registry<S>, h: seq<Db<S>>)
    requires IsHistory(r, h) && |h| > 1
    ensures IsHistory(r, h[..|h| - 1])
  {
    var g := h[..|h| - 1];
    forall i | 0 <= i < |g| - 1 ensures g[i + 1] in Durable(r, g[i]) {
      assert h[i + 1] in Durable(r, h[i]);
    }
  }

  // ---- One transaction, all or nothing ----

  /** A single-batch migration commits once, record and schema together, or not at all. */
  lemma BatchIsAtomic<S>(r: Registry<S>, name: string, d: Db<S>)
    requires r.migration(name).Whole?
    ensures OneTrail(r, name, d)
            == if Target(r, name, d.schema).Some? then [OneTrailEnd(r, name, d)] else []
  {
  }

  /**
   * What happens to 0032 when it is next. Burned: only the record is added. Occupied: the run stops and
   * nothing is written. Half there and empty: drops, replay and record are one commit. Absent: as usual.
   */
  lemma RepairOf0032<S>(r: Registry<S>, d: Db<S>, k: nat)
    requires Distinct(r) && HoldsFirst(r, d, k) && k < |r.keys| && Names(r)[k] == "0032_batch_processing"
    requires r.migration(Names(r)[k]).Whole?
    ensures
      var found, s, body := r.repair.found(d.schema), d.schema, r.migration(Names(r)[k]).body;
      var second := if |Durable(r, d)| > 1 then Some(Durable(r, d)[1]) else None;
      var recorded := d.applied + [Names(r)[k]];
      if found == r.repair.sentinels then second == Some(Db(recorded, s))
      else if found > 0 && r.repair.rows(s) > 0 then
        Durable(r, d) == [d] && FailureOf(r, d) == Some(Names(r)[k])
      else
        var t := body(if found > 0 then r.repair.drops(s) else s);
        if t.None? then Durable(r, d) == [d] && FailureOf(r, d) == Some(Names(r)[k])
        else second == Some(Db(recorded, t.value))
  {
    PendingIsTheRest(r, d, k);
    assert Names(r)[k..][0] == BATCH_PROCESSING;
    BatchIsAtomic(r, BATCH_PROCESSING, d);
  }

  // ---- Where runs end ----

  /** The schema after the first `k` migrations on an empty database. */
  function Replay<S>(r: Registry<S>, k: nat): Option<S>
    requires k <= |r.keys|
  {
    if k == 0 then Some(r.empty)
    else match Replay(r, k - 1)
      case None => None
      case Some(s) => ApplyOne(r.migration(Names(r)[k - 1]), s)
  }

  /** 0032 is one transaction, it has sentinels, and a clean schema shows none of them. */
  ghost predicate WellFormed<S>(r: Registry<S>) {
    && Distinct(r)
    && r.migration(BATCH_PROCESSING).Whole? && r.repair.sentinels > 0
    && forall k :: 0 <= k < |r.keys| && Names(r)[k] == BATCH_PROCESSING && Replay(r, k).Some? ==>
         r.repair.found(Replay(r, k).value) == 0
  }

  /** From here the next migration records what a replay would have. */
  ghost predicate Heals<S>(r: Registry<S>, k: nat, s: S)
    requires k < |r.keys|
  {
    Target(r, Names(r)[k], s) == Replay(r, k + 1)
  }

  ghost predicate Refused<S>(r: Registry<S>, k: nat, s: S) { k < |r.keys| && IsOccupied(r, Names(r)[k], s) }

  /** The schema goes with a registry that holds the first `k` migrations. */
  ghost predicate Fits<S>(r: Registry<S>, k: nat, s: S)
    requires k <= |r.keys|
  {
    Replay(r, k).Some? && if k == |r.keys| then Replay(r, k) == Some(s) else Heals(r, k, s) || Refused(r, k, s)
  }

  ghost predicate Consistent<S>(r: Registry<S>, d: Db<S>, k: nat) { HoldsFirst(r, d, k) && Fits(r, k, d.schema) }

  /** A replayed schema fits, and is never refused. */
  lemma ReplayFits<S>(r: Registry<S>, k: nat)
    requires WellFormed(r) && k <= |r.keys| && Replay(r, k).Some?
    ensures Fits(r, k, Replay(r, k).value) && !Refused(r, k, Replay(r, k).value)
  {
  }

  /** A fresh database is consistent. */
  lemma FreshIsConsistent<S>(r: Registry<S>)
    requires WellFormed(r)
    ensures Consistent(r, Db([], r.empty), 0) && !Refused(r, 0, r.empty)
  {
    assert AppliedHere(r, []) == [];
    ReplayFits(r, 0);
  }

  /** So is one on which an early build left 0032 whole, or half and droppable, without its record. */
  lemma HalfApplied0032Fits<S>(r: Registry<S>, k: nat, s: S)
    requires WellFormed(r) && k < |r.keys| && Names(r)[k] == BATCH_PROCESSING && Replay(r, k).Some?
    requires (IsBurned(r, BATCH_PROCESSING, s) && Replay(r, k + 1) == Some(s))
             || (IsPartial(r, BATCH_PROCESSING, s) && r.repair.drops(s) == Replay(r, k).value)
    ensures Fits(r, k, s)
  {
  }

  /** Everything applied, with the schema of a replay. */
  ghost predicate IsComplete<S>(r: Registry<S>, d: Db<S>) {
    HoldsFirst(r, d, |r.keys|) && Replay(r, |r.keys|) == Some(d.schema)
  }

  lemma {:induction false} ReplayStops<S>(r: Registry<S>, k: nat)
    requires k <= |r.keys| && Replay(r, k).None?
    ensures Replay(r, |r.keys|).None?
    decreases |r.keys| - k
  {
    if k < |r.keys| { ReplayStops(r, k + 1); }
  }

  /** The last durable state of a run over `pending`. */
  function LastOf<S>(r: Registry<S>, pending: seq<string>, d: Db<S>): Db<S> {
    var t := Trail(r, pending, d);
    if t == [] then d else t[|t| - 1]
  }

  /** An uncut run from a consistent database ends complete exactly when a replay would and 0032 is not refused. */
  lemma {:induction false} TrailEndsAtReplay<S>(r: Registry<S>, d: Db<S>, k: nat)
    requires WellFormed(r) && Consistent(r, d, k)
    ensures
      var failed := StopsAt(r, Names(r)[k..], d.schema);
      && (failed.None? <==> Replay(r, |r.keys|).Some? && !Refused(r, k, d.schema))
      && (failed.None? ==> IsComplete(r, LastOf(r, Names(r)[k..], d)))
    decreases |r.keys| - k
  {
    if k == |r.keys| {
      assert Names(r)[k..] == [];
      assert Names(r)[..k] == Names(r);
    } else {
      assert Names(r)[k..][1..] == Names(r)[k + 1..];
      if Target(r, Names(r)[k], d.schema).None? {
        if !Refused(r, k, d.schema) { ReplayStops(r, k + 1); }
      } else {
        var next := OneTrailEnd(r, Names(r)[k], d);
        RecordNext(r, d, k, next.schema);
        ReplayFits(r, k + 1);
        TrailEndsAtReplay(r, next, k + 1);
        OneTrailEnds(r, Names(r)[k], d);
      }
    }
  }

  /** Migration `m` is where a replay stops too, or it is a refused 0032. */
  ghost predicate StopsRightly<S>(r: Registry<S>, k: nat, s: S, m: nat) {
    && k <= m < |r.keys|
    && if Refused(r, k, s) then m == k else Replay(r, m).Some? && Replay(r, m + 1).None?
  }

  lemma {:induction false} RunStopsRightly<S>(r: Registry<S>, k: nat, s: S) returns (m: nat)
    requires WellFormed(r) && k <= |r.keys| && Fits(r, k, s) && StopsAt(r, Names(r)[k..], s).Some?
    ensures StopsRightly(r, k, s, m) && StopsAt(r, Names(r)[k..], s) == Some(Names(r)[m])
    decreases |r.keys| - k
  {
    assert Names(r)[k..][0] == Names(r)[k] && Names(r)[k..][1..] == Names(r)[k + 1..];
    if Target(r, Names(r)[k], s).Some? {
      ReplayFits(r, k + 1);
      m := RunStopsRightly(r, k + 1, Replay(r, k + 1).value);
    } else {
      m := k;
    }
  }

  lemma OneTrailEnds<S>(r: Registry<S>, name: string, d: Db<S>)
    requires Target(r, name, d.schema).Some?
    ensures var t := OneTrail(r, name, d); t != [] && t[|t| - 1] == OneTrailEnd(r, name, d)
  {
  }

  lemma RunEndsAtReplay<S>(r: Registry<S>, d: Db<S>, k: nat)
    requires WellFormed(r) && Consistent(r, d, k)
    ensures FailureOf(r, d).None? <==> Replay(r, |r.keys|).Some? && !Refused(r, k, d.schema)
    ensures FailureOf(r, d).None? ==> IsComplete(r, Durable(r, d)[|Durable(r, d)| - 1])
    ensures FailureOf(r, d).Some? ==>
              exists m: nat :: StopsRightly(r, k, d.schema, m) && FailureOf(r, d) == Some(Names(r)[m])
  {
    PendingIsTheRest(r, d, k);
    TrailEndsAtReplay(r, d, k);
    if FailureOf(r, d).Some? {
      var m := RunStopsRightly(r, k, d.schema);
    }
  }

  // ---- Crashes ----

  /** `s` is where a run of migration `k` from `from` stands after some of its statements. */
  ghost predicate IsCutInside<S>(r: Registry<S>, k: nat, from: S, s: S) {
    && k < |r.keys| && r.migration(Names(r)[k]).Piecewise?
    && var sts := r.migration(Names(r)[k]).statements;
       exists i :: 0 < i <= |sts| && RunAll(sts[..i], from) == Some(s)
  }

  lemma {:induction false} PassedIsACut<S>(sts: seq<Statement<S>>, d: Db<S>, e: Db<S>) returns (i: nat)
    requires e in Passed(sts, d)
    ensures 0 < i <= |sts| && RunAll(sts[..i], d.schema) == Some(e.schema)
  {
    var t := Tolerated(sts[0], d.schema).value;
    if e == Db(d.applied, t) {
      i := 1;
      assert sts[..1][1..] == [];
    } else {
      var n := PassedIsACut(sts[1..], Db(d.applied, t), e);
      i := n + 1;
      assert sts[..i][1..] == sts[1..][..n];
    }
  }

  /** Where the cut migration started: where the run did, or at a replay. */
  ghost predicate StartedAt<S>(r: Registry<S>, k: nat, s: S, m: nat, from: S)
    requires m <= |r.keys|
  {
    (m == k && from == s) || Replay(r, m) == Some(from)
  }

  lemma OneTrailStates<S>(r: Registry<S>, d: Db<S>, k: nat, e: Db<S>) returns (m: nat)
    requires HoldsFirst(r, d, k) && k < |r.keys| && e in OneTrail(r, Names(r)[k], d)
    ensures HoldsFirst(r, e, m)
    ensures if m == k then IsCutInside(r, k, d.schema, e.schema)
            else m == k + 1 && Target(r, Names(r)[k], d.schema) == Some(e.schema)
  {
    var name := Names(r)[k];
    m := k;
    if Target(r, name, d.schema).Some? && e == OneTrailEnd(r, name, d) {
      RecordNext(r, d, k, e.schema);
      m := k + 1;
    } else {
      OneTrailRecords(r, name, d, e);
      var i := PassedIsACut(r.migration(name).statements, d, e);
    }
  }

  /** A crash leaves the schema at a replay, or inside one statement-by-statement migration. */
  lemma {:induction false} TrailStates<S>(r: Registry<S>, d: Db<S>, k: nat, e: Db<S>) returns (m: nat, from: S)
    requires WellFormed(r) && Consistent(r, d, k) && e in Trail(r, Names(r)[k..], d)
    ensures k <= m && HoldsFirst(r, e, m)
    ensures Replay(r, m) == Some(e.schema) || (IsCutInside(r, m, from, e.schema) && StartedAt(r, k, d.schema, m, from))
    decreases |r.keys| - k
  {
    assert Names(r)[k..][1..] == Names(r)[k + 1..];
    from := d.schema;
    if e in OneTrail(r, Names(r)[k], d) {
      m := OneTrailStates(r, d, k, e);
      if Refused(r, k, d.schema) { RefusedWritesNothing(r, d, k); }
    } else {
      var next := OneTrailEnd(r, Names(r)[k], d);
      RecordNext(r, d, k, next.schema);
      ReplayFits(r, k + 1);
      m, from := TrailStates(r, next, k + 1, e);
    }
  }

  lemma RefusedWritesNothing<S>(r: Registry<S>, d: Db<S>, k: nat)
    requires Refused(r, k, d.schema)
    ensures Target(r, Names(r)[k], d.schema).None? && OneTrail(r, Names(r)[k], d) == []
    ensures Trail(r, Names(r)[k..], d) == []
  {
    if IsBurned(r, Names(r)[k], d.schema) {
      assert false;
    }
  }

  lemma DurableStates<S>(r: Registry<S>, d: Db<S>, k: nat, e: Db<S>) returns (m: nat, from: S)
    requires WellFormed(r) && Consistent(r, d, k) && e in Durable(r, d)
    ensures k <= m && HoldsFirst(r, e, m)
    ensures e == d || Replay(r, m) == Some(e.schema)
            || (IsCutInside(r, m, from, e.schema) && StartedAt(r, k, d.schema, m, from))
    ensures e == d ==> m == k
    ensures Refused(r, k, d.schema) ==> e == d
  {
    PendingIsTheRest(r, d, k);
    if Refused(r, k, d.schema) { RefusedWritesNothing(r, d, k); }
    if e == d {
      m, from := k, d.schema;
    } else {
      m, from := TrailStates(r, d, k, e);
    }
  }

  /** A restart state that is neither a replay nor healing would be inside a migration that cannot be replayed. */
  ghost predicate CutIsHarmless<S>(r: Registry<S>, d: Db<S>) {
    var m := |AppliedHere(r, d.applied)|;
    m < |r.keys| && r.migration(Names(r)[m]).Piecewise? && Replay(r, m) != Some(d.schema) ==> Heals(r, m, d.schema)
  }

  lemma RestartIsConsistent<S>(r: Registry<S>, d: Db<S>, k: nat, e: Db<S>) returns (m: nat)
    requires WellFormed(r) && Consistent(r, d, k) && e in Durable(r, d) && CutIsHarmless(r, e)
    ensures k <= m && Consistent(r, e, m) && (Refused(r, k, d.schema) <==> Refused(r, m, e.schema))
    ensures Refused(r, k, d.schema) ==> e == d
  {
    var from;
    m, from := DurableStates(r, d, k, e);
    if e != d { HarmlessFits(r, k, d.schema, e, m, from); }
  }

  lemma HarmlessFits<S>(r: Registry<S>, k: nat, s: S, e: Db<S>, m: nat, from: S)
    requires WellFormed(r) && k <= |r.keys| && Fits(r, k, s) && HoldsFirst(r, e, m) && CutIsHarmless(r, e)
    requires Replay(r, m) == Some(e.schema)
             || (IsCutInside(r, m, from, e.schema) && StartedAt(r, k, s, m, from))
    ensures Fits(r, m, e.schema) && !Refused(r, m, e.schema)
  {
    assert |AppliedHere(r, e.applied)| == m;
    if Replay(r, m) == Some(e.schema) { ReplayFits(r, m); }
  }

  /**
   * Cut the applier any number of times. If no cut fell inside a migration that does not heal from there, the
   * next full run ends as an uncut one: complete, or at the migration where a replay stops, or refusing an
   * occupied 0032, which is then untouched.
   */
  lemma {:induction false} CrashHistoryEndsAtReplay<S>(r: Registry<S>, h: seq<Db<S>>, k: nat) returns (m: nat)
    requires WellFormed(r) && IsHistory(r, h) && Consistent(r, h[0], k)
    requires forall i :: 1 <= i < |h| ==> CutIsHarmless(r, h[i])
    ensures k <= m && Consistent(r, h[|h| - 1], m)
    ensures Refused(r, k, h[0].schema) <==> Refused(r, m, h[|h| - 1].schema)
    ensures Refused(r, k, h[0].schema) ==> h[|h| - 1] == h[0]
    ensures
      var d := h[|h| - 1];
      && (FailureOf(r, d).None? <==> Replay(r, |r.keys|).Some? && !Refused(r, k, h[0].schema))
      && (FailureOf(r, d).None? ==> IsComplete(r, Durable(r, d)[|Durable(r, d)| - 1]))
  {
    var n := |h| - 1;
    if n == 0 {
      m := k;
    } else {
      HistoryPrefix(r, h);
      var l := CrashHistoryEndsAtReplay(r, h[..n], k);
      assert h[n] in Durable(r, h[n - 1]);
      m := RestartIsConsistent(r, h[n - 1], l, h[n]);
    }
    RunEndsAtReplay(r, h[n], m);
  }

  /**
   * A cut inside migration `k`, exactly. The next run stops at that migration if its statements fail on the
   * half-run schema, and otherwise records what they make of it: the replay if and only if running them
   * again gives what running them once would have.
   */
  lemma CutInsideMigration<S>(r: Registry<S>, d: Db<S>, k: nat)
    requires WellFormed(r) && HoldsFirst(r, d, k) && k < |r.keys| && r.migration(Names(r)[k]).Piecewise?
    requires Replay(r, k).Some?
    ensures
      var again := RunAll(r.migration(Names(r)[k]).statements, d.schema);
      var once := RunAll(r.migration(Names(r)[k]).statements, Replay(r, k).value);
      && (Heals(r, k, d.schema) <==> again == once)
      && (FailureOf(r, d) == Some(Names(r)[k]) <==> again.None?)
      && (again.Some? ==> Db(d.applied + [Names(r)[k]], again.value) in Durable(r, d))
  {
    PendingIsTheRest(r, d, k);
    NamesAreDistinct(r);
    var name := Names(r)[k];
    assert Names(r)[k..][0] == name && Names(r)[k..][1..] == Names(r)[k + 1..];
    if Target(r, name, d.schema).Some? {
      LaterNames(r, k + 1, Target(r, name, d.schema).value);
      OneTrailEnds(r, name, d);
      assert OneTrailEnd(r, name, d) in OneTrail(r, name, d);
    }
  }

  lemma {:induction false} LaterNames<S>(r: Registry<S>, k: nat, s: S)
    requires k <= |r.keys|
    ensures var failed := StopsAt(r, Names(r)[k..], s);
            failed.Some? ==> exists m :: k <= m < |r.keys| && failed.value == Names(r)[m]
    decreases |r.keys| - k
  {
    if k < |r.keys| {
      assert Names(r)[k..][0] == Names(r)[k] && Names(r)[k..][1..] == Names(r)[k + 1..];
      if Target(r, Names(r)[k], s).Some? { LaterNames(r, k + 1, Target(r, Names(r)[k], s).value); }
    }
  }

  // ---- Migrations that can be replayed from anywhere ----

  /**
   * Each statement leaves a mark that no statement removes, and does nothing where its mark is: a table or
   * an index created if it does not exist, a column whose second addition is tolerated.
   */
  ghost predicate LeavesMarks<S(!new)>(sts: seq<Statement<S>>, marks: seq<S -> bool>) {
    && |marks| == |sts|
    && (forall j, s :: 0 <= j < |sts| && marks[j](s) ==> Tolerated(sts[j], s) == Some(s))
    && (forall j, s :: 0 <= j < |sts| && Tolerated(sts[j], s).Some? ==> marks[j](Tolerated(sts[j], s).value))
    && (forall j, l, s :: 0 <= j < |sts| && 0 <= l < |sts| && marks[j](s) && Tolerated(sts[l], s).Some?
                          ==> marks[j](Tolerated(sts[l], s).value))
  }

  ghost predicate Marked<S>(marks: seq<S -> bool>, i: nat, s: S) {
    i <= |marks| && forall j :: 0 <= j < i ==> marks[j](s)
  }

  /** Running on from statement `i` to statement `n`. */
  lemma {:induction false} MarksStay<S(!new)>(
    sts: seq<Statement<S>>, marks: seq<S -> bool>, i: nat, n: nat, s: S, t: S)
    requires LeavesMarks(sts, marks) && i <= n <= |sts| && Marked(marks, i, s)
    requires RunAll(sts[i..n], s) == Some(t)
    ensures Marked(marks, n, t)
    decreases n - i
  {
    if i < n {
      assert sts[i..n][1..] == sts[i + 1..n];
      MarksStay(sts, marks, i + 1, n, Tolerated(sts[i], s).value, t);
    }
  }

  /** Where the first `i` marks are, the first `i` statements do nothing. */
  lemma {:induction false} MarkedAreSkipped<S(!new)>(
    sts: seq<Statement<S>>, marks: seq<S -> bool>, from: nat, i: nat, s: S)
    requires LeavesMarks(sts, marks) && from <= i <= |sts| && Marked(marks, i, s)
    ensures RunAll(sts[from..], s) == RunAll(sts[i..], s)
    decreases i - from
  {
    if from < i {
      assert sts[from..][1..] == sts[from + 1..];
      MarkedAreSkipped(sts, marks, from + 1, i, s);
    }
  }

  lemma {:induction false} RunAllSplits<S>(sts: seq<Statement<S>>, i: nat, s: S)
    requires i <= |sts|
    ensures RunAll(sts, s) == match RunAll(sts[..i], s) { case None => None case Some(t) => RunAll(sts[i..], t) }
  {
    if i == 0 {
      assert sts[0..] == sts;
    } else {
      assert sts[..i][1..] == sts[1..][..i - 1] && sts[1..][i - 1..] == sts[i..];
      match Tolerated(sts[0], s)
      case None =>
      case Some(t) => RunAllSplits(sts[1..], i - 1, t);
    }
  }

  /** Such a migration, cut after any statement, ends from there where it would have ended uncut. */
  lemma MarkedMigrationsReplay<S(!new)>(sts: seq<Statement<S>>, marks: seq<S -> bool>, i: nat, s: S)
    requires LeavesMarks(sts, marks) && i <= |sts| && RunAll(sts[..i], s).Some?
    ensures RunAll(sts, RunAll(sts[..i], s).value) == RunAll(sts, s)
  {
    var t := RunAll(sts[..i], s).value;
    assert sts[0..i] == sts[..i] && sts[0..] == sts;
    MarksStay(sts, marks, 0, i, s, t);
    MarkedAreSkipped(sts, marks, 0, i, t);
    RunAllSplits(sts, i, s);
  }

  /** So every cut inside it is harmless, also one that follows earlier cuts. */
  lemma MarkedCutsAreHarmless<S(!new)>(
    r: Registry<S>, d: Db<S>, k: nat, e: Db<S>, marks: seq<S -> bool>)
    requires WellFormed(r) && Consistent(r, d, k) && e in Durable(r, d)
    requires
      var n := |AppliedHere(r, e.applied)|;
      n < |r.keys| && r.migration(Names(r)[n]).Piecewise? && LeavesMarks(r.migration(Names(r)[n]).statements, marks)
    ensures CutIsHarmless(r, e)
  {
    var m, from := DurableStates(r, d, k, e);
    assert |AppliedHere(r, e.applied)| == m;
    if e != d && Replay(r, m) != Some(e.schema) { MarkedCutHeals(r, k, d.schema, m, from, e.schema, marks); }
  }

  lemma MarkedCutHeals<S(!new)>(r: Registry<S>, k: nat, s: S, m: nat, from: S, t: S, marks: seq<S -> bool>)
    requires WellFormed(r) && k <= |r.keys| && Fits(r, k, s)
    requires IsCutInside(r, m, from, t) && StartedAt(r, k, s, m, from)
    requires LeavesMarks(r.migration(Names(r)[m]).statements, marks)
    ensures Heals(r, m, t)
  {
    var sts := r.migration(Names(r)[m]).statements;
    var i :| 0 < i <= |sts| && RunAll(sts[..i], from) == Some(t);
    MarkedMigrationsReplay(sts, marks, i, from);
    if Replay(r, m) == Some(from) { ReplayFits(r, m); }
  }

  // ---- Columns ----

  /** A column added to a table with these columns. */
  function AddColumn(c: string): Statement<set<string>> {
    Statement((s: set<string>) => if c in s then Err(DuplicateColumn) else Ok(s + {c}), true)
  }

  /** The same where a second addition is an error like any other. */
  function AddOnce(c: string): Statement<set<string>> { AddColumn(c).(toleratesDuplicates := false) }

  function HasColumn(c: string): set<string> -> bool { (s: set<string>) => c in s }

  lemma ColumnIsAdded(c: string, s: set<string>)
    ensures Tolerated(AddColumn(c), s) == Some(s + {c})
    ensures Tolerated(AddOnce(c), s) == if c in s then None else Some(s + {c})
  {
    if c in s { assert s + {c} == s; }
  }

  /** A migration that adds columns ends with them all, whichever of them are already there. */
  lemma {:induction false} ColumnsAreAdded(columns: seq<string>, s: set<string>)
    ensures RunAll(Map(columns, AddColumn), s) == Some(s + set c | c in columns)
    decreases |columns|
  {
    var sts := Map(columns, AddColumn);
    if columns == [] {
      assert s + (set c | c in columns) == s;
    } else {
      var c, rest := columns[0], columns[1..];
      ColumnIsAdded(c, s);
      assert sts[0] == AddColumn(c) && sts[1..] == Map(rest, AddColumn);
      ColumnsAreAdded(rest, s + {c});
      assert columns == [c] + rest;
      assert s + {c} + (set x | x in rest) == s + set x | x in columns;
    }
  }

  /** So a cut inside it is harmless. */
  lemma AddedColumnsLeaveMarks(columns: seq<string>)
    ensures LeavesMarks(Map(columns, AddColumn), Map(columns, HasColumn))
  {
    var sts, marks := Map(columns, AddColumn), Map(columns, HasColumn);
    forall j, s | 0 <= j < |sts| ensures Tolerated(sts[j], s) == Some(s + {columns[j]}) {
      ColumnIsAdded(columns[j], s);
    }
    forall j, s | 0 <= j < |sts| && marks[j](s) ensures Tolerated(sts[j], s) == Some(s) {
      assert s + {columns[j]} == s;
    }
  }
}
