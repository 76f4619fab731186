/** `applyMigrations` and `runMigrations` of `runner.ts`: what they commit, in which order, and how they end. */
module Migrations {
  import opened Common
  import opened Sorting

  const BATCH_PROCESSING: string := "0032_batch_processing"

  datatype Failure = DuplicateColumn | OtherFailure

  /** One autocommitted statement. A failed one changes nothing. */
  datatype Statement<!S> = Statement(run: S -> Result<S, Failure>, toleratesDuplicates: bool)

  /** A migration runs as one transaction, or statement by statement. */
  datatype Migration<!S> = Whole(body: S -> Option<S>) | Piecewise(statements: seq<Statement<S>>)

  /** What the repair of a half-applied 0032 reads from a schema, and its drops. */
  datatype Repair<!S> = Repair(sentinels: nat, found: S -> nat, rows: S -> nat, drops: S -> S)

  datatype Registry<!S> = Registry(
    keys: seq<string>, migration: string -> Migration<S>, repair: Repair<S>, empty: S)

  /** What is durable: the names in `_migrations`, by id, and everything else. */
  datatype Db<S> = Db(applied: seq<string>, schema: S)

  function Names<S>(r: Registry<S>): (names: seq<string>)
    ensures |names| == |r.keys|
  {
    Sort(StringLe, r.keys)
  }

  function Absent(applied: seq<string>): string -> bool { name => name !in applied }

  /** What a database with these records still lacks, in filename order. */
  function Pending<S>(r: Registry<S>, applied: seq<string>): seq<string> { Filter(Names(r), Absent(applied)) }

  // ---- One migration ----

  function Tolerated<S>(st: Statement<S>, s: S): Option<S> {
    match st.run(s)
    case Ok(t) => Some(t)
    case Err(f) => if st.toleratesDuplicates && f.DuplicateColumn? then Some(s) else None
  }

  function RunAll<S>(sts: seq<Statement<S>>, s: S): Option<S> {
    if sts == [] then Some(s)
    else match Tolerated(sts[0], s)
      case None => None
      case Some(t) => RunAll(sts[1..], t)
  }

  /** The durable state after each statement, up to the first that fails. */
  function Passed<S>(sts: seq<Statement<S>>, d: Db<S>): seq<Db<S>> {
    if sts == [] then []
    else match Tolerated(sts[0], d.schema)
      case None => []
      case Some(t) => [Db(d.applied, t)] + Passed(sts[1..], Db(d.applied, t))
  }

  function ApplyOne<S>(m: Migration<S>, s: S): Option<S> {
    match m
    case Whole(body) => body(s)
    case Piecewise(sts) => RunAll(sts, s)
  }

  /** All objects of 0032 are there, although it is not recorded. */
  predicate IsBurned<S>(r: Registry<S>, name: string, s: S) {
    name == BATCH_PROCESSING && r.repair.found(s) == r.repair.sentinels
  }

  /** Some of them are. */
  predicate IsPartial<S>(r: Registry<S>, name: string, s: S) {
    name == BATCH_PROCESSING && 0 < r.repair.found(s) && r.repair.found(s) != r.repair.sentinels
  }

  /** And they hold queue rows, so nothing may be dropped. */
  predicate IsOccupied<S>(r: Registry<S>, name: string, s: S) { IsPartial(r, name, s) && r.repair.rows(s) > 0 }

  /** Where a single-batch migration starts, inside its own transaction. */
  function Repaired<S>(r: Registry<S>, name: string, s: S): S {
    if IsPartial(r, name, s) then r.repair.drops(s) else s
  }

  /** The schema that gets recorded under `name`, if the migration comes that far. */
  function Target<S>(r: Registry<S>, name: string, s: S): Option<S> {
    if IsBurned(r, name, s) then Some(s)
    else if IsOccupied(r, name, s) then None
    else match r.migration(name)
      case Whole(body) => body(Repaired(r, name, s))
      case Piecewise(sts) => RunAll(sts, s)
  }

  /** The durable states one migration passes through. */
  function OneTrail<S>(r: Registry<S>, name: string, d: Db<S>): seq<Db<S>> {
    var record := match Target(r, name, d.schema)
                  case None => []
                  case Some(t) => [Db(d.applied + [name], t)];
    if IsBurned(r, name, d.schema) || IsOccupied(r, name, d.schema) || r.migration(name).Whole? then record
    else Passed(r.migration(name).statements, d) + record
  }

  // ---- A whole run ----

  function Trail<S>(r: Registry<S>, pending: seq<string>, d: Db<S>): seq<Db<S>> {
    if pending == [] then []
    else match Target(r, pending[0], d.schema)
      case None => OneTrail(r, pending[0], d)
      case Some(t) => OneTrail(r, pending[0], d) + Trail(r, pending[1..], Db(d.applied + [pending[0]], t))
  }

  /** Every durable state of a run from `d`: where a crash may leave the database. */
  function Durable<S>(r: Registry<S>, d: Db<S>): (trail: seq<Db<S>>)
    ensures trail != [] && trail[0] == d
  {
    [d] + Trail(r, Pending(r, d.applied), d)
  }

  /** The migration a run stops at. */
  function StopsAt<S>(r: Registry<S>, pending: seq<string>, s: S): Option<string> {
    if pending == [] then None
    else match Target(r, pending[0], s)
      case None => Some(pending[0])
      case Some(t) => StopsAt(r, pending[1..], t)
  }

  function FailureOf<S>(r: Registry<S>, d: Db<S>): Option<string> { StopsAt(r, Pending(r, d.applied), d.schema) }

  /** Each state of a history is where a crash, or the end, left the run before. */
  ghost predicate IsHistory<S>(r: Registry<S>, h: seq<Db<S>>) {
    h != [] && forall i :: 0 <= i < |h| - 1 ==> h[i + 1] in Durable(r, h[i])
  }

  // ---- The code ----

  class Client<S> {
    var applied: seq<string>
    var schema: S
    /** Every durable state since the call began. */
    var trail: seq<Db<S>>

    constructor (applied: seq<string>, schema: S)
      ensures this.applied == applied && this.schema == schema && this.trail == [Db(applied, schema)]
    {
      this.applied, this.schema, this.trail := applied, schema, [Db(applied, schema)];
    }

    function Now(): Db<S> reads this { Db(applied, schema) }

    ghost predicate Valid() reads this { trail != [] && trail[|trail| - 1] == Now() }

    method Commit(d: Db<S>)
      modifies this
      ensures Valid() && Now() == d && trail == old(trail) + [d]
    {
      applied, schema := d.applied, d.schema;
      trail := trail + [d];
    }

    /** A statement-by-statement migration, without its record. */
    method RunStatements(sts: seq<Statement<S>>) returns (ok: bool)
      requires Valid()
      modifies this
      ensures Valid() && applied == old(applied) && trail == old(trail) + Passed(sts, old(Now()))
      ensures ok <==> RunAll(sts, old(schema)).Some?
      ensures ok ==> RunAll(sts, old(schema)) == Some(schema)
    {
      assert sts[0..] == sts;
      for i := 0 to |sts|
        invariant Valid() && applied == old(applied)
        invariant trail + Passed(sts[i..], Now()) == old(trail) + Passed(sts, old(Now()))
        invariant RunAll(sts[i..], schema) == RunAll(sts, old(schema))
      {
        assert sts[i..][1..] == sts[i + 1..];
        var t := Tolerated(sts[i], schema);
        if t.None? {
          assert trail + [] == trail;
          return false;
        }
        ghost var was := trail;
        Commit(Db(applied, t.value));
        assert was + ([Now()] + Passed(sts[i + 1..], Now())) == trail + Passed(sts[i + 1..], Now());
      }
      assert trail + [] == trail;
      return true;
    }

    /** One pending migration, up to its record. */
    method ApplyNext(r: Registry<S>, name: string) returns (ok: bool)
      requires Valid()
      modifies this
      ensures Valid() && trail == old(trail) + OneTrail(r, name, old(Now()))
      ensures ok <==> Target(r, name, old(schema)).Some?
      ensures ok ==> applied == old(applied) + [name] && Target(r, name, old(schema)) == Some(schema)
    {
      var base := schema;
      if name == BATCH_PROCESSING {
        var found := r.repair.found(schema);
        if found == r.repair.sentinels {
          Commit(Db(applied + [name], schema));
          return true;
        }
        if found > 0 {
          if r.repair.rows(schema) > 0 {
            return false;
          }
          base := r.repair.drops(schema);
        }
      }
      match r.migration(name) {
        case Whole(body) =>
          var t := body(base);
          if t.None? {
            return false;
          }
          Commit(Db(applied + [name], t.value));
          return true;
        case Piecewise(sts) =>
          ok := RunStatements(sts);
          if !ok {
            return false;
          }
          Commit(Db(applied + [name], schema));
          return true;
      }
    }

    /** Run all pending migrations in filename order, whatever the registry and the database hold. */
    method ApplyMigrations(r: Registry<S>) returns (failed: Option<string>)
      modifies this
      ensures Valid() && trail == Durable(r, old(Now()))
      ensures failed == FailureOf(r, old(Now()))
    {
      trail := [Now()];
      var pending := Pending(r, applied);
      assert pending[0..] == pending;
      for i := 0 to |pending|
        invariant Valid() && trail + Trail(r, pending[i..], Now()) == Durable(r, old(Now()))
        invariant StopsAt(r, pending[i..], schema) == FailureOf(r, old(Now()))
      {
        assert pending[i..][1..] == pending[i + 1..];
        ghost var was, d := trail, Now();
        var ok := ApplyNext(r, pending[i]);
        if !ok {
          return Some(pending[i]);
        }
        Regroup(was, OneTrail(r, pending[i], d), Trail(r, pending[i + 1..], Now()));
      }
      assert trail + [] == trail;
      return None;
    }

    /** The applier is cut after any commit, any number of times, and then runs to its end. */
    method ApplyDespiteCrashes(r: Registry<S>, cuts: seq<nat>)
      returns (failed: Option<string>, ghost history: seq<Db<S>>)
      modifies this
      ensures IsHistory(r, history) && history[0] == old(Now())
      ensures Valid() && trail == Durable(r, history[|history| - 1])
      ensures failed == FailureOf(r, history[|history| - 1])
    {
      history := [Now()];
      for i := 0 to |cuts|
        invariant IsHistory(r, history) && history[0] == old(Now()) && history[|history| - 1] == Now()
      {
        var _ := ApplyMigrations(r);
        if cuts[i] < |trail| {
          var at := trail[cuts[i]];
          applied, schema := at.applied, at.schema;
        }
        history := history + [Now()];
      }
      failed := ApplyMigrations(r);
    }
  }

  lemma Regroup<T>(a: seq<T>, b: seq<T>, c: seq<T>)
    ensures a + (b + c) == (a + b) + c
  {
  }

  // ---- The gate ----

  lemma NamesAreKeys<S>(r: Registry<S>, n: string)
    ensures n in Names(r) <==> n in r.keys
  {
    StringOrder();
    SortMembers(StringLe, r.keys, n);
  }

  lemma {:induction false} FilterSorted(s: seq<string>, p: string -> bool)
    requires Sorted(StringLe, s)
    ensures Sorted(StringLe, Filter(s, p))
  {
    if s != [] {
      var n := |s| - 1;
      FilterSorted(s[..n], p);
      forall x | x in Filter(s[..n], p) ensures StringLe(x, s[n]) { FilterMember(s[..n], p, x); }
    }
  }

  /** What is pending is exactly what this build knows and the database has not recorded, in order. */
  lemma PendingIsWhatIsMissing<S>(r: Registry<S>, applied: seq<string>)
    ensures forall n :: n in Pending(r, applied) <==> n in r.keys && n !in applied
    ensures Sorted(StringLe, Pending(r, applied))
  {
    forall n ensures n in Pending(r, applied) <==> n in r.keys && n !in applied {
      NamesAreKeys(r, n);
      FilterMember(Names(r), Absent(applied), n);
    }
    StringOrder();
    SortIsSorted(StringLe, r.keys);
    FilterSorted(Names(r), Absent(applied));
  }

  /** The verify-only gate: the migrations that are missing. No table counts as an empty one. */
  method RunMigrations<S>(r: Registry<S>, table: Option<seq<string>>) returns (missing: seq<string>)
    ensures forall n :: n in missing <==> n in r.keys && (table.None? || n !in table.value)
    ensures missing == [] <==> forall n :: n in r.keys ==> table.Some? && n in table.value
    ensures Sorted(StringLe, missing)
  {
    var applied := if table.None? then [] else table.value;
    missing := Pending(r, applied);
    PendingIsWhatIsMissing(r, applied);
    if missing != [] {
      assert missing[0] in missing;
    }
  }
}
