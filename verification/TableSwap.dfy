/** Migrations 0012 and 0019, which the runner splits into statements: where a crash inside them can be repaired. */
module TableSwap {
  import opened Common
  import opened MigrationResumes
  import opened MigrationRuns
  import opened Migrations
  import opened Sorting

  const SCALE_LIMIT: int := 1_000_000_000_000

  /** Timestamps of `llm_results` and of the table 0019 swaps in for it, and the two indexes on the former. */
  datatype Tables = Tables(main: Option<seq<int>>, swap: Option<seq<int>>, byTarget: bool, byType: bool)

  function Scaled(t: int): int { if 0 < t < SCALE_LIMIT then 1000 * t else t }

  function CreateSwap(d: Tables): Result<Tables, Failure> {
    if d.swap.Some? then Err(OtherFailure) else Ok(d.(swap := Some([])))
  }

  function CopyScaled(d: Tables): Result<Tables, Failure> {
    if d.main.None? || d.swap.None? then Err(OtherFailure)
    else Ok(d.(swap := Some(d.swap.value + Map(d.main.value, Scaled))))
  }

  /** Dropping a table drops its indexes. */
  function DropMain(d: Tables): Result<Tables, Failure> {
    if d.main.None? then Err(OtherFailure) else Ok(Tables(None, d.swap, false, false))
  }

  function RenameSwap(d: Tables): Result<Tables, Failure> {
    if d.swap.None? || d.main.Some? then Err(OtherFailure) else Ok(d.(main := d.swap, swap := None))
  }

  function IndexByTarget(d: Tables): Result<Tables, Failure> {
    if d.main.None? then Err(OtherFailure) else Ok(d.(byTarget := true))
  }

  function IndexByType(d: Tables): Result<Tables, Failure> {
    if d.main.None? then Err(OtherFailure) else Ok(d.(byType := true))
  }

  function Swap(): seq<Statement<Tables>> {
    [Statement(CreateSwap, true), Statement(CopyScaled, true), Statement(DropMain, true),
     Statement(RenameSwap, true), Statement(IndexByTarget, true), Statement(IndexByType, true)]
  }

  /** Where a run over `rows` stands after `i` statements; `b` tells whether the first index was there. */
  function HalfSwapped(rows: seq<int>, b: bool, i: nat): Tables
    requires i <= 6
  {
    var scaled := Map(rows, Scaled);
    match i
    case 0 => Tables(Some(rows), None, b, false)
    case 1 => Tables(Some(rows), Some([]), b, false)
    case 2 => Tables(Some(rows), Some(scaled), b, false)
    case 3 => Tables(None, Some(scaled), false, false)
    case 4 => Tables(Some(scaled), None, false, false)
    case 5 => Tables(Some(scaled), None, true, false)
    case _ => Tables(Some(scaled), None, true, true)
  }

  /** One statement leads from each of these to the next. */
  lemma StatementStep(rows: seq<int>, b: bool, i: nat)
    requires i < 6
    ensures Tolerated(Swap()[i], HalfSwapped(rows, b, i)) == Some(HalfSwapped(rows, b, i + 1))
  {
    assert [] + Map(rows, Scaled) == Map(rows, Scaled);
  }

  lemma {:induction false} SwapPasses(rows: seq<int>, b: bool, i: nat, n: nat)
    requires i <= n <= 6
    ensures RunAll(Swap()[i..n], HalfSwapped(rows, b, i)) == Some(HalfSwapped(rows, b, n))
    decreases n - i
  {
    if i < n {
      assert Swap()[i..n][0] == Swap()[i] && Swap()[i..n][1..] == Swap()[i + 1..n];
      StatementStep(rows, b, i);
      SwapPasses(rows, b, i + 1, n);
    }
  }

  /** A run from a schema with the table present ends with it scaled, whichever indexes it had. */
  lemma SwapAgain(rows: seq<int>, b: bool, c: bool)
    ensures RunAll(Swap(), Tables(Some(rows), None, b, c)) == Some(HalfSwapped(rows, b, 6))
  {
    var d := Tables(Some(rows), None, b, c);
    assert Swap()[1..][1..] == Swap()[2..] && Swap()[2..][1..] == Swap()[3..];
    assert [] + Map(rows, Scaled) == Map(rows, Scaled);
    var two := Tables(Some(rows), Some(Map(rows, Scaled)), b, c);
    assert RunAll(Swap(), d) == RunAll(Swap()[1..], Tables(Some(rows), Some([]), b, c));
    assert RunAll(Swap()[1..], Tables(Some(rows), Some([]), b, c)) == RunAll(Swap()[2..], two);
    assert RunAll(Swap()[2..], two) == RunAll(Swap()[3..], HalfSwapped(rows, b, 3));
    assert Swap()[3..6] == Swap()[3..];
    SwapPasses(rows, b, 3, 6);
  }

  lemma ScalesTwiceIff(rows: seq<int>)
    ensures Map(Map(rows, Scaled), Scaled) == Map(rows, Scaled)
            <==> forall k :: 0 <= k < |rows| ==> !(0 < rows[k] < 1_000_000_000)
  {
    var once := Map(rows, Scaled);
    var twice := Map(once, Scaled);
    assert forall k :: 0 <= k < |rows| ==> once[k] == Scaled(rows[k]) && twice[k] == Scaled(Scaled(rows[k]));
    assert forall t: int :: Scaled(Scaled(t)) == Scaled(t) <==> !(0 < t < 1_000_000_000);
  }

  lemma BlockedBeforeRename(rows: seq<int>, b: bool, i: nat)
    requires 0 < i < 4
    ensures Tolerated(Swap()[0], HalfSwapped(rows, b, i)).None? && RunAll(Swap(), HalfSwapped(rows, b, i)).None?
  {
  }

  lemma RunAfterRename(rows: seq<int>, b: bool, i: nat)
    requires 4 <= i <= 6
    ensures RunAll(Swap(), HalfSwapped(rows, b, i)) == Some(HalfSwapped(Map(rows, Scaled), b, 6))
  {
    var d := HalfSwapped(rows, b, i);
    SwapAgain(Map(rows, Scaled), d.byTarget, d.byType);
  }

  /**
   * Interrupted after `i` of its statements and run again. Up to the rename it fails for good; after the
   * rename it ends as an uncut run if and only if no timestamp is early enough to be scaled twice.
   */
  lemma TableSwapReplaysIff(rows: seq<int>, b: bool, i: nat)
    requires i <= 6
    ensures RunAll(Swap()[..i], HalfSwapped(rows, b, 0)) == Some(HalfSwapped(rows, b, i))
    ensures 0 < i < 4 <==> RunAll(Swap(), HalfSwapped(rows, b, i)).None?
    ensures RunAll(Swap(), HalfSwapped(rows, b, i)) == RunAll(Swap(), HalfSwapped(rows, b, 0))
            <==> i == 0 || (4 <= i && forall k :: 0 <= k < |rows| ==> !(0 < rows[k] < 1_000_000_000))
  {
    assert Swap()[0..i] == Swap()[..i];
    SwapPasses(rows, b, 0, i);
    SwapAgain(rows, b, false);
    if 0 < i < 4 {
      BlockedBeforeRename(rows, b, i);
    } else if i >= 4 {
      RunAfterRename(rows, b, i);
      ScalesTwiceIff(rows);
    }
  }

  // ---- In any registry, on any database ----

  ghost predicate RunsSwap(r: Registry<Tables>, d: Db<Tables>, k: nat) {
    HoldsFirst(r, d, k) && k < |r.keys| && Names(r)[k] != BATCH_PROCESSING
    && r.migration(Names(r)[k]) == Piecewise(Swap())
  }

  /** A database cut inside 0019 before its rename stays there: every run stops at it and writes nothing. */
  lemma CutSwapBlocksEveryRun(r: Registry<Tables>, d: Db<Tables>, k: nat, rows: seq<int>, b: bool, i: nat)
    requires Distinct(r) && RunsSwap(r, d, k)
    requires 0 < i < 4 && d.schema == HalfSwapped(rows, b, i)
    ensures FailureOf(r, d) == Some(Names(r)[k]) && Durable(r, d) == [d]
  {
    BlockedBeforeRename(rows, b, i);
    PendingIsTheRest(r, d, k);
    assert Names(r)[k..][0] == Names(r)[k];
  }

  /** A database cut inside 0019 after its rename records what the uncut run would, exactly on late timestamps. */
  lemma CutSwapHealsIff(r: Registry<Tables>, name: string, rows: seq<int>, b: bool, i: nat)
    requires name != BATCH_PROCESSING && r.migration(name) == Piecewise(Swap()) && 4 <= i <= 6
    ensures Target(r, name, HalfSwapped(rows, b, i)) == Target(r, name, HalfSwapped(rows, b, 0))
            <==> forall l :: 0 <= l < |rows| ==> !(0 < rows[l] < 1_000_000_000)
  {
    TableSwapReplaysIff(rows, b, i);
  }

  lemma {:induction false} PassedReaches(applied: seq<string>, rows: seq<int>, b: bool, i: nat, n: nat)
    requires i < n <= 6
    ensures Db(applied, HalfSwapped(rows, b, n)) in Passed(Swap()[i..], Db(applied, HalfSwapped(rows, b, i)))
    decreases n - i
  {
    assert Swap()[i..][0] == Swap()[i] && Swap()[i..][1..] == Swap()[i + 1..];
    StatementStep(rows, b, i);
    if i + 1 < n { PassedReaches(applied, rows, b, i + 1, n); }
  }

  /** A crash can leave a database after each of the statements. */
  lemma CutSwapIsReachable(r: Registry<Tables>, d: Db<Tables>, k: nat, rows: seq<int>, b: bool, i: nat)
    requires Distinct(r) && RunsSwap(r, d, k) && i <= 6 && d.schema == HalfSwapped(rows, b, 0)
    ensures Db(d.applied, HalfSwapped(rows, b, i)) in Durable(r, d)
  {
    PendingIsTheRest(r, d, k);
    assert Names(r)[k..][0] == Names(r)[k];
    if i > 0 {
      PassedReaches(d.applied, rows, b, 0, i);
      assert Swap()[0..] == Swap();
      assert Db(d.applied, HalfSwapped(rows, b, i)) in OneTrail(r, Names(r)[k], d);
    }
  }

  /**
   * A run of 0019 over any rows, cut after `i` statements, resumes from there exactly when none was run, or
   * the rename was and no timestamp is early enough to be scaled twice.
   */
  lemma CutSwapResumesIff(r: Registry<Tables>, d: Db<Tables>, k: nat, rows: seq<int>, b: bool, i: nat)
    requires Distinct(r) && RunsSwap(r, d, k) && i <= 6 && d.schema == HalfSwapped(rows, b, 0)
    ensures
      var e := Db(d.applied, HalfSwapped(rows, b, i));
      && e in Durable(r, d)
      && (Resumes(r, d, e) <==>
            i == 0 || (4 <= i && forall l :: 0 <= l < |rows| ==> !(0 < rows[l] < 1_000_000_000)))
  {
    CutSwapIsReachable(r, d, k, rows, b, i);
    TableSwapReplaysIff(rows, b, i);
    var e := Db(d.applied, HalfSwapped(rows, b, i));
    PendingIsTheRest(r, d, k);
    assert Names(r)[k..][0] == Names(r)[k];
    assert StartOf(r, d, e) == d;
  }

  /** What a cut after the rename records: the swap over rows that are scaled already. */
  lemma CutSwapRecords(r: Registry<Tables>, d: Db<Tables>, k: nat, rows: seq<int>, b: bool, i: nat)
    requires Distinct(r) && RunsSwap(r, d, k) && 4 <= i <= 6 && d.schema == HalfSwapped(rows, b, i)
    ensures Db(d.applied + [Names(r)[k]], HalfSwapped(Map(rows, Scaled), b, 6)) in Durable(r, d)
  {
    RunAfterRename(rows, b, i);
    PendingIsTheRest(r, d, k);
    assert Names(r)[k..][0] == Names(r)[k];
    OneTrailEnds(r, Names(r)[k], d);
    assert OneTrailEnd(r, Names(r)[k], d) in OneTrail(r, Names(r)[k], d);
  }

  // ---- 0012, which creates the table, can be replayed ----

  function CreateMain(d: Tables): Result<Tables, Failure> {
    Ok(if d.main.Some? then d else Tables(Some([]), d.swap, false, false))
  }

  /** The two statements of 0012, each skipped where its object exists. */
  function Create(): seq<Statement<Tables>> { [Statement(CreateMain, true), Statement(IndexByTarget, true)] }

  /** It leaves a table that is there alone, and makes an empty one otherwise. */
  lemma CreateEndsWith(d: Tables)
    ensures RunAll(Create(), d) == Some(Tables(if d.main.Some? then d.main else Some([]), d.swap, true,
                                               d.main.Some? && d.byType))
  {
    var e := CreateMain(d).value;
    assert Tolerated(Create()[0], d) == Some(e);
    assert Create()[1..] == [Statement(IndexByTarget, true)] && Create()[1..][1..] == [];
    assert Tolerated(Create()[1], e) == Some(e.(byTarget := true));
  }

  function CreateMarks(): seq<Tables -> bool> {
    [(d: Tables) => d.main.Some?, (d: Tables) => d.main.Some? && d.byTarget]
  }

  lemma CreateLeavesMarks()
    ensures LeavesMarks(Create(), CreateMarks())
  {
  }

  /** So a cut inside it resumes, on any database. */
  lemma CutCreateResumes(r: Registry<Tables>, d: Db<Tables>, k: nat, e: Db<Tables>, m: nat)
    requires Distinct(r) && HoldsFirst(r, d, k) && e in Durable(r, d) && HoldsFirst(r, e, m)
    requires m < |r.keys| && Names(r)[m] != BATCH_PROCESSING && r.migration(Names(r)[m]) == Piecewise(Create())
    ensures Resumes(r, d, e)
  {
    PendingIsTheRest(r, e, m);
    assert Names(r)[m..][0] == Names(r)[m];
    CreateLeavesMarks();
    MarkedCutsResume(r, d, k, e, CreateMarks());
  }

  // ---- One database that is lost to every later run ----

  const CREATE: string := "0012_llm_results"
  const SWAP: string := "0019_llm_results_target_type"

  lemma TwoNames()
    ensures Sort(StringLe, [SWAP, CREATE]) == [CREATE, SWAP]
    ensures CREATE != SWAP && CREATE != BATCH_PROCESSING && SWAP != BATCH_PROCESSING
  {
    assert CREATE[3] == '2' && SWAP[3] == '9' && BATCH_PROCESSING[2] == '3';
    assert CREATE[2] == SWAP[2] == '1';
    FirstDifference(SWAP, CREATE, 3);
    SortTwo(StringLe, SWAP, CREATE);
  }

  lemma SortTwo<T>(le: (T, T) -> bool, x: T, y: T)
    requires !le(x, y)
    ensures Sort(le, [x, y]) == [y, x]
  {
    assert [x, y][..1] == [x] && [x][..0] == [];
    assert Sort(le, [x]) == [x];
    assert Insert(le, [], y) == [y];
    assert Insert(le, [x], y) == Insert(le, [], y) + [x];
  }

  lemma {:induction false} FirstDifference(a: string, b: string, i: nat)
    requires i < |a| && i < |b| && a[..i] == b[..i] && a[i] > b[i]
    ensures !StringLe(a, b)
  {
    if i > 0 {
      assert a[0] == a[..i][0] == b[0];
      assert a[1..][..i - 1] == a[..i][1..] && b[1..][..i - 1] == b[..i][1..];
      FirstDifference(a[1..], b[1..], i - 1);
    }
  }

  /** With 0012 recorded and one result in its table, a crash during 0019 can leave what no later run gets past. */
  lemma AStrandedDatabase(time: int) returns (r: Registry<Tables>, d: Db<Tables>, e: Db<Tables>)
    ensures WellFormed(r) && Names(r) == [CREATE, SWAP]
    ensures r.migration(CREATE) == Piecewise(Create()) && r.migration(SWAP) == Piecewise(Swap())
    ensures d == Db([CREATE], HalfSwapped([time], true, 0)) && e in Durable(r, d)
    ensures FailureOf(r, e) == Some(SWAP) && Durable(r, e) == [e]
  {
    var other := Whole((d: Tables) => Some(d));
    r := Registry(
      [SWAP, CREATE],
      (n: string) => if n == CREATE then Piecewise(Create()) else if n == SWAP then Piecewise(Swap()) else other,
      Repair(1, (d: Tables) => 0, (d: Tables) => 0, (d: Tables) => d), Tables(None, None, false, false));
    TwoNames();
    d, e := Db([CREATE], HalfSwapped([time], true, 0)), Db([CREATE], HalfSwapped([time], true, 2));
    OneRecord(r, d);
    OneRecord(r, e);
    CutSwapIsReachable(r, d, 1, [time], true, 2);
    CutSwapBlocksEveryRun(r, e, 1, [time], true, 2);
  }

  lemma OneRecord(r: Registry<Tables>, d: Db<Tables>)
    requires d.applied == [CREATE] && r.keys == [SWAP, CREATE] && Names(r) == [CREATE, SWAP]
    ensures HoldsFirst(r, d, 1)
  {
    FilterSnoc([], CREATE, Known(r));
    assert [] + [CREATE] == [CREATE] && Names(r)[..1] == [CREATE];
    assert CREATE in r.keys by { assert r.keys[1] == CREATE; }
  }
}
