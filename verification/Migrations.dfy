/** The schema migration runner: one transaction per version, and a table that records the
    versions already applied. */
module Migrations {

  /** A script, by its version; the first one also creates the table of versions. */
  datatype Migration = Migration(version: int, createsTable: bool)

  const MIGRATIONS: seq<Migration> := [Migration(1, true), Migration(2, false)]

  /** The committed database: does the version table exist, what does it hold, and which
      scripts were committed, in order. */
  datatype Schema = Schema(table: bool, recorded: set<int>, ran: seq<int>)

  /** The statements of one transaction that fail for reasons of their own. */
  datatype Faults = Faults(begin: bool, query: bool, script: bool, record: bool, commit: bool)

  type Run = nat -> Faults

  class Database {
    var table: bool
    var recorded: set<int>
    var ran: seq<int>

    function State(): Schema
      reads this
    {
      Schema(table, recorded, ran)
    }

    constructor (s: Schema)
      ensures State() == s
    {
      table, recorded, ran := s.table, s.recorded, s.ran;
    }

    /** `aborts` says that a failed statement aborts its transaction, so that every later
        statement of it fails too, as in PostgreSQL. */
    method Migrate(ms: seq<Migration>, run: Run, aborts: bool) returns (ok: bool)
      modifies this
      ensures (State(), ok) == After(old(State()), ms, |ms|, run, aborts)
    {
      ghost var start := State();
      for i := 0 to |ms|
        invariant After(start, ms, i, run, aborts) == (State(), true)
      {
        var m, f := ms[i], run(i);
        ghost var before := State();
        ok := ApplyOne(m, f, aborts);
        if !ok {
          StopsThere(start, ms, i + 1, run, aborts);
          return;
        }
      }
      return true;
    }

    /** One turn of the loop. Nothing is visible before the commit. */
    method ApplyOne(m: Migration, f: Faults, aborts: bool) returns (ok: bool)
      modifies this
      ensures (State(), ok) == Step(old(State()), m, f, aborts)
    {
      if f.begin {
        return false;
      }
      var queryFailed := !table || f.query;
      if !queryFailed && m.version in recorded {
        return true;
      }
      if queryFailed && aborts {
        return false;
      }
      var stagedTable := table;
      if f.script {
        return false;
      }
      if m.createsTable {
        stagedTable := true;
      }
      if !stagedTable || f.record || m.version in recorded {
        return false;
      }
      if f.commit {
        return false;
      }
      table, recorded, ran := stagedTable, recorded + {m.version}, ran + [m.version];
      return true;
    }
  }

  function Step(s: Schema, m: Migration, f: Faults, aborts: bool): (Schema, bool) {
    var queried := s.table && !f.query;
    if f.begin then (s, false)
    else if queried && m.version in s.recorded then (s, true)
    else if f.script || (!queried && aborts) then (s, false)
    else if f.record || !(s.table || m.createsTable) || m.version in s.recorded then (s, false)
    else if f.commit then (s, false)
    else (Schema(true, s.recorded + {m.version}, s.ran + [m.version]), true)
  }

  /** The state after the first i turns, and whether the loop is still running. */
  function After(s: Schema, ms: seq<Migration>, i: nat, run: Run, aborts: bool): (Schema, bool)
    requires i <= |ms|
  {
    if i == 0 then (s, true)
    else
      var (t, ok) := After(s, ms, i - 1, run, aborts);
      if ok then Step(t, ms[i - 1], run(i - 1), aborts) else (t, false)
  }

  lemma {:induction false} StopsThere(s: Schema, ms: seq<Migration>, i: nat, run: Run, aborts: bool)
    requires i <= |ms| && !After(s, ms, i, run, aborts).1
    ensures After(s, ms, |ms|, run, aborts) == After(s, ms, i, run, aborts)
    decreases |ms| - i
  {
    if i < |ms| {
      StopsThere(s, ms, i + 1, run, aborts);
    }
  }

  // The prefix invariant.

  function Versions(ms: seq<Migration>): (vs: seq<int>)
    ensures |vs| == |ms| && forall i | 0 <= i < |ms| :: vs[i] == ms[i].version
  {
    seq(|ms|, i requires 0 <= i < |ms| => ms[i].version)
  }

  ghost predicate DistinctVersions(ms: seq<Migration>) {
    forall i, j | 0 <= i < j < |ms| :: ms[i].version != ms[j].version
  }

  /** The first k migrations, and nothing else, have been committed, each once. */
  ghost predicate At(s: Schema, ms: seq<Migration>, k: nat) {
    && k <= |ms|
    && s.ran == Versions(ms)[..k]
    && (forall v :: v in s.recorded <==> v in s.ran)
    && (k > 0 ==> s.table)
  }

  lemma RecordedAt(s: Schema, ms: seq<Migration>, k: nat, i: nat)
    requires DistinctVersions(ms) && At(s, ms, k) && i < |ms|
    ensures ms[i].version in s.recorded <==> i < k
  {
    var vs := Versions(ms);
    if i < k {
      assert s.ran[i] == vs[i];
    } else {
      assert forall j | 0 <= j < k :: ms[j].version != ms[i].version;
    }
  }

  lemma StepAt(s: Schema, ms: seq<Migration>, k: nat, i: nat, f: Faults, aborts: bool)
    requires DistinctVersions(ms) && At(s, ms, k) && i < |ms| && i <= k
    ensures var (t, ok) := Step(s, ms[i], f, aborts);
            if ok then At(t, ms, if k == i then i + 1 else k) else t == s
  {
    RecordedAt(s, ms, k, i);
    var vs := Versions(ms);
    assert i == k ==> vs[..k + 1] == vs[..k] + [vs[k]];
  }

  /** From a database whose recorded versions are a prefix of the list they stay one at every
      commit and every failure; the loop that is still running has recorded all it passed. */
  lemma {:induction false} PrefixKept(s: Schema, ms: seq<Migration>, k: nat, i: nat, run: Run, aborts: bool)
    returns (n: nat)
    requires DistinctVersions(ms) && At(s, ms, k) && i <= |ms|
    ensures k <= n && At(After(s, ms, i, run, aborts).0, ms, n)
    ensures n <= if i <= k then k else i
    ensures After(s, ms, i, run, aborts).1 ==> n == if i <= k then k else i
  {
    if i == 0 {
      n := k;
    } else {
      n := PrefixKept(s, ms, k, i - 1, run, aborts);
      var (t, ok) := After(s, ms, i - 1, run, aborts);
      if ok {
        StepAt(t, ms, n, i - 1, run(i - 1), aborts);
        if Step(t, ms[i - 1], run(i - 1), aborts).1 && n == i - 1 {
          n := i;
        }
      }
    }
  }

  /** Success records every version, and each script was committed exactly once. */
  lemma SuccessRecordsAll(s: Schema, ms: seq<Migration>, k: nat, run: Run, aborts: bool)
    requires DistinctVersions(ms) && At(s, ms, k)
    requires After(s, ms, |ms|, run, aborts).1
    ensures var t := After(s, ms, |ms|, run, aborts).0;
            && t.ran == Versions(ms)
            && forall i | 0 <= i < |ms| :: ms[i].version in t.recorded
  {
    var n := PrefixKept(s, ms, k, |ms|, run, aborts);
    var t := After(s, ms, |ms|, run, aborts).0;
    assert Versions(ms)[..|ms|] == Versions(ms);
    forall i | 0 <= i < |ms|
      ensures ms[i].version in t.recorded
    {
      RecordedAt(t, ms, n, i);
    }
  }

  /** On a database that is up to date a further run changes nothing, whatever fails. */
  lemma {:induction false} UpToDateIsFixed(s: Schema, ms: seq<Migration>, i: nat, run: Run, aborts: bool)
    requires DistinctVersions(ms) && At(s, ms, |ms|) && i <= |ms|
    ensures After(s, ms, i, run, aborts).0 == s
    ensures After(s, ms, i, run, aborts).1 <==> forall j | 0 <= j < i :: !run(j).begin && !run(j).query
  {
    if i > 0 {
      UpToDateIsFixed(s, ms, i - 1, run, aborts);
      RecordedAt(s, ms, |ms|, i - 1);
    }
  }

  /** The database after several runs, each with faults of its own. */
  function AfterRuns(s: Schema, ms: seq<Migration>, runs: seq<Run>, aborts: bool): Schema {
    if runs == [] then s
    else After(AfterRuns(s, ms, runs[..|runs| - 1], aborts), ms, |ms|, runs[|runs| - 1], aborts).0
  }

  /** However often and wherever runs fail, no script is ever committed twice. */
  lemma {:induction false} EachScriptOnce(s: Schema, ms: seq<Migration>, k: nat, runs: seq<Run>, aborts: bool)
    returns (n: nat)
    requires DistinctVersions(ms) && At(s, ms, k)
    ensures k <= n && At(AfterRuns(s, ms, runs, aborts), ms, n)
    ensures var ran := AfterRuns(s, ms, runs, aborts).ran;
            forall i, j | 0 <= i < j < |ran| :: ran[i] != ran[j]
  {
    if runs == [] {
      n := k;
    } else {
      var last := |runs| - 1;
      var before := EachScriptOnce(s, ms, k, runs[..last], aborts);
      n := PrefixKept(AfterRuns(s, ms, runs[..last], aborts), ms, before, |ms|, runs[last], aborts);
    }
    var ran := AfterRuns(s, ms, runs, aborts).ran;
    forall i, j | 0 <= i < j < |ran|
      ensures ran[i] != ran[j]
    {
      assert ran[i] == ms[i].version && ran[j] == ms[j].version;
    }
  }

  // Starting from nothing.

  ghost predicate Faultless(run: Run) {
    forall i :: run(i) == Faults(false, false, false, false, false)
  }

  /** Without faults, a run succeeds exactly when the version table is already there or a
      transaction survives the failed version query and the first script creates it. */
  lemma MigrateSucceedsExactly(s: Schema, ms: seq<Migration>, k: nat, run: Run, aborts: bool)
    requires DistinctVersions(ms) && At(s, ms, k) && ms != [] && Faultless(run)
    ensures After(s, ms, |ms|, run, aborts).1 <==> s.table || (!aborts && ms[0].createsTable)
  {
    if s.table || (!aborts && ms[0].createsTable) {
      RunsThrough(s, ms, k, |ms|, run, aborts);
    } else {
      assert !After(s, ms, 1, run, aborts).1;
      StopsThere(s, ms, 1, run, aborts);
    }
  }

  lemma {:induction false} RunsThrough(s: Schema, ms: seq<Migration>, k: nat, i: nat, run: Run, aborts: bool)
    requires DistinctVersions(ms) && At(s, ms, k) && i <= |ms| && Faultless(run)
    requires s.table || (!aborts && |ms| > 0 && ms[0].createsTable)
    ensures After(s, ms, i, run, aborts).1
  {
    if i > 0 {
      RunsThrough(s, ms, k, i - 1, run, aborts);
      var n := PrefixKept(s, ms, k, i - 1, run, aborts);
      var t := After(s, ms, i - 1, run, aborts).0;
      RecordedAt(t, ms, n, i - 1);
      if i == 1 {
        assert t == s;
      } else {
        assert n > 0;
      }
    }
  }

  /** Where a failed statement aborts its transaction, no number of runs ever initialises an
      empty database: each stops at the first version query and leaves it empty. */
  lemma {:induction false} NeverBootstraps(s: Schema, ms: seq<Migration>, runs: seq<Run>)
    requires !s.table && ms != []
    ensures AfterRuns(s, ms, runs, true) == s
    ensures forall run :: !After(s, ms, |ms|, run, true).1
  {
    forall run
      ensures After(s, ms, |ms|, run, true) == (s, false)
    {
      assert After(s, ms, 1, run, true) == (s, false);
      StopsThere(s, ms, 1, run, true);
    }
    if runs != [] {
      NeverBootstraps(s, ms, runs[..|runs| - 1]);
    }
  }

  /** The shipped list: an empty database is migrated where the transaction survives. */
  lemma ShippedListBootstraps(run: Run)
    requires Faultless(run)
    ensures var (t, ok) := After(Schema(false, {}, []), MIGRATIONS, |MIGRATIONS|, run, false);
            ok && t.table && t.ran == [1, 2]
  {
    var s := Schema(false, {}, []);
    MigrateSucceedsExactly(s, MIGRATIONS, 0, run, false);
    SuccessRecordsAll(s, MIGRATIONS, 0, run, false);
    assert Versions(MIGRATIONS) == [1, 2];
    var n := PrefixKept(s, MIGRATIONS, 0, |MIGRATIONS|, run, false);
  }

  // Failures.

  /** Some statement of this turn fails, or its begin or its commit does. */
  predicate Spoiled(f: Faults) {
    f.begin || f.script || f.record || f.commit
  }

  /** A version whose turn is spoiled before it is recorded stays unrecorded with everything
      after it, its script is not committed, and the run reports failure. */
  lemma SpoiledTurnIsReported(s: Schema, ms: seq<Migration>, k: nat, i: nat, run: Run, aborts: bool)
    requires DistinctVersions(ms) && At(s, ms, k) && k <= i < |ms| && Spoiled(run(i))
    ensures !After(s, ms, |ms|, run, aborts).1
    ensures var t := After(s, ms, |ms|, run, aborts).0;
            |t.ran| <= i && forall j | i <= j < |ms| :: ms[j].version !in t.recorded
  {
    var n := PrefixKept(s, ms, k, i, run, aborts);
    var t := After(s, ms, i, run, aborts).0;
    RecordedAt(t, ms, n, i);
    assert !After(s, ms, i + 1, run, aborts).1 && After(s, ms, i + 1, run, aborts).0 == t;
    StopsThere(s, ms, i + 1, run, aborts);
    forall j | i <= j < |ms|
      ensures ms[j].version !in t.recorded
    {
      RecordedAt(t, ms, n, j);
    }
  }
}
