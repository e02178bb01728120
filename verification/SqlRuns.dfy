/** The SQL store under interleaved requests: each statement commits by itself, so a promotion
    is four steps between which anything else may happen. Only a restore is one transaction. */
module SqlRuns {
  import opened Wrappers
  import opened Records
  import opened LineLog
  import opened Ledger
  import opened Disk
  import opened Tables
  import opened SqlStore
  import opened SqlLaws

  /** How far a promotion has come. */
  datatype Check =
    | Found(promotion: Promotion)
    | Unrevoked(promotion: Promotion)
    | Cleared(promotion: Promotion)

  datatype Sys = Sys(tables: Tables, clock: Time, tasks: map<nat, Check>)

  /** One statement, or one restore. The first four are the statements of a promotion; `failed`
      says that the database refused the statement. */
  datatype Step =
    | Look(task: nat, promotion: Promotion, failed: bool)
    | CountRevocations(task: nat, failed: bool)
    | CountQuarantines(task: nat, failed: bool)
    | Insert(task: nat, id: string, stampedAt: Time, failed: bool)
    | Save(decision: Decision, failed: bool)
    | Revoke(revocation: Revocation, id: string, stampedAt: Time, failed: bool)
    | Quarantine(quarantine: Records.Quarantine, id: string, stampedAt: Time, failed: bool)
    | Unquarantine(target: string, failed: bool)
    | Restore(data: string, faults: RestoreFaults)
    | Tick(elapsed: nat)

  /** The record a revocation statement inserts for the caller's. */
  function RevocationRow(a: Step): Revocation
    requires a.Revoke?
  {
    StampedRevocation(a.revocation, a.id, a.stampedAt)
  }

  function QuarantineRow(a: Step): Records.Quarantine
    requires a.Quarantine?
  {
    StampedQuarantine(a.quarantine, a.id, a.stampedAt)
  }

  /** The stored decision supports the promotion at this time. */
  predicate Supported(t: Tables, c: Codec<Decision>, p: Promotion, now: Time) {
    && p.decisionId != "" && p.decisionId in t.decisions
    && c.dec(t.decisions[p.decisionId]).Some?
    && DecisionRefusal(c.dec(t.decisions[p.decisionId]).value, p, now).None?
  }

  /** The three queries of a promotion, taken one by one, are the verdict of the whole call. */
  lemma VerdictIsThreeQueries(t: Tables, c: Codec<Decision>, p: Promotion, now: Time, fails: nat -> bool)
    ensures Verdict(t, c, p, now, fails).None?
       <==> && !fails(0) && Supported(t, c, p, now)
            && !fails(1) && !RevokedRow(t, p.digest, p.environment)
            && !fails(2) && !QuarantinedRow(t, p.digest, p.environment)
  {
  }

  ghost function TablesAfter(cs: Codecs, s: Sys, a: Step): Tables {
    match a
    case Save(d, failed) => InsertDecision(s.tables, cs.decision, d, failed).0
    case Revoke(_, _, _, failed) => InsertRevocation(s.tables, RevocationRow(a), failed).0
    case Quarantine(_, _, _, failed) => InsertQuarantine(s.tables, QuarantineRow(a), failed).0
    case Unquarantine(x, failed) => DeleteQuarantines(s.tables, x, failed).0
    case Restore(data, faults) => AfterRestore(s.tables, cs, data, faults)
    case Insert(t, id, at, failed) =>
      if t in s.tasks && s.tasks[t].Cleared?
      then InsertPromotion(s.tables, Stamped(s.tasks[t].promotion, id, at), failed).0
      else s.tables
    case _ => s.tables
  }

  /** A promotion goes on to its next query, or ends. */
  function TasksAfter(cs: Codecs, s: Sys, a: Step): map<nat, Check> {
    match a
    case Look(t, p, failed) =>
      if !failed && Supported(s.tables, cs.decision, p, s.clock) then s.tasks[t := Found(p)] else s.tasks - {t}
    case CountRevocations(t, failed) =>
      if t !in s.tasks || !s.tasks[t].Found? then s.tasks
      else
        var p := s.tasks[t].promotion;
        if !failed && !RevokedRow(s.tables, p.digest, p.environment)
        then s.tasks[t := Unrevoked(p)]
        else s.tasks - {t}
    case CountQuarantines(t, failed) =>
      if t !in s.tasks || !s.tasks[t].Unrevoked? then s.tasks
      else
        var p := s.tasks[t].promotion;
        if !failed && !QuarantinedRow(s.tables, p.digest, p.environment)
        then s.tasks[t := Cleared(p)]
        else s.tasks - {t}
    case Insert(t, _, _, _) => if t in s.tasks && s.tasks[t].Cleared? then s.tasks - {t} else s.tasks
    case _ => s.tasks
  }

  ghost function Apply(cs: Codecs, s: Sys, a: Step): Sys {
    Sys(TablesAfter(cs, s, a), if a.Tick? then s.clock + a.elapsed else s.clock, TasksAfter(cs, s, a))
  }

  /** The states a run of statements goes through. */
  ghost predicate History(cs: Codecs, st: seq<Sys>, run: seq<Step>) {
    |st| == |run| + 1 && forall i | 0 <= i < |run| :: Happens(cs, st, run, i)
  }

  ghost predicate Happens(cs: Codecs, st: seq<Sys>, run: seq<Step>, i: nat)
    requires i < |run| < |st|
  {
    st[i + 1] == Apply(cs, st[i], run[i])
  }

  // Rows stay canonical.

  /** What a backup document decodes to can be encoded again. */
  ghost predicate Reencodable(cs: Codecs) {
    forall data :: cs.backup.dec(data).Some? ==>
      forall d | d in cs.backup.dec(data).value.decisions :: cs.decision.enc(d).Some?
  }

  lemma RestoreKeepsCanonical(t: Tables, cs: Codecs, data: string, faults: RestoreFaults)
    requires Reencodable(cs) && Canonical(t, cs.decision)
    ensures Canonical(AfterRestore(t, cs, data, faults), cs.decision)
  {
    if RestoreCommits(cs.backup, data, faults) {
      LoadedIsCanonical(cs.backup.dec(data).value, cs.decision);
    }
  }

  lemma StepKeepsCanonical(cs: Codecs, s: Sys, a: Step)
    requires Reencodable(cs) && Canonical(s.tables, cs.decision)
    ensures Canonical(TablesAfter(cs, s, a), cs.decision)
  {
    match a
    case Save(d, failed) => SaveKeepsCanonical(s.tables, cs.decision, d, failed);
    case Revoke(_, _, _, failed) => RevocationKeepsCanonical(s.tables, cs.decision, RevocationRow(a), failed);
    case Quarantine(_, _, _, failed) => QuarantineKeepsCanonical(s.tables, cs.decision, QuarantineRow(a), failed);
    case Unquarantine(x, failed) => DeleteKeepsCanonical(s.tables, cs.decision, x, failed);
    case Restore(data, faults) => RestoreKeepsCanonical(s.tables, cs, data, faults);
    case Insert(t, id, at, failed) =>
      if t in s.tasks {
        PromotionKeepsCanonical(s.tables, cs.decision, Stamped(s.tasks[t].promotion, id, at), failed);
      }
    case _ =>
  }

  /** In every reachable state, whatever statements failed, each row is what the statements
      store: decision rows decode to the decision whose key they carry. */
  lemma {:induction false} RunKeepsCanonical(cs: Codecs, st: seq<Sys>, run: seq<Step>, i: nat)
    requires Reencodable(cs) && History(cs, st, run) && i <= |run|
    requires Canonical(st[0].tables, cs.decision)
    ensures Canonical(st[i].tables, cs.decision)
  {
    if i > 0 {
      RunKeepsCanonical(cs, st, run, i - 1);
      assert Happens(cs, st, run, i - 1);
      StepKeepsCanonical(cs, st[i - 1], run[i - 1]);
    }
  }

  /** A backup of any reachable state, its rows listed in any order, restores to exactly that
      state over any other. */
  lemma ReachableBackupRestores(cs: Codecs, st: seq<Sys>, run: seq<Step>, i: nat, other: Tables, now: Time,
                                ds: seq<Decision>, orders: Orders, doc: string, faults: RestoreFaults)
    requires LineSafe(cs.decision) && Invertible(cs.backup) && Reencodable(cs)
    requires History(cs, st, run) && i <= |run| && Canonical(st[0].tables, cs.decision)
    requires BackupOf(st[i].tables, cs, now, ds, orders, doc)
    requires NothingRefused(faults)
    ensures RestoreCommits(cs.backup, doc, faults) && AfterRestore(other, cs, doc, faults) == st[i].tables
  {
    RunKeepsCanonical(cs, st, run, i);
    BackupThenRestoreSql(st[i].tables, other, cs, now, ds, orders, doc, faults);
  }

  // Revocations.

  /** The statement commits a revocation that covers the digest and environment. */
  ghost predicate CommitsCover(s: Sys, a: Step, digest: string, env: string) {
    && a.Revoke? && InsertRevocation(s.tables, RevocationRow(a), a.failed).1.None?
    && Covers(a.revocation.digest, a.revocation.environment, digest, env)
  }

  /** The restore replaces the tables. */
  ghost predicate CommitsRestore(cs: Codecs, a: Step) {
    a.Restore? && RestoreCommits(cs.backup, a.data, a.faults)
  }

  /** Committed restores aside, a covering row is there after a step exactly when it was there
      before or the step committed it. */
  lemma StepRevokes(cs: Codecs, s: Sys, a: Step, digest: string, env: string)
    requires !CommitsRestore(cs, a)
    ensures RevokedRow(TablesAfter(cs, s, a), digest, env)
       <==> RevokedRow(s.tables, digest, env) || CommitsCover(s, a, digest, env)
  {
    if a.Revoke? {
      InsertRevokes(s.tables, RevocationRow(a), a.failed, digest, env);
    }
  }

  lemma InsertRevokes(t: Tables, r: Revocation, failed: bool, digest: string, env: string)
    ensures RevokedRow(InsertRevocation(t, r, failed).0, digest, env)
       <==> RevokedRow(t, digest, env)
            || (InsertRevocation(t, r, failed).1.None? && Covers(r.digest, r.environment, digest, env))
  {
    var m := InsertRevocation(t, r, failed).0.revocations;
    if k :| k in t.revocations && Covers(t.revocations[k].digest, t.revocations[k].environment, digest, env) {
      assert k in m && m[k] == t.revocations[k];
    }
    if InsertRevocation(t, r, failed).1.None? {
      assert r.id in m && m[r.id] == Projected(r);
    }
  }

  /** Between two states without a committed restore, a covering row appears exactly by a commit. */
  lemma {:induction false} RevokedExactlyByCommit(cs: Codecs, st: seq<Sys>, run: seq<Step>, j: nat, i: nat,
                                                  digest: string, env: string)
    requires History(cs, st, run) && j <= i <= |run| && forall k | j <= k < i :: !CommitsRestore(cs, run[k])
    ensures RevokedRow(st[i].tables, digest, env)
       <==> RevokedRow(st[j].tables, digest, env) || exists k | j <= k < i :: CommitsCover(st[k], run[k], digest, env)
    decreases i
  {
    if j < i {
      RevokedExactlyByCommit(cs, st, run, j, i - 1, digest, env);
      assert Happens(cs, st, run, i - 1);
      StepRevokes(cs, st[i - 1], run[i - 1], digest, env);
    }
  }

  /** Once a covering revocation is committed, the verdict on the promotion is a refusal in
      every later state until a restore, whichever statements fail. */
  lemma RevokedIsRefused(cs: Codecs, st: seq<Sys>, run: seq<Step>, j: nat, i: nat, p: Promotion, now: Time,
                         fails: nat -> bool)
    requires History(cs, st, run) && j < i <= |run|
    requires CommitsCover(st[j], run[j], p.digest, p.environment)
    requires forall k | j < k < i :: !CommitsRestore(cs, run[k])
    ensures Verdict(st[i].tables, cs.decision, p, now, fails).Some?
  {
    assert !CommitsRestore(cs, run[j]);
    RevokedExactlyByCommit(cs, st, run, j, i, p.digest, p.environment);
    VerdictIsThreeQueries(st[i].tables, cs.decision, p, now, fails);
  }

  // Promotions in flight.

  predicate Looks(a: Step, t: nat) {
    a.Look? && a.task == t
  }

  /** Task t found its decision at step l, and has not started again before n. */
  ghost predicate FoundAt(cs: Codecs, st: seq<Sys>, run: seq<Step>, t: nat, p: Promotion, l: nat, n: nat)
    requires n <= |run| < |st|
  {
    && l < n && run[l] == Look(t, p, false) && Supported(st[l].tables, cs.decision, p, st[l].clock)
    && forall k | l < k < n :: !Looks(run[k], t)
  }

  /** It then counted no covering revocation at step c. */
  ghost predicate CountedAt(cs: Codecs, st: seq<Sys>, run: seq<Step>, t: nat, p: Promotion, l: nat, c: nat, n: nat)
    requires n <= |run| < |st|
  {
    && FoundAt(cs, st, run, t, p, l, n) && l < c < n && run[c] == CountRevocations(t, false)
    && !RevokedRow(st[c].tables, p.digest, p.environment)
  }

  /** And no covering quarantine at step q. */
  ghost predicate ClearedAt(cs: Codecs, st: seq<Sys>, run: seq<Step>, t: nat, p: Promotion,
                            l: nat, c: nat, q: nat, n: nat)
    requires n <= |run| < |st|
  {
    && CountedAt(cs, st, run, t, p, l, c, n) && c < q < n && run[q] == CountQuarantines(t, false)
    && !QuarantinedRow(st[q].tables, p.digest, p.environment)
  }

  ghost predicate TaskFrom(cs: Codecs, st: seq<Sys>, run: seq<Step>, n: nat, t: nat, k: Check)
    requires n <= |run| < |st|
  {
    match k
    case Found(p) => exists l: nat :: FoundAt(cs, st, run, t, p, l, n)
    case Unrevoked(p) => exists l: nat, c: nat :: CountedAt(cs, st, run, t, p, l, c, n)
    case Cleared(p) => exists l: nat, c: nat, q: nat :: ClearedAt(cs, st, run, t, p, l, c, q, n)
  }

  ghost predicate TasksFrom(cs: Codecs, st: seq<Sys>, run: seq<Step>, n: nat, tasks: map<nat, Check>)
    requires n <= |run| < |st|
  {
    forall t | t in tasks :: TaskFrom(cs, st, run, n, t, tasks[t])
  }

  lemma TaskStays(cs: Codecs, st: seq<Sys>, run: seq<Step>, n: nat, t: nat, k: Check)
    requires n < |run| < |st| && TaskFrom(cs, st, run, n, t, k) && !Looks(run[n], t)
    ensures TaskFrom(cs, st, run, n + 1, t, k)
  {
    match k
    case Found(p) =>
      var l: nat :| FoundAt(cs, st, run, t, p, l, n);
      assert FoundAt(cs, st, run, t, p, l, n + 1);
    case Unrevoked(p) =>
      var l: nat, c: nat :| CountedAt(cs, st, run, t, p, l, c, n);
      assert CountedAt(cs, st, run, t, p, l, c, n + 1);
    case Cleared(p) =>
      var l: nat, c: nat, q: nat :| ClearedAt(cs, st, run, t, p, l, c, q, n);
      assert ClearedAt(cs, st, run, t, p, l, c, q, n + 1);
  }

  lemma TaskFinds(cs: Codecs, st: seq<Sys>, run: seq<Step>, n: nat, t: nat, p: Promotion)
    requires n < |run| < |st| && run[n] == Look(t, p, false)
    requires Supported(st[n].tables, cs.decision, p, st[n].clock)
    ensures TaskFrom(cs, st, run, n + 1, t, Found(p))
  {
    assert FoundAt(cs, st, run, t, p, n, n + 1);
  }

  lemma TaskCounts(cs: Codecs, st: seq<Sys>, run: seq<Step>, n: nat, t: nat, p: Promotion)
    requires n < |run| < |st| && run[n] == CountRevocations(t, false) && TaskFrom(cs, st, run, n, t, Found(p))
    requires !RevokedRow(st[n].tables, p.digest, p.environment)
    ensures TaskFrom(cs, st, run, n + 1, t, Unrevoked(p))
  {
    var l: nat :| FoundAt(cs, st, run, t, p, l, n);
    assert CountedAt(cs, st, run, t, p, l, n, n + 1);
  }

  lemma TaskClears(cs: Codecs, st: seq<Sys>, run: seq<Step>, n: nat, t: nat, p: Promotion)
    requires n < |run| < |st| && run[n] == CountQuarantines(t, false) && TaskFrom(cs, st, run, n, t, Unrevoked(p))
    requires !QuarantinedRow(st[n].tables, p.digest, p.environment)
    ensures TaskFrom(cs, st, run, n + 1, t, Cleared(p))
  {
    var l: nat, c: nat :| CountedAt(cs, st, run, t, p, l, c, n);
    assert ClearedAt(cs, st, run, t, p, l, c, n, n + 1);
  }

  /** One step keeps every promotion where its queries have brought it. */
  lemma StepKeepsTasks(cs: Codecs, st: seq<Sys>, run: seq<Step>, n: nat)
    requires n < |run| < |st| && TasksFrom(cs, st, run, n, st[n].tasks)
    ensures TasksFrom(cs, st, run, n + 1, TasksAfter(cs, st[n], run[n]))
  {
    var before, after := st[n].tasks, TasksAfter(cs, st[n], run[n]);
    forall t | t in after
      ensures TaskFrom(cs, st, run, n + 1, t, after[t])
    {
      if !Looks(run[n], t) && after[t] == before[t] {
        TaskStays(cs, st, run, n, t, after[t]);
      } else {
        TaskMoves(cs, st, run, n, t);
      }
    }
  }

  /** A task that a step changes has passed that step's query. */
  lemma TaskMoves(cs: Codecs, st: seq<Sys>, run: seq<Step>, n: nat, t: nat)
    requires n < |run| < |st| && t in TasksAfter(cs, st[n], run[n])
    requires t in st[n].tasks ==> TaskFrom(cs, st, run, n, t, st[n].tasks[t])
    requires Looks(run[n], t) || t !in st[n].tasks || TasksAfter(cs, st[n], run[n])[t] != st[n].tasks[t]
    ensures TaskFrom(cs, st, run, n + 1, t, TasksAfter(cs, st[n], run[n])[t])
  {
    if run[n].Look? {
      TaskFinds(cs, st, run, n, t, run[n].promotion);
    } else if run[n].CountRevocations? {
      TaskCounts(cs, st, run, n, t, st[n].tasks[t].promotion);
    } else {
      TaskClears(cs, st, run, n, t, st[n].tasks[t].promotion);
    }
  }

  lemma {:induction false} RunKeepsTasks(cs: Codecs, st: seq<Sys>, run: seq<Step>, n: nat)
    requires History(cs, st, run) && st[0].tasks == map[] && n <= |run|
    ensures TasksFrom(cs, st, run, n, st[n].tasks)
  {
    if n > 0 {
      RunKeepsTasks(cs, st, run, n - 1);
      assert Happens(cs, st, run, n - 1);
      StepKeepsTasks(cs, st, run, n - 1);
    }
  }

  /** The step stores this promotion. */
  ghost predicate Stores(s: Sys, a: Step, p: Promotion) {
    && a.Insert? && a.task in s.tasks && s.tasks[a.task] == Cleared(p)
    && InsertPromotion(s.tables, Stamped(p, a.id, a.stampedAt), a.failed).1.None?
  }

  /** Under every interleaving, each promotion that is stored passed its three queries before,
      in order; and it is stored under a covering revocation exactly when one was committed
      after its revocation query, as long as no restore was committed in between. */
  lemma StoredUnderRevocationExactly(cs: Codecs, st: seq<Sys>, run: seq<Step>, i: nat, p: Promotion)
    returns (l: nat, c: nat, q: nat)
    requires History(cs, st, run) && st[0].tasks == map[] && i < |run| && Stores(st[i], run[i], p)
    ensures ClearedAt(cs, st, run, run[i].task, p, l, c, q, i)
    ensures (forall k | c < k < i :: !CommitsRestore(cs, run[k])) ==>
              (RevokedRow(st[i].tables, p.digest, p.environment)
               <==> exists k | c < k < i :: CommitsCover(st[k], run[k], p.digest, p.environment))
  {
    l, c, q := QueriesOfStored(cs, st, run, i, p);
    if forall k | c < k < i :: !CommitsRestore(cs, run[k]) {
      RevokedSinceQuery(cs, st, run, c, i, p.digest, p.environment);
    }
  }

  lemma RevokedSinceQuery(cs: Codecs, st: seq<Sys>, run: seq<Step>, c: nat, i: nat, digest: string, env: string)
    requires History(cs, st, run) && c < i <= |run| && run[c].CountRevocations?
    requires !RevokedRow(st[c].tables, digest, env) && forall k | c < k < i :: !CommitsRestore(cs, run[k])
    ensures RevokedRow(st[i].tables, digest, env)
       <==> exists k | c < k < i :: CommitsCover(st[k], run[k], digest, env)
  {
    assert Happens(cs, st, run, c);
    RevokedExactlyByCommit(cs, st, run, c + 1, i, digest, env);
  }

  /** The three queries a cleared promotion passed. */
  lemma QueriesOf(cs: Codecs, st: seq<Sys>, run: seq<Step>, n: nat, t: nat, p: Promotion)
    returns (l: nat, c: nat, q: nat)
    requires n <= |run| < |st| && TaskFrom(cs, st, run, n, t, Cleared(p))
    ensures ClearedAt(cs, st, run, t, p, l, c, q, n)
  {
    l, c, q :| ClearedAt(cs, st, run, t, p, l, c, q, n);
  }

  /** A promotion stored after a covering revocation was committed, with no restore committed
      since, had counted revocations before: none that is looked up later is ever stored. */
  lemma StoredAfterRevocationWasInFlight(cs: Codecs, st: seq<Sys>, run: seq<Step>, j: nat, i: nat, p: Promotion)
    returns (l: nat, c: nat, q: nat)
    requires History(cs, st, run) && st[0].tasks == map[] && j < i < |run| && Stores(st[i], run[i], p)
    requires CommitsCover(st[j], run[j], p.digest, p.environment)
    requires forall k | j < k < i :: !CommitsRestore(cs, run[k])
    ensures ClearedAt(cs, st, run, run[i].task, p, l, c, q, i) && l < c < j
  {
    l, c, q := StoredUnderRevocationExactly(cs, st, run, i, p);
    if c > j {
      RevokedExactlyByCommit(cs, st, run, j, c, p.digest, p.environment);
    }
  }

  // Quarantines.

  ghost predicate CommitsQuarantine(s: Sys, a: Step, digest: string, env: string) {
    && a.Quarantine? && InsertQuarantine(s.tables, QuarantineRow(a), a.failed).1.None?
    && Covers(a.quarantine.digest, a.quarantine.environment, digest, env)
  }

  /** The step may take quarantine rows away. */
  ghost predicate MayLift(cs: Codecs, a: Step) {
    CommitsRestore(cs, a) || (a.Unquarantine? && !a.failed)
  }

  lemma StepQuarantines(cs: Codecs, s: Sys, a: Step, digest: string, env: string)
    requires !MayLift(cs, a)
    ensures QuarantinedRow(TablesAfter(cs, s, a), digest, env)
       <==> QuarantinedRow(s.tables, digest, env) || CommitsQuarantine(s, a, digest, env)
  {
    if a.Quarantine? {
      InsertQuarantines(s.tables, QuarantineRow(a), a.failed, digest, env);
    }
  }

  lemma InsertQuarantines(t: Tables, r: Records.Quarantine, failed: bool, digest: string, env: string)
    ensures QuarantinedRow(InsertQuarantine(t, r, failed).0, digest, env)
       <==> QuarantinedRow(t, digest, env)
            || (InsertQuarantine(t, r, failed).1.None? && Covers(r.digest, r.environment, digest, env))
  {
    var m := InsertQuarantine(t, r, failed).0.quarantines;
    if k :| k in t.quarantines && Covers(t.quarantines[k].digest, t.quarantines[k].environment, digest, env) {
      assert k in m && m[k] == t.quarantines[k];
    }
    if InsertQuarantine(t, r, failed).1.None? {
      assert r.id in m && m[r.id] == r;
    }
  }

  lemma {:induction false} QuarantinedExactlyByCommit(cs: Codecs, st: seq<Sys>, run: seq<Step>, j: nat, i: nat,
                                                      digest: string, env: string)
    requires History(cs, st, run) && j <= i <= |run| && forall k | j <= k < i :: !MayLift(cs, run[k])
    ensures QuarantinedRow(st[i].tables, digest, env)
       <==> || QuarantinedRow(st[j].tables, digest, env)
            || exists k | j <= k < i :: CommitsQuarantine(st[k], run[k], digest, env)
    decreases i
  {
    if j < i {
      QuarantinedExactlyByCommit(cs, st, run, j, i - 1, digest, env);
      assert Happens(cs, st, run, i - 1);
      StepQuarantines(cs, st[i - 1], run[i - 1], digest, env);
    }
  }

  /** The row of one quarantine record. */
  ghost predicate HoldsRow(t: Tables, r: Records.Quarantine) {
    r.id in t.quarantines && t.quarantines[r.id] == r
  }

  /** The step takes that row away: a committed restore, or an Unquarantine that names it. */
  ghost predicate LiftsRow(cs: Codecs, a: Step, r: Records.Quarantine) {
    CommitsRestore(cs, a) || (a.Unquarantine? && !a.failed && (a.target == r.id || a.target == r.digest))
  }

  lemma {:induction false} RowStays(cs: Codecs, st: seq<Sys>, run: seq<Step>, j: nat, i: nat, r: Records.Quarantine)
    requires History(cs, st, run) && j <= i <= |run| && HoldsRow(st[j].tables, r)
    requires forall k | j <= k < i :: !LiftsRow(cs, run[k], r)
    ensures HoldsRow(st[i].tables, r)
    decreases i
  {
    if j < i {
      RowStays(cs, st, run, j, i - 1, r);
      assert Happens(cs, st, run, i - 1);
      RowStaysOnce(cs, st[i - 1], run[i - 1], r);
    }
  }

  lemma RowStaysOnce(cs: Codecs, s: Sys, a: Step, r: Records.Quarantine)
    requires HoldsRow(s.tables, r) && !LiftsRow(cs, a, r)
    ensures HoldsRow(TablesAfter(cs, s, a), r)
  {
  }

  /** A promotion stored after a covering quarantine was committed had counted quarantines
      before, or some step lifted that row before it counted them. */
  lemma StoredAfterQuarantineWasInFlight(cs: Codecs, st: seq<Sys>, run: seq<Step>, j: nat, i: nat, p: Promotion)
    returns (l: nat, c: nat, q: nat)
    requires History(cs, st, run) && st[0].tasks == map[] && j < i < |run| && Stores(st[i], run[i], p)
    requires CommitsQuarantine(st[j], run[j], p.digest, p.environment)
    ensures ClearedAt(cs, st, run, run[i].task, p, l, c, q, i)
    ensures q < j || exists k | j < k < q :: LiftsRow(cs, run[k], QuarantineRow(run[j]))
  {
    l, c, q := QueriesOfStored(cs, st, run, i, p);
    if q > j {
      QuarantinedUntilLifted(cs, st, run, j, q, p.digest, p.environment);
    }
  }

  lemma QueriesOfStored(cs: Codecs, st: seq<Sys>, run: seq<Step>, i: nat, p: Promotion) returns (l: nat, c: nat, q: nat)
    requires History(cs, st, run) && st[0].tasks == map[] && i < |run| && Stores(st[i], run[i], p)
    ensures ClearedAt(cs, st, run, run[i].task, p, l, c, q, i)
  {
    RunKeepsTasks(cs, st, run, i);
    l, c, q := QueriesOf(cs, st, run, i, run[i].task, p);
  }

  lemma QuarantinedUntilLifted(cs: Codecs, st: seq<Sys>, run: seq<Step>, j: nat, q: nat, digest: string, env: string)
    requires History(cs, st, run) && j < q <= |run| && CommitsQuarantine(st[j], run[j], digest, env)
    ensures QuarantinedRow(st[q].tables, digest, env)
         || exists k | j < k < q :: LiftsRow(cs, run[k], QuarantineRow(run[j]))
  {
    var r := QuarantineRow(run[j]);
    assert Happens(cs, st, run, j);
    if forall k | j + 1 <= k < q :: !LiftsRow(cs, run[k], r) {
      RowStays(cs, st, run, j + 1, q, r);
      assert r.id in st[q].tables.quarantines;
    }
  }

  /** And it is stored under a covering quarantine exactly when one was committed after its
      quarantine query, as long as nothing was lifted or restored in between. */
  lemma StoredUnderQuarantineExactly(cs: Codecs, st: seq<Sys>, run: seq<Step>, i: nat, p: Promotion)
    returns (l: nat, c: nat, q: nat)
    requires History(cs, st, run) && st[0].tasks == map[] && i < |run| && Stores(st[i], run[i], p)
    ensures ClearedAt(cs, st, run, run[i].task, p, l, c, q, i)
    ensures (forall k | q < k < i :: !MayLift(cs, run[k])) ==>
              (QuarantinedRow(st[i].tables, p.digest, p.environment)
               <==> exists k | q < k < i :: CommitsQuarantine(st[k], run[k], p.digest, p.environment))
  {
    l, c, q := QueriesOfStored(cs, st, run, i, p);
    if forall k | q < k < i :: !MayLift(cs, run[k]) {
      QuarantinedSinceQuery(cs, st, run, q, i, p.digest, p.environment);
    }
  }

  lemma QuarantinedSinceQuery(cs: Codecs, st: seq<Sys>, run: seq<Step>, q: nat, i: nat, digest: string, env: string)
    requires History(cs, st, run) && q < i <= |run| && run[q].CountQuarantines?
    requires !QuarantinedRow(st[q].tables, digest, env) && forall k | q < k < i :: !MayLift(cs, run[k])
    ensures QuarantinedRow(st[i].tables, digest, env)
       <==> exists k | q < k < i :: CommitsQuarantine(st[k], run[k], digest, env)
  {
    assert Happens(cs, st, run, q);
    QuarantinedExactlyByCommit(cs, st, run, q + 1, i, digest, env);
  }
}
