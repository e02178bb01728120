/** Where the decisions of a run come from: each one that is logged was reached by the four
    steps of one evaluation of the same run, and so was each one a promotion rests on. */
module Evaluations {
  import opened Wrappers
  import opened Records
  import opened LineLog
  import opened Ledger
  import opened Disk
  import opened FileLaws
  import opened StoreRuns
  import opened Protocol
  import Admission
  import AdmissionRules

  /** The positions in a run of one evaluation's steps, and the task they belong to. */
  datatype Trace = Trace(task: nat, begin: nat, look: nat, decide: nat, save: nat)

  /** What the evaluation begun by an action starts from: the clock as it stood. */
  function StartContext(s: Sys, a: Action): Admission.Context
    requires a.Begin?
  {
    Admission.Context(s.clock, a.wall, a.id, Admission.NotConfigured, Admission.NotConfigured)
  }

  /** What it has read after looking at the revocation log in one state and at the quarantine
      log in another. */
  function ContextOf(w: World, begun: Sys, looked: Sys, decided: Sys, a: Action): Admission.Context
    requires a.Begin?
  {
    StartContext(begun, a).(revoked := RevocationAnswer(looked.disk, w.cs, a.req),
                            quarantined := QuarantineAnswer(decided.disk, w.cs, a.req))
  }

  function DecidedIn(w: World, begun: Sys, looked: Sys, decided: Sys, a: Action): Decision
    requires a.Begin?
  {
    Admission.DecisionOf(w.evaluator, a.req, ContextOf(w, begun, looked, decided, a))
  }

  predicate Begins(a: Action, t: nat) {
    a.Begin? && a.task == t
  }

  predicate IsSave(a: Action, t: nat) {
    a.SaveTask? && a.task == t
  }

  /** Action b began the evaluation that task t is still in before action n. */
  ghost predicate BegunAt(run: seq<Action>, t: nat, b: nat, n: nat) {
    b < n <= |run| && Begins(run[b], t) && forall k | b < k < n :: !Begins(run[k], t)
  }

  /** It has not looked at the revocation log yet. */
  ghost predicate StartedAt(run: seq<Action>, t: nat, b: nat, n: nat) {
    BegunAt(run, t, b, n) && forall k | b < k < n :: run[k] != ReadRevocations(t)
  }

  /** It looked at the revocation log at r, and not yet at the quarantine log. */
  ghost predicate LookedAt(run: seq<Action>, t: nat, b: nat, r: nat, n: nat) {
    && BegunAt(run, t, b, n) && r < n && StartedAt(run, t, b, r) && run[r] == ReadRevocations(t)
    && forall k | r < k < n :: run[k] != ReadQuarantines(t)
  }

  /** It looked at the quarantine log at q, and has not saved its decision yet. */
  ghost predicate DecidedAt(run: seq<Action>, t: nat, b: nat, r: nat, q: nat, n: nat) {
    && BegunAt(run, t, b, n) && q < n && LookedAt(run, t, b, r, q) && run[q] == ReadQuarantines(t)
    && forall k | q < k < n :: !IsSave(run[k], t)
  }

  /** The trace is one evaluation of the run: it begins, looks first at one log and then at the
      other and saves, each step the first of its kind, and nothing restarts it in between. */
  ghost predicate IsEvaluation(run: seq<Action>, e: Trace) {
    e.save < |run| && DecidedAt(run, e.task, e.begin, e.look, e.decide, e.save) && IsSave(run[e.save], e.task)
  }

  /** The decision that evaluation reached. */
  function DecisionIn(w: World, st: seq<Sys>, run: seq<Action>, e: Trace): Decision
    requires e.begin < |run| <= |st| && run[e.begin].Begin? && e.look < |st| && e.decide < |st|
  {
    DecidedIn(w, st[e.begin], st[e.look], st[e.decide], run[e.begin])
  }

  // Tasks.

  /** The task stands where the actions before n have brought it. */
  ghost predicate TaskFrom(w: World, st: seq<Sys>, run: seq<Action>, n: nat, t: nat, k: Task)
    requires n <= |run| < |st|
  {
    match k
    case Started(req, ctx) =>
      exists b: nat :: StartedAt(run, t, b, n) && req == run[b].req && ctx == StartContext(st[b], run[b])
    case SawRevocations(req, ctx) =>
      exists b: nat, r: nat :: LookedAt(run, t, b, r, n) && req == run[b].req
        && ctx == StartContext(st[b], run[b]).(revoked := RevocationAnswer(st[r].disk, w.cs, req))
    case Decided(d) =>
      exists b: nat, r: nat, q: nat :: Decides(w, st, run, t, b, r, q, n, d)
  }

  ghost predicate Decides(w: World, st: seq<Sys>, run: seq<Action>, t: nat, b: nat, r: nat, q: nat, n: nat, d: Decision)
    requires n <= |run| < |st|
  {
    DecidedAt(run, t, b, r, q, n) && d == DecidedIn(w, st[b], st[r], st[q], run[b])
  }

  ghost predicate TasksFrom(w: World, st: seq<Sys>, run: seq<Action>, n: nat, tasks: map<nat, Task>)
    requires n <= |run| < |st|
  {
    forall t | t in tasks :: TaskFrom(w, st, run, n, t, tasks[t])
  }

  /** The action is the task's next step. */
  predicate Advances(a: Action, t: nat, k: Task) {
    match k
    case Started(_, _) => a == ReadRevocations(t)
    case SawRevocations(_, _) => a == ReadQuarantines(t)
    case Decided(_) => IsSave(a, t)
  }

  /** An action that neither restarts nor advances the task leaves it where it is. */
  lemma TaskStays(w: World, st: seq<Sys>, run: seq<Action>, n: nat, t: nat, k: Task)
    requires n < |run| < |st| && TaskFrom(w, st, run, n, t, k) && !Begins(run[n], t) && !Advances(run[n], t, k)
    ensures TaskFrom(w, st, run, n + 1, t, k)
  {
    match k
    case Started(req, ctx) =>
      var b: nat :| StartedAt(run, t, b, n) && req == run[b].req && ctx == StartContext(st[b], run[b]);
      assert StartedAt(run, t, b, n + 1);
    case SawRevocations(req, ctx) =>
      var b: nat, r: nat :| LookedAt(run, t, b, r, n) && req == run[b].req
        && ctx == StartContext(st[b], run[b]).(revoked := RevocationAnswer(st[r].disk, w.cs, req));
      assert LookedAt(run, t, b, r, n + 1);
    case Decided(d) =>
      DecidedStays(w, st, run, n, t, d);
  }

  lemma DecidedStays(w: World, st: seq<Sys>, run: seq<Action>, n: nat, t: nat, d: Decision)
    requires n < |run| < |st| && TaskFrom(w, st, run, n, t, Decided(d)) && !Begins(run[n], t) && !IsSave(run[n], t)
    ensures TaskFrom(w, st, run, n + 1, t, Decided(d))
  {
    var b: nat, r: nat, q: nat :| Decides(w, st, run, t, b, r, q, n, d);
    StepsStay(run, t, b, r, q, n);
    assert Decides(w, st, run, t, b, r, q, n + 1, d);
  }

  lemma StepsStay(run: seq<Action>, t: nat, b: nat, r: nat, q: nat, n: nat)
    requires n < |run| && DecidedAt(run, t, b, r, q, n) && !Begins(run[n], t) && !IsSave(run[n], t)
    ensures DecidedAt(run, t, b, r, q, n + 1)
  {
  }

  lemma TaskStarts(w: World, st: seq<Sys>, run: seq<Action>, n: nat, t: nat)
    requires n < |run| < |st| && Begins(run[n], t)
    ensures TaskFrom(w, st, run, n + 1, t, Started(run[n].req, StartContext(st[n], run[n])))
  {
    assert StartedAt(run, t, n, n + 1);
  }

  lemma TaskLooks(w: World, st: seq<Sys>, run: seq<Action>, n: nat, t: nat, k: Task)
    requires n < |run| < |st| && run[n] == ReadRevocations(t) && k.Started? && TaskFrom(w, st, run, n, t, k)
    ensures var answer := RevocationAnswer(st[n].disk, w.cs, k.req);
            TaskFrom(w, st, run, n + 1, t, SawRevocations(k.req, k.ctx.(revoked := answer)))
  {
    var b: nat :| StartedAt(run, t, b, n) && k.req == run[b].req && k.ctx == StartContext(st[b], run[b]);
    assert LookedAt(run, t, b, n, n + 1);
  }

  lemma TaskDecides(w: World, st: seq<Sys>, run: seq<Action>, n: nat, t: nat, k: Task)
    requires n < |run| < |st| && run[n] == ReadQuarantines(t) && k.SawRevocations? && TaskFrom(w, st, run, n, t, k)
    ensures var answer := QuarantineAnswer(st[n].disk, w.cs, k.req);
            var d := Admission.DecisionOf(w.evaluator, k.req, k.ctx.(quarantined := answer));
            TaskFrom(w, st, run, n + 1, t, Decided(d))
  {
    var b: nat, r: nat :| LookedAt(run, t, b, r, n) && k.req == run[b].req
      && k.ctx == StartContext(st[b], run[b]).(revoked := RevocationAnswer(st[r].disk, w.cs, k.req));
    var ctx := k.ctx.(quarantined := QuarantineAnswer(st[n].disk, w.cs, k.req));
    assert ctx == ContextOf(w, st[b], st[r], st[n], run[b]);
    DecidesNow(w, st, run, t, b, r, n);
  }

  lemma DecidesNow(w: World, st: seq<Sys>, run: seq<Action>, t: nat, b: nat, r: nat, n: nat)
    requires n < |run| < |st| && run[n] == ReadQuarantines(t) && LookedAt(run, t, b, r, n)
    ensures TaskFrom(w, st, run, n + 1, t, Decided(DecidedIn(w, st[b], st[r], st[n], run[b])))
  {
    DecidesAt(run, t, b, r, n);
    assert Decides(w, st, run, t, b, r, n, n + 1, DecidedIn(w, st[b], st[r], st[n], run[b]));
  }

  lemma DecidesAt(run: seq<Action>, t: nat, b: nat, r: nat, n: nat)
    requires n < |run| && run[n] == ReadQuarantines(t) && LookedAt(run, t, b, r, n)
    ensures DecidedAt(run, t, b, r, n, n + 1)
  {
  }

  /** A task that an action leaves unchanged without restarting it was not advanced by it. */
  lemma UnchangedIsNotAdvanced(w: World, s: Sys, a: Action, t: nat)
    requires t in TasksAfter(w, s, a) && t in s.tasks && TasksAfter(w, s, a)[t] == s.tasks[t] && !Begins(a, t)
    ensures !Advances(a, t, s.tasks[t])
  {
  }

  /** One action keeps every task where the run has brought it. */
  lemma StepKeepsTasks(w: World, st: seq<Sys>, run: seq<Action>, n: nat)
    requires n < |run| < |st| && TasksFrom(w, st, run, n, st[n].tasks)
    ensures TasksFrom(w, st, run, n + 1, TasksAfter(w, st[n], run[n]))
  {
    var before, after := st[n].tasks, TasksAfter(w, st[n], run[n]);
    forall t | t in after
      ensures TaskFrom(w, st, run, n + 1, t, after[t])
    {
      if Begins(run[n], t) {
        TaskStarts(w, st, run, n, t);
      } else if after[t] == before[t] {
        UnchangedIsNotAdvanced(w, st[n], run[n], t);
        TaskStays(w, st, run, n, t, after[t]);
      } else if run[n].ReadRevocations? {
        TaskLooks(w, st, run, n, t, before[t]);
      } else {
        TaskDecides(w, st, run, n, t, before[t]);
      }
    }
  }

  // Forward: an evaluation's steps bring its task where the trace says.

  predicate HasTask(s: Sys, t: nat, k: Task) {
    t in s.tasks && s.tasks[t] == k
  }

  lemma TaskWaits(w: World, s: Sys, a: Action, t: nat, k: Task)
    requires HasTask(s, t, k) && !Begins(a, t) && !Advances(a, t, k)
    ensures HasTask(Apply(w, s, a), t, k)
  {
  }

  /** A task stays as it is from m to n while nothing restarts or advances it. */
  lemma {:induction false} TaskWaitsUntil(w: World, st: seq<Sys>, run: seq<Action>, t: nat, k: Task, m: nat, n: nat)
    requires History(w, st, run) && m <= n <= |run| && HasTask(st[m], t, k)
    requires forall i | m <= i < n :: !Begins(run[i], t) && !Advances(run[i], t, k)
    ensures HasTask(st[n], t, k)
    decreases n - m
  {
    if m < n {
      assert Happens(w, st, run, m);
      TaskWaits(w, st[m], run[m], t, k);
      TaskWaitsUntil(w, st, run, t, k, m + 1, n);
    }
  }

  lemma TaskIsStarted(w: World, st: seq<Sys>, run: seq<Action>, t: nat, b: nat, n: nat)
    requires History(w, st, run) && StartedAt(run, t, b, n)
    ensures HasTask(st[n], t, Started(run[b].req, StartContext(st[b], run[b])))
  {
    assert Happens(w, st, run, b);
    TaskWaitsUntil(w, st, run, t, Started(run[b].req, StartContext(st[b], run[b])), b + 1, n);
  }

  /** The context of an evaluation after its first look. */
  function LookedContext(w: World, begun: Sys, looked: Sys, a: Action): Admission.Context
    requires a.Begin?
  {
    StartContext(begun, a).(revoked := RevocationAnswer(looked.disk, w.cs, a.req))
  }

  lemma TaskHasLooked(w: World, st: seq<Sys>, run: seq<Action>, t: nat, b: nat, r: nat, n: nat)
    requires History(w, st, run) && LookedAt(run, t, b, r, n)
    ensures HasTask(st[n], t, SawRevocations(run[b].req, LookedContext(w, st[b], st[r], run[b])))
  {
    TaskIsStarted(w, st, run, t, b, r);
    assert Happens(w, st, run, r);
    TaskWaitsUntil(w, st, run, t, SawRevocations(run[b].req, LookedContext(w, st[b], st[r], run[b])), r + 1, n);
  }

  lemma LookedDecides(w: World, begun: Sys, looked: Sys, s: Sys, a: Action, t: nat)
    requires a.Begin? && HasTask(s, t, SawRevocations(a.req, LookedContext(w, begun, looked, a)))
    ensures HasTask(Apply(w, s, ReadQuarantines(t)), t, Decided(DecidedIn(w, begun, looked, s, a)))
  {
    var ctx := LookedContext(w, begun, looked, a).(quarantined := QuarantineAnswer(s.disk, w.cs, a.req));
    assert ctx == ContextOf(w, begun, looked, s, a);
  }

  lemma TaskDecidesAt(w: World, st: seq<Sys>, run: seq<Action>, t: nat, b: nat, r: nat, q: nat)
    requires History(w, st, run) && q < |run| && LookedAt(run, t, b, r, q) && run[q] == ReadQuarantines(t)
    ensures HasTask(st[q + 1], t, Decided(DecidedIn(w, st[b], st[r], st[q], run[b])))
  {
    TaskHasLooked(w, st, run, t, b, r, q);
    LookedDecides(w, st[b], st[r], st[q], run[b], t);
    assert Happens(w, st, run, q);
  }

  lemma DecisionWaits(w: World, st: seq<Sys>, run: seq<Action>, t: nat, b: nat, r: nat, q: nat, n: nat, d: Decision)
    requires History(w, st, run) && DecidedAt(run, t, b, r, q, n) && HasTask(st[q + 1], t, Decided(d))
    ensures HasTask(st[n], t, Decided(d))
  {
    TaskWaitsUntil(w, st, run, t, Decided(d), q + 1, n);
  }

  /** Every evaluation of a run saves the decision it reached. */
  lemma EvaluationSaves(w: World, st: seq<Sys>, run: seq<Action>, e: Trace)
    requires History(w, st, run) && IsEvaluation(run, e)
    ensures OpOf(st[e.save], run[e.save]) == Op.Save(DecisionIn(w, st, run, e), run[e.save].fault)
  {
    TaskDecidesAt(w, st, run, e.task, e.begin, e.look, e.decide);
    DecisionWaits(w, st, run, e.task, e.begin, e.look, e.decide, e.save, DecisionIn(w, st, run, e));
  }

  // Evaluations that read after a restriction.

  /** An evaluation to which the revocation log, as it stood at its look, or the quarantine log,
      as it stood at its decision, bars the digest saves a DENY. */
  lemma BarredEvaluationSavesDeny(w: World, st: seq<Sys>, run: seq<Action>, e: Trace)
    requires History(w, st, run) && IsEvaluation(run, e)
    requires var req := run[e.begin].req;
             || RevocationBars(st[e.look].disk, w.cs, req.subject.digest, req.environment)
             || QuarantineBars(st[e.decide].disk, w.cs, req.subject.digest, req.environment)
    ensures var op := OpOf(st[e.save], run[e.save]); op.Save? && op.decision.outcome == Deny
  {
    EvaluationSaves(w, st, run, e);
    BarredIsDenied(w.evaluator, st[e.look].disk, st[e.decide].disk, w.cs, run[e.begin].req,
                   ContextOf(w, st[e.begin], st[e.look], st[e.decide], run[e.begin]));
  }

  /** The request recorded a revocation of this digest for this very environment. */
  ghost predicate RecordsRevocationOf(w: World, s: Sys, a: Action, digest: string, env: string) {
    && a.Admin? && IsAdmin(a.op) && Recorded(w.cs, s.disk, a.op)
    && a.op.revocation.digest == digest && a.op.revocation.environment == env
  }

  /** Under every interleaving, with every torn write: after a revocation was recorded, every
      evaluation of that digest and environment that looks later saves a DENY, until a restore
      reaches the log. */
  lemma RevokedIsDenied(w: World, st: seq<Sys>, run: seq<Action>, j: nat, e: Trace)
    requires Safe(w.cs) && History(w, st, run) && Sound(st[0].disk, w.cs)
    requires IsEvaluation(run, e) && j < e.look
    requires RecordsRevocationOf(w, st[j], run[j], run[e.begin].req.subject.digest, run[e.begin].req.environment)
    requires forall k | j < k < e.look :: !DropsRevocations(run[k])
    ensures var op := OpOf(st[e.save], run[e.save]); op.Save? && op.decision.outcome == Deny
  {
    RevocationStillBars(w, st, run, j, e.look, run[e.begin].req.subject.digest, run[e.begin].req.environment);
    BarredEvaluationSavesDeny(w, st, run, e);
  }

  lemma RevocationStillBars(w: World, st: seq<Sys>, run: seq<Action>, j: nat, i: nat, digest: string, env: string)
    requires Safe(w.cs) && History(w, st, run) && Sound(st[0].disk, w.cs) && j < i < |run|
    requires RecordsRevocationOf(w, st[j], run[j], digest, env)
    requires forall k | j < k < i :: !DropsRevocations(run[k])
    ensures RevocationBars(st[i].disk, w.cs, digest, env)
  {
    RevocationStaysInHistory(w, st, run, j, i);
    SealedRevocationBars(st[i].disk, w.cs, StoredRevocation(run[j].op));
  }

  /** The request recorded a revocation. */
  ghost predicate RecordsIt(w: World, s: Sys, a: Action) {
    a.Admin? && IsAdmin(a.op) && Recorded(w.cs, s.disk, a.op)
  }

  lemma RevocationStaysInHistory(w: World, st: seq<Sys>, run: seq<Action>, j: nat, i: nat)
    requires Safe(w.cs) && History(w, st, run) && Sound(st[0].disk, w.cs) && j < i < |run|
    requires RecordsIt(w, st[j], run[j])
    requires forall k | j < k < i :: !DropsRevocations(run[k])
    ensures RevocationSealed(w.cs, st[i].disk, StoredRevocation(run[j].op))
  {
    RestoresInOps(st, run, j, i);
    RecordedInOps(w, st, run, j);
    RecordedStaysSealed(w.cs, st[0].disk, Ops(st, run), j, i);
    DiskFollowsOps(w, st, run, i);
  }

  lemma RecordedInOps(w: World, st: seq<Sys>, run: seq<Action>, j: nat)
    requires History(w, st, run) && j < |run| && RecordsIt(w, st[j], run[j])
    ensures Ops(st, run)[j] == run[j].op
    ensures Recorded(w.cs, Run(w.cs, st[0].disk, Ops(st, run)[..j]), Ops(st, run)[j])
  {
    DiskFollowsOps(w, st, run, j);
  }

  lemma SealedRevocationBars(disk: Files, cs: Codecs, r: Revocation)
    requires RevocationSealed(cs, disk, r)
    ensures RevocationBars(disk, cs, r.digest, r.environment)
  {
    SealedIsRead(Content(disk.revocations), r, cs.revocation);
  }

  /** The request recorded a quarantine of this digest, global or for this environment. */
  ghost predicate RecordsQuarantineAgainst(w: World, s: Sys, a: Action, digest: string, env: string) {
    && a.Admin? && IsAdmin(a.op) && RecordedQuarantine(w.cs, s.disk, a.op)
    && a.op.quarantine.digest == digest && (a.op.quarantine.environment == "" || a.op.quarantine.environment == env)
  }

  /** The same for quarantines, unless some request lifted the record before the evaluation
      read the log. */
  lemma QuarantinedIsDenied(w: World, st: seq<Sys>, run: seq<Action>, j: nat, e: Trace)
    requires Safe(w.cs) && History(w, st, run) && Sound(st[0].disk, w.cs)
    requires IsEvaluation(run, e) && j < e.decide
    requires RecordsQuarantineAgainst(w, st[j], run[j], run[e.begin].req.subject.digest, run[e.begin].req.environment)
    ensures var op := OpOf(st[e.save], run[e.save]);
            || (op.Save? && op.decision.outcome == Deny)
            || exists k | j < k < e.decide :: Lifts(w, st[k], run[k], StoredQuarantine(run[j].op))
  {
    var req := run[e.begin].req;
    QuarantineStillBars(w, st, run, j, e.decide, req.subject.digest, req.environment);
    if QuarantineBars(st[e.decide].disk, w.cs, req.subject.digest, req.environment) {
      BarredEvaluationSavesDeny(w, st, run, e);
    }
  }

  lemma QuarantineStillBars(w: World, st: seq<Sys>, run: seq<Action>, j: nat, i: nat, digest: string, env: string)
    requires Safe(w.cs) && History(w, st, run) && Sound(st[0].disk, w.cs) && j < i < |run|
    requires RecordsQuarantineAgainst(w, st[j], run[j], digest, env)
    ensures || QuarantineBars(st[i].disk, w.cs, digest, env)
            || exists k | j < k < i :: Lifts(w, st[k], run[k], StoredQuarantine(run[j].op))
  {
    QuarantineStaysInHistory(w, st, run, j, i);
    if QuarantineSealed(w.cs, st[i].disk, StoredQuarantine(run[j].op)) {
      SealedQuarantineBars(st[i].disk, w.cs, StoredQuarantine(run[j].op), digest, env);
    }
  }

  /** The request recorded a quarantine. */
  ghost predicate RecordsQuarantine(w: World, s: Sys, a: Action) {
    a.Admin? && IsAdmin(a.op) && RecordedQuarantine(w.cs, s.disk, a.op)
  }

  lemma QuarantineStaysInHistory(w: World, st: seq<Sys>, run: seq<Action>, j: nat, i: nat)
    requires Safe(w.cs) && History(w, st, run) && Sound(st[0].disk, w.cs) && j < i < |run|
    requires RecordsQuarantine(w, st[j], run[j])
    ensures || QuarantineSealed(w.cs, st[i].disk, StoredQuarantine(run[j].op))
            || exists k | j < k < i :: Lifts(w, st[k], run[k], StoredQuarantine(run[j].op))
  {
    var ops := Ops(st, run);
    RecordedQuarantineInOps(w, st, run, j);
    RecordedQuarantineStays(w.cs, st[0].disk, ops, j, i);
    DiskFollowsOps(w, st, run, i);
    if k :| j < k < i && LiftedAt(w.cs, st[0].disk, ops, k, StoredQuarantine(run[j].op)) {
      LiftInOps(w, st, run, k, StoredQuarantine(run[j].op));
    }
  }

  lemma RecordedQuarantineInOps(w: World, st: seq<Sys>, run: seq<Action>, j: nat)
    requires History(w, st, run) && j < |run| && RecordsQuarantine(w, st[j], run[j])
    ensures Ops(st, run)[j] == run[j].op
    ensures RecordedQuarantine(w.cs, Run(w.cs, st[0].disk, Ops(st, run)[..j]), Ops(st, run)[j])
  {
    DiskFollowsOps(w, st, run, j);
  }

  lemma SealedQuarantineBars(disk: Files, cs: Codecs, q: Records.Quarantine, digest: string, env: string)
    requires QuarantineSealed(cs, disk, q) && q.digest == digest && (q.environment == "" || q.environment == env)
    ensures QuarantineBars(disk, cs, digest, env)
  {
    SealedIsRead(Content(disk.quarantines), q, cs.quarantine);
  }

  // The decision log.

  /** Some evaluation saved the decision before action n. */
  ghost predicate SavedIn(w: World, st: seq<Sys>, run: seq<Action>, n: nat, d: Decision)
    requires n <= |run| < |st|
  {
    exists e :: Saves(w, st, run, e, d) && e.save < n
  }

  ghost predicate Saves(w: World, st: seq<Sys>, run: seq<Action>, e: Trace, d: Decision)
    requires |run| < |st|
  {
    IsEvaluation(run, e) && d == DecisionIn(w, st, run, e)
  }

  /** Every decision that can be read was reached and saved by an evaluation of the run. */
  ghost predicate LogFrom(w: World, st: seq<Sys>, run: seq<Action>, n: nat, disk: Files)
    requires n <= |run| < |st|
  {
    var ds := ReadFile(disk.decisions, w.cs.decision);
    ds.Ok? ==> forall d | d in ds.value :: SavedIn(w, st, run, n, d)
  }

  lemma SavedStays(w: World, st: seq<Sys>, run: seq<Action>, m: nat, n: nat, d: Decision)
    requires m <= n <= |run| < |st| && SavedIn(w, st, run, m, d)
    ensures SavedIn(w, st, run, n, d)
  {
    var e :| Saves(w, st, run, e, d) && e.save < m;
  }

  lemma LogStays(w: World, st: seq<Sys>, run: seq<Action>, m: nat, n: nat, a: Files, b: Files)
    requires m <= n <= |run| < |st| && LogFrom(w, st, run, m, a)
    requires a.decisions == b.decisions || b.decisions == None
    ensures LogFrom(w, st, run, n, b)
  {
    EmptySound(w.cs.decision);
    var ds := ReadFile(b.decisions, w.cs.decision);
    if ds.Ok? {
      forall d | d in ds.value
        ensures SavedIn(w, st, run, n, d)
      {
        SavedStays(w, st, run, m, n, d);
      }
    }
  }

  lemma TaskIsSaved(w: World, st: seq<Sys>, run: seq<Action>, n: nat, d: Decision)
    requires n < |run| < |st| && run[n].SaveTask? && TaskFrom(w, st, run, n, run[n].task, Decided(d))
    ensures SavedIn(w, st, run, n + 1, d)
  {
    var t := run[n].task;
    var b: nat, r: nat, q: nat :| Decides(w, st, run, t, b, r, q, n, d);
    assert Saves(w, st, run, Trace(t, b, r, q, n), d);
  }

  /** One append, complete or not, of an evaluation's decision. */
  lemma SaveKeepsLog(w: World, st: seq<Sys>, run: seq<Action>, n: nat, disk: Files, d: Decision, fault: WriteFault)
    requires Safe(w.cs) && Sound(disk, w.cs) && n < |run| < |st|
    requires LogFrom(w, st, run, n, disk) && SavedIn(w, st, run, n + 1, d)
    ensures LogFrom(w, st, run, n + 1, SaveDecision(disk, w.cs, d, fault).0)
  {
    AppendOutcome(disk.decisions, d, w.cs.decision, fault);
    var before := ReadFile(disk.decisions, w.cs.decision);
    var after := ReadFile(SaveDecision(disk, w.cs, d, fault).0.decisions, w.cs.decision);
    if after.Ok? {
      forall x | x in after.value
        ensures SavedIn(w, st, run, n + 1, x)
      {
        if x in before.value {
          SavedStays(w, st, run, n, n + 1, x);
        }
      }
    }
  }

  /** A restore, complete or not, of a backup of the directory as it stood before action m. */
  lemma RestoreKeepsLog(w: World, st: seq<Sys>, run: seq<Action>, m: nat, n: nat, past: Files, disk: Files, at: Time,
                        data: string, faults: Faults)
    requires Safe(w.cs) && Invertible(w.cs.backup) && m <= n <= |run| < |st|
    requires LogFrom(w, st, run, m, past) && Backup(past, w.cs, at) == Ok(data)
    ensures LogFrom(w, st, run, n, Disk.Restore(disk, w.cs, data, faults).0)
  {
    var b := BackedUp(past, w.cs, at, data);
    RestoreOutcome(b, w.cs, faults);
    var ds := ReadFile(RestoreFrom(b, w.cs, faults).0.decisions, w.cs.decision);
    if ds.Ok? {
      forall d | d in ds.value
        ensures SavedIn(w, st, run, n, d)
      {
        assert d in b.decisions;
        SavedStays(w, st, run, m, n, d);
      }
    }
  }

  lemma BackedUp(fs: Files, cs: Codecs, at: Time, data: string) returns (b: BackupData)
    requires Invertible(cs.backup) && Backup(fs, cs, at) == Ok(data)
    ensures cs.backup.dec(data) == Some(b) && ReadFile(fs.decisions, cs.decision) == Ok(b.decisions)
  {
    var ds, ps := ReadFile(fs.decisions, cs.decision), ReadFile(fs.promotions, cs.promotion);
    var rs, qs := ReadFile(fs.revocations, cs.revocation), ReadFile(fs.quarantines, cs.quarantine);
    b := BackupData(at, ds.value, ps.value, rs.value, qs.value);
    assert cs.backup.dec(cs.backup.enc(b).value) == Some(b);
  }

  lemma OthersKeepDecisions(cs: Codecs, disk: Files, op: Op)
    requires !op.Save? && !op.Restore?
    ensures Effect(cs, disk, op).decisions == disk.decisions || Effect(cs, disk, op).decisions == None
  {
  }

  // Whole runs.

  /** What holds before action n, or after all of them. */
  ghost predicate Invariant(w: World, st: seq<Sys>, run: seq<Action>, n: nat)
    requires n <= |run| < |st|
  {
    && Sound(st[n].disk, w.cs) && st[0].clock <= st[n].clock
    && TasksFrom(w, st, run, n, st[n].tasks) && LogFrom(w, st, run, n, st[n].disk)
  }

  /** No evaluation is under way and no decision is logged. */
  ghost predicate Fresh(w: World, s: Sys) {
    && Sound(s.disk, w.cs) && s.clock > 0 && s.tasks == map[]
    && FileLaws.WholeIfRead(ReadFile(s.disk.decisions, w.cs.decision), [])
  }

  /** If action n restores, then a backup taken earlier in the run. */
  ghost predicate OwnBackupAt(w: World, st: seq<Sys>, run: seq<Action>, n: nat)
    requires n < |run| < |st|
  {
    Restores(run[n]) ==> exists j: nat, at :: j <= n && Backup(st[j].disk, w.cs, at) == Ok(run[n].op.data)
  }

  ghost predicate OwnBackups(w: World, st: seq<Sys>, run: seq<Action>)
    requires |run| < |st|
  {
    forall n | 0 <= n < |run| :: OwnBackupAt(w, st, run, n)
  }

  lemma StepKeepsLog(w: World, st: seq<Sys>, run: seq<Action>, n: nat)
    requires Safe(w.cs) && n < |run| < |st| && Invariant(w, st, run, n) && !Restores(run[n])
    ensures LogFrom(w, st, run, n + 1, Effect(w.cs, st[n].disk, OpOf(st[n], run[n])))
  {
    var disk, op := st[n].disk, OpOf(st[n], run[n]);
    if op.Save? {
      TaskIsSaved(w, st, run, n, op.decision);
      SaveKeepsLog(w, st, run, n, disk, op.decision, op.fault);
    } else {
      OthersKeepDecisions(w.cs, disk, op);
      LogStays(w, st, run, n, n + 1, disk, Effect(w.cs, disk, op));
    }
  }

  lemma OwnRestoreKeepsLog(w: World, st: seq<Sys>, run: seq<Action>, j: nat, n: nat, at: Time)
    requires Safe(w.cs) && Invertible(w.cs.backup) && j <= n < |run| < |st| && Restores(run[n])
    requires LogFrom(w, st, run, j, st[j].disk) && Backup(st[j].disk, w.cs, at) == Ok(run[n].op.data)
    ensures LogFrom(w, st, run, n + 1, Effect(w.cs, st[n].disk, OpOf(st[n], run[n])))
  {
    RestoreKeepsLog(w, st, run, j, n + 1, st[j].disk, st[n].disk, at, run[n].op.data, run[n].op.faults);
    RestoreTakesEffect(w.cs, st[n], run[n]);
  }

  lemma RestoreTakesEffect(cs: Codecs, s: Sys, a: Action)
    requires Restores(a)
    ensures Effect(cs, s.disk, OpOf(s, a)) == Disk.Restore(s.disk, cs, a.op.data, a.op.faults).0
  {
  }

  lemma StepKeepsInvariant(w: World, st: seq<Sys>, run: seq<Action>, n: nat)
    requires Safe(w.cs) && History(w, st, run) && n < |run| && Invariant(w, st, run, n)
    requires LogFrom(w, st, run, n + 1, Effect(w.cs, st[n].disk, OpOf(st[n], run[n])))
    ensures Invariant(w, st, run, n + 1)
  {
    assert Happens(w, st, run, n);
    StepKeepsSound(w.cs, st[n].disk, OpOf(st[n], run[n]));
    StepKeepsTasks(w, st, run, n);
  }

  lemma RestoreKeepsInvariant(w: World, st: seq<Sys>, run: seq<Action>, j: nat, n: nat, at: Time)
    requires Safe(w.cs) && Invertible(w.cs.backup) && History(w, st, run) && j <= n < |run| && Restores(run[n])
    requires Invariant(w, st, run, j) && Invariant(w, st, run, n)
    requires Backup(st[j].disk, w.cs, at) == Ok(run[n].op.data)
    ensures Invariant(w, st, run, n + 1)
  {
    OwnRestoreKeepsLog(w, st, run, j, n, at);
    StepKeepsInvariant(w, st, run, n);
  }

  lemma OtherStepKeepsInvariant(w: World, st: seq<Sys>, run: seq<Action>, n: nat)
    requires Safe(w.cs) && History(w, st, run) && n < |run| && !Restores(run[n]) && Invariant(w, st, run, n)
    ensures Invariant(w, st, run, n + 1)
  {
    StepKeepsLog(w, st, run, n);
    StepKeepsInvariant(w, st, run, n);
  }

  lemma FreshIsInvariant(w: World, st: seq<Sys>, run: seq<Action>)
    requires |run| < |st| && Fresh(w, st[0])
    ensures Invariant(w, st, run, 0)
  {
  }

  /** Where the backup that action n restores was taken. */
  lemma BackupOrigin(w: World, st: seq<Sys>, run: seq<Action>, n: nat) returns (j: nat, at: Time)
    requires n < |run| < |st| && OwnBackups(w, st, run) && Restores(run[n])
    ensures j <= n && Backup(st[j].disk, w.cs, at) == Ok(run[n].op.data)
  {
    assert OwnBackupAt(w, st, run, n);
    j, at :| j <= n && Backup(st[j].disk, w.cs, at) == Ok(run[n].op.data);
  }

  /** In every reachable state, each decision in flight and each logged decision was reached by
      the steps of an evaluation of this run, from the clock and the logs as they stood then. */
  lemma RunKeepsInvariant(w: World, st: seq<Sys>, run: seq<Action>, n: nat)
    requires Safe(w.cs) && Invertible(w.cs.backup) && History(w, st, run) && Fresh(w, st[0])
    requires n <= |run| && OwnBackups(w, st, run)
    ensures Invariant(w, st, run, n)
  {
    FreshIsInvariant(w, st, run);
    InvariantStays(w, st, run, n);
  }

  lemma {:induction false} InvariantStays(w: World, st: seq<Sys>, run: seq<Action>, n: nat)
    requires Safe(w.cs) && Invertible(w.cs.backup) && History(w, st, run) && Invariant(w, st, run, 0)
    requires n <= |run| && OwnBackups(w, st, run)
    ensures Invariant(w, st, run, n)
    decreases n, 0
  {
    if n > 0 {
      NextKeepsInvariant(w, st, run, n - 1);
    }
  }

  lemma NextKeepsInvariant(w: World, st: seq<Sys>, run: seq<Action>, k: nat)
    requires Safe(w.cs) && Invertible(w.cs.backup) && History(w, st, run) && Invariant(w, st, run, 0)
    requires k < |run| && OwnBackups(w, st, run)
    ensures Invariant(w, st, run, k + 1)
    decreases k, 1
  {
    InvariantStays(w, st, run, k);
    if Restores(run[k]) {
      var j, at := BackupOrigin(w, st, run, k);
      InvariantStays(w, st, run, j);
      RestoreKeepsInvariant(w, st, run, j, k, at);
    } else {
      OtherStepKeepsInvariant(w, st, run, k);
    }
  }

  lemma {:induction false} ClockNeverGoesBack(w: World, st: seq<Sys>, run: seq<Action>, i: nat, j: nat)
    requires History(w, st, run) && i <= j <= |run|
    ensures st[i].clock <= st[j].clock
    decreases j
  {
    if i < j {
      ClockNeverGoesBack(w, st, run, i, j - 1);
      assert Happens(w, st, run, j - 1);
    }
  }

  // What a promotion rests on.

  /** The evaluation decided what the promotion asks for: its decision is the first of its
      identifier in the log the promotion reads, for the same digest and environment, made at
      most a day before; every rule was met, and when it looked, the revocation log held no record
      for the environment by name and the quarantine log no covering one. */
  ghost predicate Supports(w: World, st: seq<Sys>, run: seq<Action>, e: Trace, i: nat)
    requires IsEvaluation(run, e) && i < |run| < |st| && run[i].PromoteNow?
  {
    var p, req, d := run[i].promotion, run[e.begin].req, DecisionIn(w, st, run, e);
    && ReadFile(st[i].disk.decisions, w.cs.decision).Ok?
    && FirstMatch(ReadFile(st[i].disk.decisions, w.cs.decision).value, p.decisionId) == Some(d)
    && d.decisionId == p.decisionId == run[e.begin].id
    && d.subject.digest == p.digest == req.subject.digest
    && d.environment == p.environment == req.environment
    && d.evaluatedAt == st[e.begin].clock <= st[i].clock <= d.evaluatedAt + DAY
    && AdmissionRules.Admissible(w.evaluator, req,
         Admission.Context(st[e.begin].clock, run[e.begin].wall, run[e.begin].id,
                           RevocationAnswer(st[e.look].disk, w.cs, req),
                           QuarantineAnswer(st[e.decide].disk, w.cs, req)))
    && !RevocationBars(st[e.look].disk, w.cs, req.subject.digest, req.environment)
    && !QuarantineBars(st[e.decide].disk, w.cs, req.subject.digest, req.environment)
  }

  /** Four actions before promotion i are one evaluation that supports it. */
  ghost predicate RestsOnEvaluation(w: World, st: seq<Sys>, run: seq<Action>, i: nat)
    requires i < |run| < |st| && run[i].PromoteNow?
  {
    exists e :: IsEvaluation(run, e) && e.save < i && Supports(w, st, run, e, i)
  }

  /** Under every interleaving, with every torn write and through restores of the run's own
      backups, a promotion that goes through rests on an evaluation of the run. */
  lemma PromotionRestsOnEvaluation(w: World, st: seq<Sys>, run: seq<Action>, i: nat)
    requires Safe(w.cs) && Invertible(w.cs.backup) && History(w, st, run) && Fresh(w, st[0])
    requires i < |run| && OwnBackups(w, st, run)
    requires Promotes(w, st[i], run[i])
    ensures RestsOnEvaluation(w, st, run, i)
  {
    RunKeepsInvariant(w, st, run, i);
    var d := AdmittedBy(st[i].disk, w.cs, run[i].promotion, st[i].clock);
    var e := Origin(w, st, run, i, d);
    ClockNeverGoesBack(w, st, run, 0, e.begin);
    ClockNeverGoesBack(w, st, run, e.begin, i);
    EvaluationSupports(w, st, run, e, i);
  }

  /** The evaluation a logged decision comes from. */
  lemma Origin(w: World, st: seq<Sys>, run: seq<Action>, i: nat, d: Decision) returns (e: Trace)
    requires i <= |run| < |st| && LogFrom(w, st, run, i, st[i].disk)
    requires var ds := ReadFile(st[i].disk.decisions, w.cs.decision); ds.Ok? && d in ds.value
    ensures Saves(w, st, run, e, d) && e.save < i
  {
    assert SavedIn(w, st, run, i, d);
    e :| Saves(w, st, run, e, d) && e.save < i;
  }

  /** The decision that lets a promotion through. */
  lemma AdmittedBy(disk: Files, cs: Codecs, p: Promotion, now: Time) returns (d: Decision)
    requires PromoteVerdict(disk, cs, p, now).None?
    ensures Admits(disk, cs, p, now, d)
  {
    var ds := ReadFile(disk.decisions, cs.decision).value;
    FirstMatchFound(ds, p.decisionId);
    d := FirstMatch(ds, p.decisionId).value;
  }

  ghost predicate Admits(disk: Files, cs: Codecs, p: Promotion, now: Time, d: Decision) {
    var ds := ReadFile(disk.decisions, cs.decision);
    && ds.Ok? && d in ds.value && FirstMatch(ds.value, p.decisionId) == Some(d)
    && d.decisionId == p.decisionId
    && d.outcome == Allow && d.subject.digest == p.digest && d.environment == p.environment
    && (d.expiresAt == ZERO_TIME || now <= d.expiresAt)
  }

  lemma EvaluationSupports(w: World, st: seq<Sys>, run: seq<Action>, e: Trace, i: nat)
    requires IsEvaluation(run, e) && i < |run| < |st| && run[i].PromoteNow?
    requires Admits(st[i].disk, w.cs, run[i].promotion, st[i].clock, DecisionIn(w, st, run, e))
    requires 0 < st[e.begin].clock <= st[i].clock
    ensures Supports(w, st, run, e, i)
  {
    var req, ctx := run[e.begin].req, ContextOf(w, st[e.begin], st[e.look], st[e.decide], run[e.begin]);
    AllowedEvaluation(w, req, ctx);
    AnswersExactly(st[e.look].disk, w.cs, req);
    AnswersExactly(st[e.decide].disk, w.cs, req);
  }

  lemma AllowedEvaluation(w: World, req: Admission.EvaluationRequest, ctx: Admission.Context)
    requires Admission.DecisionOf(w.evaluator, req, ctx).outcome == Allow
    ensures AdmissionRules.Admissible(w.evaluator, req, ctx)
    ensures AdmissionRules.Clear(ctx.revoked) && AdmissionRules.Clear(ctx.quarantined)
    ensures var d := Admission.DecisionOf(w.evaluator, req, ctx);
            && d.decisionId == ctx.decisionId && d.subject == req.subject && d.environment == req.environment
            && d.evaluatedAt == ctx.now && d.expiresAt == ctx.now + DAY
  {
    AdmissionRules.DecisionFields(w.evaluator, req, ctx);
    AdmissionRules.OutcomeByRules(w.evaluator, req, ctx);
  }
}
