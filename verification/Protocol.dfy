/** The server's requests over one file store: an evaluation reads the clock, the revocation
    log and the quarantine log and saves its decision in four separate steps, between which
    anything else may happen. */
module Protocol {
  import opened Wrappers
  import opened Records
  import opened LineLog
  import opened Ledger
  import opened Disk
  import opened FileLaws
  import opened StoreRuns
  import Admission
  import AdmissionRules

  /** What does not change during a run. */
  datatype World = World(cs: Codecs, evaluator: Admission.Evaluator)

  /** How far an evaluation has come. */
  datatype Task =
    | Started(req: Admission.EvaluationRequest, ctx: Admission.Context)
    | SawRevocations(req: Admission.EvaluationRequest, ctx: Admission.Context)
    | Decided(decision: Decision)

  datatype Sys = Sys(disk: Files, clock: Time, tasks: map<nat, Task>)

  datatype Action =
    | Tick(elapsed: nat)
    | Begin(task: nat, req: Admission.EvaluationRequest, id: string, wall: Time)
    | ReadRevocations(task: nat)
    | ReadQuarantines(task: nat)
    | SaveTask(task: nat, fault: WriteFault)
    | PromoteNow(promotion: Promotion, id: string, stampedAt: Time, fault: WriteFault)
    | Admin(op: Op)

  /** The requests the handlers pass on: restrictions need a digest, lifting one needs a
      target. A restore comes from the command line as it is. */
  predicate IsAdmin(op: Op) {
    match op
    case Revoke(r, _, _, _) => r.digest != ""
    case Quarantine(q, _, _, _) => q.digest != ""
    case Unquarantine(target, _) => target != ""
    case Restore(_, _) => true
    case RestoreCut(_) => true
    case _ => false
  }

  /** The answer of FileStore.IsRevoked, as the evaluator receives it. */
  function RevocationAnswer(disk: Files, cs: Codecs, req: Admission.EvaluationRequest): Admission.Lookup {
    var rs := ReadFile(disk.revocations, cs.revocation);
    if rs.Err? then Admission.Unavailable
    else Admission.Known(RevokedExactly(rs.value, req.subject.digest, req.environment))
  }

  function QuarantineAnswer(disk: Files, cs: Codecs, req: Admission.EvaluationRequest): Admission.Lookup {
    var qs := ReadFile(disk.quarantines, cs.quarantine);
    if qs.Err? then Admission.Unavailable
    else Admission.Known(Quarantined(qs.value, req.subject.digest, req.environment))
  }

  /** The revocation log keeps an evaluator from clearing the digest: it cannot be read, or it
      holds a record of that digest for that very environment. */
  ghost predicate RevocationBars(disk: Files, cs: Codecs, digest: string, env: string) {
    var rs := ReadFile(disk.revocations, cs.revocation);
    rs.Err? || exists r | r in rs.value :: r.digest == digest && r.environment == env
  }

  /** The quarantine log does: it cannot be read, or it holds a record of that digest that is
      global or for that environment. */
  ghost predicate QuarantineBars(disk: Files, cs: Codecs, digest: string, env: string) {
    var qs := ReadFile(disk.quarantines, cs.quarantine);
    qs.Err? || exists q | q in qs.value :: q.digest == digest && (q.environment == "" || q.environment == env)
  }

  lemma AnswersExactly(disk: Files, cs: Codecs, req: Admission.EvaluationRequest)
    ensures AdmissionRules.Clear(RevocationAnswer(disk, cs, req))
       <==> !RevocationBars(disk, cs, req.subject.digest, req.environment)
    ensures AdmissionRules.Clear(QuarantineAnswer(disk, cs, req))
       <==> !QuarantineBars(disk, cs, req.subject.digest, req.environment)
  {
    var qs := ReadFile(disk.quarantines, cs.quarantine);
    if qs.Ok? {
      forall q | q in qs.value
        ensures Covers(q.digest, q.environment, req.subject.digest, req.environment)
           <==> q.digest == req.subject.digest && (q.environment == "" || q.environment == req.environment)
      {
      }
    }
  }

  /** An evaluation to which either log bars the digest ends in DENY, whatever else holds. */
  lemma BarredIsDenied(e: Admission.Evaluator, revs: Files, quars: Files, cs: Codecs, req: Admission.EvaluationRequest,
                       ctx: Admission.Context)
    requires ctx.revoked == RevocationAnswer(revs, cs, req) && ctx.quarantined == QuarantineAnswer(quars, cs, req)
    requires || RevocationBars(revs, cs, req.subject.digest, req.environment)
             || QuarantineBars(quars, cs, req.subject.digest, req.environment)
    ensures Admission.DecisionOf(e, req, ctx).outcome == Deny
  {
    AnswersExactly(revs, cs, req);
    AnswersExactly(quars, cs, req);
    AdmissionRules.OutcomeByRules(e, req, ctx);
  }

  /** The critical section an action enters, if any. */
  function OpOf(s: Sys, a: Action): Op {
    match a
    case SaveTask(t, fault) =>
      if t in s.tasks && s.tasks[t].Decided? then Op.Save(s.tasks[t].decision, fault) else Idle
    case PromoteNow(p, id, at, fault) =>
      if p.decisionId == "" || p.digest == "" || p.environment == "" then Idle
      else Op.Promote(p, id, s.clock, at, fault)
    case Admin(op) => if IsAdmin(op) then op else Idle
    case _ => Idle
  }

  /** What each request does to the directory: one with its required fields has the effect of the
      store's operation on the caller's record, one without them has none. */
  lemma RequestsReachTheStore(w: World, s: Sys, a: Action)
    ensures a.PromoteNow? ==>
              var p := a.promotion;
              Apply(w, s, a).disk ==
                if p.decisionId == "" || p.digest == "" || p.environment == "" then s.disk
                else Disk.Promote(s.disk, w.cs, p, a.id, s.clock, a.stampedAt, a.fault).0
    ensures a.Admin? && a.op.Revoke? ==>
              var r := StampedRevocation(a.op.revocation, a.op.id, a.op.stampedAt);
              Apply(w, s, a).disk ==
                if a.op.revocation.digest == "" then s.disk else Disk.Revoke(s.disk, w.cs, r, a.op.fault).0
    ensures a.Admin? && a.op.Quarantine? ==>
              var q := StampedQuarantine(a.op.quarantine, a.op.id, a.op.stampedAt);
              Apply(w, s, a).disk ==
                if a.op.quarantine.digest == "" then s.disk else AddQuarantine(s.disk, w.cs, q, a.op.fault).0
    ensures a.Admin? && a.op.Unquarantine? ==>
              Apply(w, s, a).disk ==
                if a.op.target == "" then s.disk else Disk.Unquarantine(s.disk, w.cs, a.op.target, a.op.faults).0
  {
  }

  /** What one action does to the evaluations in flight. */
  function TasksAfter(w: World, s: Sys, a: Action): map<nat, Task> {
    match a
    case Begin(t, req, id, wall) =>
      s.tasks[t := Started(req, Admission.Context(s.clock, wall, id, Admission.NotConfigured, Admission.NotConfigured))]
    case ReadRevocations(t) =>
      if t in s.tasks && s.tasks[t].Started? then
        var k := s.tasks[t];
        s.tasks[t := SawRevocations(k.req, k.ctx.(revoked := RevocationAnswer(s.disk, w.cs, k.req)))]
      else s.tasks
    case ReadQuarantines(t) =>
      if t in s.tasks && s.tasks[t].SawRevocations? then
        var k := s.tasks[t];
        var ctx := k.ctx.(quarantined := QuarantineAnswer(s.disk, w.cs, k.req));
        s.tasks[t := Decided(Admission.DecisionOf(w.evaluator, k.req, ctx))]
      else s.tasks
    case SaveTask(t, _) => if t in s.tasks && s.tasks[t].Decided? then s.tasks - {t} else s.tasks
    case _ => s.tasks
  }

  function Apply(w: World, s: Sys, a: Action): Sys {
    Sys(Effect(w.cs, s.disk, OpOf(s, a)), if a.Tick? then s.clock + a.elapsed else s.clock, TasksAfter(w, s, a))
  }

  /** The states a run of requests goes through, one before each action and one after all. */
  ghost predicate History(w: World, st: seq<Sys>, run: seq<Action>) {
    |st| == |run| + 1 && forall i | 0 <= i < |run| :: Happens(w, st, run, i)
  }

  ghost predicate Happens(w: World, st: seq<Sys>, run: seq<Action>, i: nat)
    requires i < |run| < |st|
  {
    st[i + 1] == Apply(w, st[i], run[i])
  }

  /** Every run has a history from every state. */
  lemma {:induction false} HistoryExists(w: World, s: Sys, run: seq<Action>) returns (st: seq<Sys>)
    ensures History(w, st, run) && st[0] == s
  {
    if run == [] {
      st := [s];
    } else {
      var n := |run| - 1;
      var before := HistoryExists(w, s, run[..n]);
      st := before + [Apply(w, before[n], run[n])];
      forall i | 0 <= i < |run|
        ensures Happens(w, st, run, i)
      {
        if i < n {
          assert Happens(w, before, run[..n], i);
        }
      }
    }
  }

  /** The critical sections of a run. */
  function Ops(st: seq<Sys>, run: seq<Action>): (ops: seq<Op>)
    requires |st| == |run| + 1
    ensures |ops| == |run| && forall i | 0 <= i < |run| :: ops[i] == OpOf(st[i], run[i])
  {
    seq(|run|, i requires 0 <= i < |run| => OpOf(st[i], run[i]))
  }

  /** To the store, a run of requests is the run of its critical sections. */
  lemma {:induction false} DiskFollowsOps(w: World, st: seq<Sys>, run: seq<Action>, i: nat)
    requires History(w, st, run) && i <= |run|
    ensures st[i].disk == Run(w.cs, st[0].disk, Ops(st, run)[..i])
  {
    if i > 0 {
      DiskFollowsOps(w, st, run, i - 1);
      assert Happens(w, st, run, i - 1);
      RunStep(w.cs, st[0].disk, Ops(st, run), i - 1);
    }
  }

  /** Is this the request that recorded a revocation covering that promotion? */
  ghost predicate RecordsCover(w: World, s: Sys, a: Action, p: Promotion) {
    && a.Admin? && IsAdmin(a.op) && Recorded(w.cs, s.disk, a.op)
    && Covers(a.op.revocation.digest, a.op.revocation.environment, p.digest, p.environment)
  }

  /** Under every interleaving of requests: a promotion request made after a covering
      revocation was recorded is refused, whatever evaluations were in flight in between. */
  lemma RevokedIsNeverPromoted(w: World, st: seq<Sys>, run: seq<Action>, j: nat, i: nat)
    requires Safe(w.cs) && History(w, st, run) && Sound(st[0].disk, w.cs)
    requires j < i < |run| && run[i].PromoteNow?
    requires RecordsCover(w, st[j], run[j], run[i].promotion)
    requires forall k | j < k < i :: !DropsRevocations(run[k])
    ensures !Promotes(w, st[i], run[i])
  {
    if Promotes(w, st[i], run[i]) {
      RevocationInOps(w, st, run, j, run[i].promotion);
      PromotionInOps(w, st, run, i);
      RestoresInOps(st, run, j, i);
      RevocationWins(w.cs, st[0].disk, Ops(st, run), j, i);
    }
  }

  lemma RestoresInOps(st: seq<Sys>, run: seq<Action>, j: nat, i: nat)
    requires |st| == |run| + 1 && j < i < |run| && forall k | j < k < i :: !DropsRevocations(run[k])
    ensures forall k | j < k < i :: !ReplacesRevocations(Ops(st, run)[k])
  {
    forall k | j < k < i
      ensures !ReplacesRevocations(OpOf(st[k], run[k]))
    {
      assert !DropsRevocations(run[k]);
    }
  }

  lemma RevocationInOps(w: World, st: seq<Sys>, run: seq<Action>, j: nat, p: Promotion)
    requires History(w, st, run) && j < |run| && RecordsCover(w, st[j], run[j], p)
    ensures var ops := Ops(st, run);
            && Recorded(w.cs, Run(w.cs, st[0].disk, ops[..j]), ops[j])
            && Covers(ops[j].revocation.digest, ops[j].revocation.environment, p.digest, p.environment)
  {
    DiskFollowsOps(w, st, run, j);
  }

  lemma PromotionInOps(w: World, st: seq<Sys>, run: seq<Action>, i: nat)
    requires History(w, st, run) && i < |run| && Promotes(w, st[i], run[i])
    ensures var ops := Ops(st, run);
            && GoesThrough(w.cs, Run(w.cs, st[0].disk, ops[..i]), ops[i])
            && ops[i].promotion == run[i].promotion
  {
    DiskFollowsOps(w, st, run, i);
  }

  /** The request reaches the store and passes every guard there. */
  ghost predicate Promotes(w: World, s: Sys, a: Action) {
    a.PromoteNow? && GoesThrough(w.cs, s.disk, OpOf(s, a))
  }

  /** A restore, complete or cut short, that has removed the revocation log. */
  ghost predicate DropsRevocations(a: Action) {
    a.Admin? && ReplacesRevocations(a.op)
  }

  ghost predicate Restores(a: Action) {
    a.Admin? && a.op.Restore?
  }

  /** Is this the request that recorded a quarantine covering that promotion? */
  ghost predicate RecordsQuarantineOf(w: World, s: Sys, a: Action, p: Promotion) {
    && a.Admin? && IsAdmin(a.op) && RecordedQuarantine(w.cs, s.disk, a.op)
    && Covers(a.op.quarantine.digest, a.op.quarantine.environment, p.digest, p.environment)
  }

  /** The request may take that quarantine record off the log. */
  ghost predicate Lifts(w: World, s: Sys, a: Action, q: Records.Quarantine) {
    MayDrop(w.cs, s.disk, OpOf(s, a), q)
  }

  /** Under every interleaving: between a recorded quarantine and a promotion it covers that
      goes through, some request lifted it. */
  lemma QuarantineWasLiftedByRequest(w: World, st: seq<Sys>, run: seq<Action>, j: nat, i: nat)
    requires Safe(w.cs) && History(w, st, run) && Sound(st[0].disk, w.cs)
    requires j < i < |run| && Promotes(w, st[i], run[i])
    requires RecordsQuarantineOf(w, st[j], run[j], run[i].promotion)
    ensures exists k | j < k < i :: Lifts(w, st[k], run[k], StoredQuarantine(run[j].op))
  {
    var ops := Ops(st, run);
    QuarantineInOps(w, st, run, j, run[i].promotion);
    PromotionInOps(w, st, run, i);
    QuarantineWasLifted(w.cs, st[0].disk, ops, j, i);
    var k :| j < k < i && LiftedAt(w.cs, st[0].disk, ops, k, StoredQuarantine(ops[j]));
    LiftInOps(w, st, run, k, StoredQuarantine(ops[j]));
  }

  lemma QuarantineInOps(w: World, st: seq<Sys>, run: seq<Action>, j: nat, p: Promotion)
    requires History(w, st, run) && j < |run| && RecordsQuarantineOf(w, st[j], run[j], p)
    ensures var ops := Ops(st, run);
            && RecordedQuarantine(w.cs, Run(w.cs, st[0].disk, ops[..j]), ops[j])
            && ops[j] == run[j].op
            && Covers(ops[j].quarantine.digest, ops[j].quarantine.environment, p.digest, p.environment)
  {
    DiskFollowsOps(w, st, run, j);
  }

  lemma LiftInOps(w: World, st: seq<Sys>, run: seq<Action>, k: nat, q: Records.Quarantine)
    requires History(w, st, run) && k < |run| && LiftedAt(w.cs, st[0].disk, Ops(st, run), k, q)
    ensures Lifts(w, st[k], run[k], q)
  {
    DiskFollowsOps(w, st, run, k);
  }

  // Why the guards of Promote cannot rely on the evaluation.

  /** An evaluation that read the revocation log before a revocation was recorded saves, after
      it, the decision it would have saved without it: an ALLOW exactly when every rule is met by
      what it had read. */
  lemma AllowCanBeSavedAfterRevocation(w: World, st: seq<Sys>, run: seq<Action>, a: Op)
    requires History(w, st, run) && |run| == 5 && run[0].Begin?
    requires a.Revoke? && a.revocation.digest != "" && a.fault == NoFault
    requires var t := run[0].task;
             run[1..] == [ReadRevocations(t), Admin(a), ReadQuarantines(t), SaveTask(t, NoFault)]
    ensures var d := DecidedBefore(w, st[0], run[0]);
            && st[3].disk == Disk.Revoke(st[0].disk, w.cs, StoredRevocation(a), NoFault).0
            && st[5].disk == SaveDecision(st[3].disk, w.cs, d, NoFault).0
            && (d.outcome == Allow
                <==> AdmissionRules.Admissible(w.evaluator, run[0].req, ContextBefore(w, st[0], run[0])))
  {
    AdmissionRules.OutcomeByRules(w.evaluator, run[0].req, ContextBefore(w, st[0], run[0]));
    assert run == [run[0]] + run[1..];
    ThreeSteps(w, st, run, a);
    LastTwoSteps(w, st, run);
  }

  lemma LastTwoSteps(w: World, st: seq<Sys>, run: seq<Action>)
    requires History(w, st, run) && |run| == 5 && run[0].Begin?
    requires run[3] == ReadQuarantines(run[0].task) && run[4] == SaveTask(run[0].task, NoFault)
    requires st[3].disk.quarantines == st[0].disk.quarantines
    requires var ctx := ContextBefore(w, st[0], run[0]).(quarantined := Admission.NotConfigured);
             run[0].task in st[3].tasks && st[3].tasks[run[0].task] == SawRevocations(run[0].req, ctx)
    ensures st[5].disk == SaveDecision(st[3].disk, w.cs, DecidedBefore(w, st[0], run[0]), NoFault).0
  {
    assert Happens(w, st, run, 3);
    assert st[4].disk == st[3].disk && st[4].tasks[run[0].task] == Decided(DecidedBefore(w, st[0], run[0]));
    assert Happens(w, st, run, 4);
  }

  /** What an evaluation would have read had all its steps been taken at once. */
  function ContextBefore(w: World, s: Sys, a: Action): Admission.Context
    requires a.Begin?
  {
    Admission.Context(s.clock, a.wall, a.id,
                      RevocationAnswer(s.disk, w.cs, a.req), QuarantineAnswer(s.disk, w.cs, a.req))
  }

  function DecidedBefore(w: World, s: Sys, a: Action): Decision
    requires a.Begin?
  {
    Admission.DecisionOf(w.evaluator, a.req, ContextBefore(w, s, a))
  }

  lemma ThreeSteps(w: World, st: seq<Sys>, run: seq<Action>, a: Op)
    requires History(w, st, run) && |run| == 5 && run[0].Begin?
    requires a.Revoke? && a.revocation.digest != "" && a.fault == NoFault
    requires run[1] == ReadRevocations(run[0].task) && run[2] == Admin(a)
    ensures st[3].disk == Disk.Revoke(st[0].disk, w.cs, StoredRevocation(a), NoFault).0
    ensures var ctx := ContextBefore(w, st[0], run[0]).(quarantined := Admission.NotConfigured);
            run[0].task in st[3].tasks && st[3].tasks[run[0].task] == SawRevocations(run[0].req, ctx)
  {
    assert Happens(w, st, run, 0) && Happens(w, st, run, 1) && Happens(w, st, run, 2);
  }

  /** A digest revoked everywhere, but not by name where the request asks, is reported to the
      evaluator as not revoked; every promotion of it is refused all the same. */
  lemma EvaluatorMissesGlobalRevocation(w: World, s: Sys, req: Admission.EvaluationRequest, p: Promotion, now: Time)
    requires var rs := ReadFile(s.disk.revocations, w.cs.revocation);
             && rs.Ok? && GloballyRevoked(rs.value, req.subject.digest)
             && !RevokedExactly(rs.value, req.subject.digest, req.environment)
    requires p.digest == req.subject.digest
    ensures RevocationAnswer(s.disk, w.cs, req) == Admission.Known(false)
    ensures PromoteVerdict(s.disk, w.cs, p, now).Some?
  {
    var rs := ReadFile(s.disk.revocations, w.cs.revocation).value;
    var r :| r in rs && r.digest == p.digest && r.environment == "";
    assert Covers(r.digest, r.environment, p.digest, p.environment);
  }
}
