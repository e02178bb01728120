/** Reassessment from the command line: every logged decision is evaluated again under a
    policy, and the new decisions are appended to the log they were read from. */
module Reassess {
  import opened Wrappers
  import opened Records
  import opened LineLog
  import opened Ledger
  import opened Disk
  import FileLaws
  import FileStore
  import Admission
  import AdmissionLaws
  import AdmissionRules
  import Digest
  import Policy
  import Protocol
  import SemVer

  /** What one evaluation reads besides the store: two clock readings taken in this order,
      the certificate check's own clock and the random identifier. */
  datatype Reading = Reading(completedAt: Time, now: Time, wall: Time, id: string)

  /** The request made for an old decision: evidence without any attestation, complete and
      passed, from the policy's provider at its minimum version. */
  function RequestFor(p: Policy.Policy, prior: Decision, completedAt: Time): Admission.EvaluationRequest {
    Admission.EvaluationRequest(
      prior.subject, prior.environment,
      Admission.Evidence(prior.subject.digest, p.provider, p.minimumVersion, completedAt, true, true, "low", [],
                         None, None, None),
      [], [])
  }

  function ContextFor(disk: Files, cs: Codecs, req: Admission.EvaluationRequest, r: Reading): Admission.Context {
    Admission.Context(r.now, r.wall, r.id,
                      Protocol.RevocationAnswer(disk, cs, req), Protocol.QuarantineAnswer(disk, cs, req))
  }

  function Again(e: Admission.Evaluator, disk: Files, cs: Codecs, d: Decision, r: Reading): Decision {
    var req := RequestFor(e.policy, d, r.completedAt);
    Admission.DecisionOf(e, req, ContextFor(disk, cs, req, r))
  }

  /** Save decisions one after another, whatever becomes of each append. */
  function SaveAll(disk: Files, cs: Codecs, ds: seq<Decision>, faults: nat -> WriteFault): Files {
    if ds == [] then disk
    else
      var n := |ds| - 1;
      SaveDecision(SaveAll(disk, cs, ds[..n], faults), cs, ds[n], faults(n)).0
  }

  /** Every element of a list, put through a function of its place and itself. */
  function Each<T, R>(xs: seq<T>, f: (nat, T) -> R): seq<R> {
    if xs == [] then []
    else
      var n := |xs| - 1;
      Each(xs[..n], f) + [f(n, xs[n])]
  }

  lemma {:induction false} EachCount<T, R>(xs: seq<T>, f: (nat, T) -> R)
    ensures |Each(xs, f)| == |xs|
  {
    if xs != [] {
      EachCount(xs[..|xs| - 1], f);
    }
  }

  lemma {:induction false} EachAt<T, R>(xs: seq<T>, f: (nat, T) -> R, i: nat)
    requires i < |xs|
    ensures |Each(xs, f)| == |xs| && Each(xs, f)[i] == f(i, xs[i])
  {
    var n := |xs| - 1;
    EachCount(xs[..n], f);
    if i < n {
      EachAt(xs[..n], f, i);
    }
  }

  lemma EachMore<T, R>(xs: seq<T>, f: (nat, T) -> R, n: nat)
    requires n < |xs|
    ensures Each(xs[..n + 1], f) == Each(xs[..n], f) + [f(n, xs[n])]
  {
    assert xs[..n + 1][..n] == xs[..n];
  }

  function Answerer(e: Admission.Evaluator, disk: Files, cs: Codecs, readings: nat -> Reading)
    : (nat, Decision) -> Decision
  {
    (i: nat, d: Decision) => Again(e, disk, cs, d, readings(i))
  }

  /** Each old decision answered in place, against the restrictions of one state. */
  function Answers(e: Admission.Evaluator, disk: Files, cs: Codecs, olds: seq<Decision>, readings: nat -> Reading)
    : seq<Decision>
  {
    Each(olds, Answerer(e, disk, cs, readings))
  }

  /** Each new decision answers the old one at its place and sees the restrictions as they
      stood: saving decisions does not change them. */
  method RunReassess(st: FileStore.FileStore, e: Admission.Evaluator, readings: nat -> Reading,
                     faults: nat -> WriteFault)
    returns (r: Result<seq<Decision>, ReadError>)
    modifies st
    ensures r.Err? <==> ReadFile(old(st.decisions), st.cs.decision).Err?
    ensures r.Err? ==> st.Disk() == old(st.Disk())
    ensures r.Ok? ==>
              var ds := ReadFile(old(st.decisions), st.cs.decision).value;
              && r.value == Answers(e, old(st.Disk()), st.cs, ds, readings)
              && st.Disk() == SaveAll(old(st.Disk()), st.cs, r.value, faults)
  {
    var decs := st.GetDecisions();
    if decs.Err? {
      return decs;
    }
    var news := AnswerAll(st, e, decs.value, readings, faults);
    return Ok(news);
  }

  method AnswerAll(st: FileStore.FileStore, e: Admission.Evaluator, ds: seq<Decision>, readings: nat -> Reading,
                   faults: nat -> WriteFault) returns (news: seq<Decision>)
    modifies st
    ensures news == Answers(e, old(st.Disk()), st.cs, ds, readings)
    ensures st.Disk() == SaveAll(old(st.Disk()), st.cs, news, faults)
  {
    ghost var disk := st.Disk();
    news := [];
    for i := 0 to |ds|
      invariant |news| == i && news == Answers(e, disk, st.cs, ds[..i], readings)
      invariant st.Disk() == SaveAll(disk, st.cs, news, faults)
      invariant SameRestrictions(st.Disk(), disk)
    {
      var d := ReassessOne(st, e, ds[i], readings(i));
      SameAnswer(e, st.Disk(), disk, st.cs, ds[i], readings(i));
      AnswersMore(e, disk, st.cs, ds, i, readings);
      SaveAllMore(disk, st.cs, news, d, faults);
      var ignored := st.SaveDecision(d, faults(i));
      news := news + [d];
    }
    assert ds[..|ds|] == ds;
  }

  lemma SameAnswer(e: Admission.Evaluator, a: Files, b: Files, cs: Codecs, d: Decision, r: Reading)
    requires SameRestrictions(a, b)
    ensures Again(e, a, cs, d, r) == Again(e, b, cs, d, r)
  {
  }

  lemma AnswersMore(e: Admission.Evaluator, disk: Files, cs: Codecs, olds: seq<Decision>, n: nat,
                    readings: nat -> Reading)
    requires n < |olds|
    ensures Answers(e, disk, cs, olds[..n + 1], readings)
         == Answers(e, disk, cs, olds[..n], readings) + [Again(e, disk, cs, olds[n], readings(n))]
  {
    EachMore(olds, Answerer(e, disk, cs, readings), n);
  }

  lemma SaveAllMore(disk: Files, cs: Codecs, ds: seq<Decision>, d: Decision, faults: nat -> WriteFault)
    ensures SaveAll(disk, cs, ds + [d], faults) == SaveDecision(SaveAll(disk, cs, ds, faults), cs, d, faults(|ds|)).0
  {
    assert (ds + [d])[..|ds|] == ds;
  }

  method ReassessOne(st: FileStore.FileStore, e: Admission.Evaluator, d: Decision, reading: Reading)
    returns (again: Decision)
    ensures again == Again(e, st.Disk(), st.cs, d, reading)
  {
    var req := RequestFor(e.policy, d, reading.completedAt);
    var revoked := st.IsRevoked(req.subject.digest, req.environment);
    var quarantined := st.IsQuarantined(req.subject.digest, req.environment);
    var ctx := Admission.Context(
      reading.now, reading.wall, reading.id,
      if revoked.Err? then Admission.Unavailable else Admission.Known(revoked.value),
      if quarantined.Err? then Admission.Unavailable else Admission.Known(quarantined.value));
    again := Admission.Evaluate(e, req, ctx);
  }

  ghost predicate SameRestrictions(a: Files, b: Files) {
    a.revocations == b.revocations && a.quarantines == b.quarantines && a.promotions == b.promotions
  }

  // What reassessment can and cannot do.

  /** Each answer is about its old decision's artifact and environment, and is a DENY wherever the
      store's logs, as they stand, bar that digest there. */
  lemma AnswerIsForItsDecision(e: Admission.Evaluator, disk: Files, cs: Codecs, d: Decision, r: Reading)
    ensures Again(e, disk, cs, d, r).subject == d.subject && Again(e, disk, cs, d, r).environment == d.environment
    ensures Again(e, disk, cs, d, r).decisionId == r.id && Again(e, disk, cs, d, r).evaluatedAt == r.now
    ensures || Protocol.RevocationBars(disk, cs, d.subject.digest, d.environment)
            || Protocol.QuarantineBars(disk, cs, d.subject.digest, d.environment)
            ==> Again(e, disk, cs, d, r).outcome == Deny
  {
    var req := RequestFor(e.policy, d, r.completedAt);
    var ctx := ContextFor(disk, cs, req, r);
    AdmissionRules.DecisionFields(e, req, ctx);
    if Protocol.RevocationBars(disk, cs, d.subject.digest, d.environment)
       || Protocol.QuarantineBars(disk, cs, d.subject.digest, d.environment) {
      Protocol.BarredIsDenied(e, disk, disk, cs, req, ctx);
    }
  }

  /** The answers come one for each old decision, each in its place. */
  lemma AnswersAt(e: Admission.Evaluator, disk: Files, cs: Codecs, olds: seq<Decision>, readings: nat -> Reading,
                  i: nat)
    requires i < |olds|
    ensures |Answers(e, disk, cs, olds, readings)| == |olds|
    ensures Answers(e, disk, cs, olds, readings)[i] == Again(e, disk, cs, olds[i], readings(i))
  {
    EachAt(olds, Answerer(e, disk, cs, readings), i);
  }

  /** Without faults the answers end up in the log, after the decisions it held, in order. */
  lemma SavesAppend(disk: Files, cs: Codecs, ds: seq<Decision>, news: seq<Decision>, faults: nat -> WriteFault)
    requires LineSafe(cs.decision) && AllShort(ds + news, cs.decision)
    requires Content(disk.decisions) == TextOf(ds, cs.decision) && forall n :: faults(n) == NoFault
    ensures ReadFile(SaveAll(disk, cs, news, faults).decisions, cs.decision) == Ok(ds + news)
  {
    SavesText(disk, cs, ds, news, faults);
    ReadBack(ds + news, cs.decision);
  }

  lemma {:induction false} SavesText(disk: Files, cs: Codecs, ds: seq<Decision>, news: seq<Decision>,
                                     faults: nat -> WriteFault)
    requires AllShort(ds + news, cs.decision) && forall n :: faults(n) == NoFault
    requires forall d | d in ds :: cs.decision.enc(d).Some?
    requires Content(disk.decisions) == TextOf(ds, cs.decision)
    ensures Content(SaveAll(disk, cs, news, faults).decisions) == TextOf(ds + news, cs.decision)
  {
    if news == [] {
      assert ds + news == ds;
    } else {
      var n := |news| - 1;
      var all := ds + news;
      assert all[..|all| - 1] == ds + news[..n] && all[|all| - 1] == news[n];
      assert forall d | d in ds + news[..n] :: d in all;
      assert news[n] in all;
      SavesText(disk, cs, ds, news[..n], faults);
    }
  }

  /** The store answered, and the answer was no. */
  predicate Clear(l: Admission.Lookup) {
    l.NotConfigured? || l == Admission.Known(false)
  }

  /** What a reassessment can still object to: the reassessed evidence is complete, passed
      and new enough, but it carries no attestation. */
  predicate Unobjectionable(e: Admission.Evaluator, req: Admission.EvaluationRequest, ctx: Admission.Context) {
    var p := e.policy;
    && Digest.ValidateSHA256(req.subject.digest).None?
    && Clear(ctx.revoked) && Clear(ctx.quarantined)
    && req.environment in p.environments
    && !p.signaturesRequired && !p.provenanceRequired
    && (p.maximumAge == ""
        || Admission.Sub(ctx.now, req.evidence.completedAt) <= e.parseDuration(p.maximumAge).GetOr(0))
  }

  /** Under a validated policy, reassessment allows exactly well-formed, unrestricted digests
      in a supported environment, and only if the policy wants neither signatures nor
      provenance. */
  lemma ReassessAllowsExactly(e: Admission.Evaluator, d: Decision, completedAt: Time, ctx: Admission.Context)
    requires Policy.Validate(e.policy, e.parseDuration).None? && completedAt != ZERO_TIME
    ensures var req := RequestFor(e.policy, d, completedAt);
            Admission.DecisionOf(e, req, ctx).outcome == Allow <==> Unobjectionable(e, req, ctx)
  {
    var req := RequestFor(e.policy, d, completedAt);
    AdmissionLaws.AllowExactly(e, req, ctx);
    if forall f :: !Admission.Fires(f, e, req, ctx) {
      ClearWhenNothingFires(e, req, ctx);
    }
    if Unobjectionable(e, req, ctx) {
      forall f
        ensures !Admission.Fires(f, e, req, ctx)
      {
        NothingFires(e, d, completedAt, ctx, f);
      }
    }
  }

  lemma NothingFires(e: Admission.Evaluator, d: Decision, completedAt: Time, ctx: Admission.Context, f: Finding)
    requires Policy.Validate(e.policy, e.parseDuration).None? && completedAt != ZERO_TIME
    requires Unobjectionable(e, RequestFor(e.policy, d, completedAt), ctx)
    ensures !Admission.Fires(f, e, RequestFor(e.policy, d, completedAt), ctx)
  {
    if f == RiskTooHigh {
      LowRisk();
    } else if f == AssuranceVersionTooOld {
      MeetsItself(e.policy);
    }
  }

  lemma MeetsItself(p: Policy.Policy)
    requires SemVer.Parsed(p.minimumVersion).Some?
    ensures Admission.VersionMet(p, p.minimumVersion)
  {
  }

  lemma LowRisk()
    ensures Policy.RiskRank("low") == 1
  {
    assert Policy.ToLower("") == "" && Policy.ToLower("w") == "w" && Policy.ToLower("ow") == "ow";
    assert Policy.ToLower("low") == "low";
    assert Policy.RISK_WORDS[0] == "low";
  }

  lemma ClearWhenNothingFires(e: Admission.Evaluator, req: Admission.EvaluationRequest, ctx: Admission.Context)
    requires forall f :: !Admission.Fires(f, e, req, ctx)
    ensures Digest.ValidateSHA256(req.subject.digest).None?
    ensures Clear(ctx.revoked) && Clear(ctx.quarantined)
    ensures req.environment in e.policy.environments
    ensures e.policy.signaturesRequired ==> req.evidence.sigstore.Some? || req.evidence.dsse.Some?
    ensures e.policy.provenanceRequired ==> req.evidence.github.Some? || req.evidence.dsse.Some?
    ensures e.policy.maximumAge == ""
         || Admission.Sub(ctx.now, req.evidence.completedAt) <= e.parseDuration(e.policy.maximumAge).GetOr(0)
  {
    assert !Admission.Fires(SubjectDigestInvalid, e, req, ctx);
    assert !Admission.Fires(RevocationStateUnavailable, e, req, ctx) && !Admission.Fires(DigestRevoked, e, req, ctx);
    assert !Admission.Fires(QuarantineStateUnavailable, e, req, ctx);
    assert !Admission.Fires(DigestQuarantined, e, req, ctx);
    assert !Admission.Fires(EnvironmentDenied, e, req, ctx);
    assert !Admission.Fires(SignatureUnverified, e, req, ctx) && !Admission.Fires(ProvenanceUnverified, e, req, ctx);
    assert !Admission.Fires(AssuranceStale, e, req, ctx);
  }

  lemma {:induction false} SavesOnlyAdd(disk: Files, cs: Codecs, ds: seq<Decision>, faults: nat -> WriteFault)
    requires Safe(cs) && FileLaws.Sound(disk, cs)
    ensures var after := SaveAll(disk, cs, ds, faults);
            && FileLaws.Sound(after, cs) && SameRestrictions(after, disk)
            && Extends(disk.decisions, after.decisions, cs.decision)
  {
    if ds != [] {
      var n := |ds| - 1;
      SavesOnlyAdd(disk, cs, ds[..n], faults);
      var before := SaveAll(disk, cs, ds[..n], faults);
      FileLaws.SaveSound(before, cs, ds[n], faults(n));
      AppendOutcome(before.decisions, ds[n], cs.decision, faults(n));
    }
  }

  /** Whenever the later log can be read, the earlier one could, and it is a prefix. */
  ghost predicate Extends(f: File, g: File, c: Codec<Decision>) {
    var before, after := ReadFile(f, c), ReadFile(g, c);
    after.Ok? ==> before.Ok? && before.value <= after.value
  }

  /** Reassessment revises nothing: a promotion under an old decision gets the verdict it got
      before, whatever the decision was reassessed to, unless the log became unreadable. */
  lemma OldDecisionsStillPromote(disk: Files, cs: Codecs, ds: seq<Decision>, faults: nat -> WriteFault,
                                 p: Promotion, now: Time)
    requires Safe(cs) && FileLaws.Sound(disk, cs)
    requires ReadFile(disk.decisions, cs.decision).Ok?
    requires FirstMatch(ReadFile(disk.decisions, cs.decision).value, p.decisionId).Some?
    ensures var after := SaveAll(disk, cs, ds, faults);
            ReadFile(after.decisions, cs.decision).Ok? ==>
              PromoteVerdict(after, cs, p, now) == PromoteVerdict(disk, cs, p, now)
  {
    SavesOnlyAdd(disk, cs, ds, faults);
    var after := SaveAll(disk, cs, ds, faults);
    var a, b := ReadFile(disk.decisions, cs.decision), ReadFile(after.decisions, cs.decision);
    if b.Ok? {
      FirstMatchStays(a.value, b.value, p.decisionId);
      SameFirstMatch(disk, after, cs, p, now);
    }
  }

  lemma SameFirstMatch(a: Files, b: Files, cs: Codecs, p: Promotion, now: Time)
    requires SameRestrictions(a, b)
    requires ReadFile(a.decisions, cs.decision).Ok? && ReadFile(b.decisions, cs.decision).Ok?
    requires FirstMatch(ReadFile(a.decisions, cs.decision).value, p.decisionId)
          == FirstMatch(ReadFile(b.decisions, cs.decision).value, p.decisionId)
    ensures PromoteVerdict(a, cs, p, now) == PromoteVerdict(b, cs, p, now)
  {
  }
}
