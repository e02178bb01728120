/** The governance rules over lists of records, whichever engine keeps them. */
module Ledger {
  import opened Wrappers
  import opened Records

  datatype Refusal =
    | MissingDecisionId | DecisionNotFound | DecisionNotAllow | DigestMismatch | EnvironmentMismatch
    | DecisionExpired | RevokedHere | QuarantinedHere

  // Lists.

  function Filter<T>(xs: seq<T>, keep: T -> bool): seq<T> {
    if xs == [] then []
    else Filter(xs[..|xs| - 1], keep) + if keep(xs[|xs| - 1]) then [xs[|xs| - 1]] else []
  }

  lemma FilterNext<T>(xs: seq<T>, i: nat, keep: T -> bool)
    requires i < |xs|
    ensures Filter(xs[..i + 1], keep) == Filter(xs[..i], keep) + if keep(xs[i]) then [xs[i]] else []
  {
    assert xs[..i + 1][..i] == xs[..i];
  }

  lemma {:induction false} FilterMember<T>(xs: seq<T>, keep: T -> bool, x: T)
    ensures x in Filter(xs, keep) <==> x in xs && keep(x)
  {
    if xs != [] {
      var n := |xs| - 1;
      assert xs == xs[..n] + [xs[n]];
      FilterMember(xs[..n], keep, x);
    }
  }

  lemma FilterOneMore<T>(xs: seq<T>, x: T, keep: T -> bool)
    ensures Filter(xs + [x], keep) == Filter(xs, keep) + if keep(x) then [x] else []
  {
    assert (xs + [x])[..|xs|] == xs;
  }

  /** Filtering what was already filtered changes nothing. */
  lemma {:induction false} FilterIdempotent<T>(xs: seq<T>, keep: T -> bool)
    ensures Filter(Filter(xs, keep), keep) == Filter(xs, keep)
  {
    if xs != [] {
      var n := |xs| - 1;
      FilterIdempotent(xs[..n], keep);
      var kept := Filter(xs[..n], keep);
      if keep(xs[n]) {
        FilterOneMore(kept, xs[n], keep);
      } else {
        assert Filter(xs, keep) == kept + [] == kept;
      }
    }
  }

  /** The filtered list is the chosen positions, all of them, in their order. */
  ghost predicate Picks<T>(xs: seq<T>, kept: seq<T>, keep: T -> bool, at: seq<nat>) {
    && |at| == |kept|
    && (forall i | 0 <= i < |at| :: at[i] < |xs| && kept[i] == xs[at[i]])
    && (forall i, j | 0 <= i < j < |at| :: at[i] < at[j])
    && (forall k: nat | k < |xs| :: k in at <==> keep(xs[k]))
  }

  lemma {:induction false} FilterPicks<T>(xs: seq<T>, keep: T -> bool) returns (at: seq<nat>)
    ensures Picks(xs, Filter(xs, keep), keep, at)
  {
    at := [];
    if xs != [] {
      var n := |xs| - 1;
      at := FilterPicks(xs[..n], keep);
      if keep(xs[n]) {
        PicksTake(xs[..n], xs[n], Filter(xs[..n], keep), keep, at);
        at := at + [n];
      } else {
        PicksSkip(xs[..n], xs[n], Filter(xs[..n], keep), keep, at);
      }
      assert xs == xs[..n] + [xs[n]];
    }
  }

  lemma PicksTake<T>(xs: seq<T>, x: T, kept: seq<T>, keep: T -> bool, at: seq<nat>)
    requires Picks(xs, kept, keep, at) && keep(x)
    ensures Picks(xs + [x], kept + [x], keep, at + [|xs|])
  {
    var more, all := at + [|xs|], xs + [x];
    forall k: nat | k < |all|
      ensures k in more <==> keep(all[k])
    {
      assert k in more <==> k in at || k == |xs|;
    }
  }

  lemma PicksSkip<T>(xs: seq<T>, x: T, kept: seq<T>, keep: T -> bool, at: seq<nat>)
    requires Picks(xs, kept, keep, at) && !keep(x)
    ensures Picks(xs + [x], kept + [], keep, at)
  {
    var all := xs + [x];
    forall k: nat | k < |all|
      ensures k in at <==> keep(all[k])
    {
    }
    assert kept + [] == kept;
  }

  // Decisions by identifier.

  /** The first decision in log order with the identifier. */
  function FirstMatch(ds: seq<Decision>, id: string): Option<Decision> {
    if ds == [] then None
    else
      var earlier := FirstMatch(ds[..|ds| - 1], id);
      var last := ds[|ds| - 1];
      if earlier.Some? then earlier else if last.decisionId == id then Some(last) else None
  }

  /** FirstMatch is the element at the least index that carries the identifier. */
  lemma {:induction false} FirstMatchAt(ds: seq<Decision>, id: string, k: nat)
    requires k < |ds| && ds[k].decisionId == id
    requires forall j | 0 <= j < k :: ds[j].decisionId != id
    ensures FirstMatch(ds, id) == Some(ds[k])
  {
    var n := |ds| - 1;
    if k < n {
      FirstMatchAt(ds[..n], id, k);
    } else {
      NoMatch(ds[..n], id);
    }
  }

  lemma {:induction false} NoMatch(ds: seq<Decision>, id: string)
    requires forall j | 0 <= j < |ds| :: ds[j].decisionId != id
    ensures FirstMatch(ds, id).None?
  {
    if ds != [] {
      NoMatch(ds[..|ds| - 1], id);
    }
  }

  lemma {:induction false} FirstMatchFound(ds: seq<Decision>, id: string)
    ensures FirstMatch(ds, id).Some? ==> FirstMatch(ds, id).value in ds && FirstMatch(ds, id).value.decisionId == id
  {
    if ds != [] {
      var n := |ds| - 1;
      FirstMatchFound(ds[..n], id);
      assert ds == ds[..n] + [ds[n]];
    }
  }

  /** A first match stays the first match as the log grows. */
  lemma {:induction false} FirstMatchStays(a: seq<Decision>, b: seq<Decision>, id: string)
    requires a <= b && FirstMatch(a, id).Some?
    ensures FirstMatch(b, id) == FirstMatch(a, id)
    decreases |b|
  {
    if |a| < |b| {
      FirstMatchStays(a, b[..|b| - 1], id);
    } else {
      assert a == b;
    }
  }

  // Restrictions.

  predicate Revoked(rs: seq<Revocation>, digest: string, env: string) {
    exists r | r in rs :: Covers(r.digest, r.environment, digest, env)
  }

  predicate Quarantined(qs: seq<Quarantine>, digest: string, env: string) {
    exists q | q in qs :: Covers(q.digest, q.environment, digest, env)
  }

  /** What FileStore.IsRevoked answers: its environment filter drops global records first. */
  predicate RevokedExactly(rs: seq<Revocation>, digest: string, env: string) {
    exists r | r in rs :: r.digest == digest && r.environment == env
  }

  predicate GloballyRevoked(rs: seq<Revocation>, digest: string) {
    exists r | r in rs :: r.digest == digest && r.environment == ""
  }

  /** The filtered lookup implies the intended one, and the two disagree exactly when an
      environment is named, the digest is revoked globally, and not in that environment. */
  lemma RevocationLookup(rs: seq<Revocation>, digest: string, env: string)
    ensures RevokedExactly(rs, digest, env) ==> Revoked(rs, digest, env)
    ensures RevokedExactly(rs, digest, env) == Revoked(rs, digest, env)
       <==> env == "" || !GloballyRevoked(rs, digest) || RevokedExactly(rs, digest, env)
  {
    if RevokedExactly(rs, digest, env) {
      var r :| r in rs && r.digest == digest && r.environment == env;
      assert Covers(r.digest, r.environment, digest, env);
    }
    if GloballyRevoked(rs, digest) {
      var r :| r in rs && r.digest == digest && r.environment == "";
      assert Covers(r.digest, r.environment, digest, env);
    }
  }

  /** A state in which the two lookups disagree. */
  lemma GlobalRevocationWitness()
    ensures var r := Revocation("rev-1", "d", "", "admin", 1, None, "", "");
            Revoked([r], "d", "production") && !RevokedExactly([r], "d", "production")
  {
    var r := Revocation("rev-1", "d", "", "admin", 1, None, "", "");
    assert r in [r] && Covers(r.digest, r.environment, "d", "production");
    assert r.environment != "production";
  }

  // Promotion.

  /** Does a decision, by itself, support the promotion at this time? */
  function DecisionRefusal(d: Decision, p: Promotion, now: Time): Option<Refusal> {
    if d.outcome != Allow then Some(DecisionNotAllow)
    else if d.subject.digest != p.digest then Some(DigestMismatch)
    else if d.environment != p.environment then Some(EnvironmentMismatch)
    else if d.expiresAt != ZERO_TIME && now > d.expiresAt then Some(DecisionExpired)
    else None
  }

  /** The first reason to refuse, in the order the guards are tried. */
  function PromotionRefusal(found: Option<Decision>, revoked: bool, quarantined: bool, p: Promotion, now: Time)
    : Option<Refusal>
  {
    if p.decisionId == "" then Some(MissingDecisionId)
    else if found.None? then Some(DecisionNotFound)
    else if DecisionRefusal(found.value, p, now).Some? then DecisionRefusal(found.value, p, now)
    else if revoked then Some(RevokedHere)
    else if quarantined then Some(QuarantinedHere)
    else None
  }

  /** The promotion rule as the design states it: an unexpired ALLOW for this digest and
      environment is the first with its identifier, and nothing restricts the digest. */
  ghost predicate Promotable(ds: seq<Decision>, rs: seq<Revocation>, qs: seq<Quarantine>, p: Promotion, now: Time) {
    && p.decisionId != ""
    && (exists k | 0 <= k < |ds| ::
          && ds[k].decisionId == p.decisionId
          && (forall j | 0 <= j < k :: ds[j].decisionId != p.decisionId)
          && ds[k].outcome == Allow
          && ds[k].subject.digest == p.digest && ds[k].environment == p.environment
          && (ds[k].expiresAt == ZERO_TIME || now <= ds[k].expiresAt))
    && (forall r | r in rs && r.digest == p.digest :: r.environment != "" && r.environment != p.environment)
    && (forall q | q in qs && q.digest == p.digest :: q.environment != "" && q.environment != p.environment)
  }

  /** Index of the first decision with the identifier. */
  lemma {:induction false} FirstIndex(ds: seq<Decision>, id: string) returns (k: nat)
    requires FirstMatch(ds, id).Some?
    ensures k < |ds| && ds[k].decisionId == id && FirstMatch(ds, id) == Some(ds[k])
    ensures forall j | 0 <= j < k :: ds[j].decisionId != id
  {
    var n := |ds| - 1;
    if FirstMatch(ds[..n], id).Some? {
      k := FirstIndex(ds[..n], id);
    } else {
      k := n;
      forall j | 0 <= j < n
        ensures ds[j].decisionId != id
      {
        if ds[j].decisionId == id {
          MatchExists(ds[..n], id, j);
        }
      }
    }
  }

  lemma {:induction false} MatchExists(ds: seq<Decision>, id: string, j: nat)
    requires j < |ds| && ds[j].decisionId == id
    ensures FirstMatch(ds, id).Some?
  {
    if j < |ds| - 1 {
      MatchExists(ds[..|ds| - 1], id, j);
    }
  }

  /** The guards refuse exactly the promotions the rule forbids. */
  lemma RefusalExactly(ds: seq<Decision>, rs: seq<Revocation>, qs: seq<Quarantine>, p: Promotion, now: Time)
    ensures PromotionRefusal(FirstMatch(ds, p.decisionId), Revoked(rs, p.digest, p.environment),
                             Quarantined(qs, p.digest, p.environment), p, now).None?
       <==> Promotable(ds, rs, qs, p, now)
  {
    if FirstMatch(ds, p.decisionId).Some? {
      var k := FirstIndex(ds, p.decisionId);
      forall i | 0 <= i < |ds| && ds[i].decisionId == p.decisionId
                 && (forall j | 0 <= j < i :: ds[j].decisionId != p.decisionId)
        ensures i == k
      {
        FirstMatchAt(ds, p.decisionId, i);
      }
    } else {
      forall i | 0 <= i < |ds|
        ensures ds[i].decisionId != p.decisionId
      {
        if ds[i].decisionId == p.decisionId {
          MatchExists(ds, p.decisionId, i);
        }
      }
    }
  }

  /** The decision, by itself, supports the promotion at this time. */
  ghost predicate Upholds(found: Option<Decision>, p: Promotion, now: Time) {
    && found.Some? && found.value.outcome == Allow
    && found.value.subject.digest == p.digest && found.value.environment == p.environment
    && (found.value.expiresAt == 0 || now <= found.value.expiresAt)
  }

  /** Each refusal names the first guard that fails. */
  lemma WhyRefused(found: Option<Decision>, revoked: bool, quarantined: bool, p: Promotion, now: Time)
    ensures var why := PromotionRefusal(found, revoked, quarantined, p, now);
            && (why == Some(MissingDecisionId) <==> p.decisionId == "")
            && (why == Some(DecisionNotFound) <==> p.decisionId != "" && found.None?)
            && (why == Some(DecisionNotAllow) <==> p.decisionId != "" && found.Some? && found.value.outcome != Allow)
            && (why == Some(RevokedHere) <==> p.decisionId != "" && Upholds(found, p, now) && revoked)
            && (why == Some(QuarantinedHere) <==>
                  p.decisionId != "" && Upholds(found, p, now) && !revoked && quarantined)
    ensures p.decisionId != "" && found.Some? && found.value.outcome == Allow ==>
            var why, d := PromotionRefusal(found, revoked, quarantined, p, now), found.value;
            && (why == Some(DigestMismatch) <==> d.subject.digest != p.digest)
            && (why == Some(EnvironmentMismatch) <==> d.subject.digest == p.digest && d.environment != p.environment)
            && (why == Some(DecisionExpired) <==>
                  && d.subject.digest == p.digest && d.environment == p.environment
                  && d.expiresAt != 0 && now > d.expiresAt)
  {
  }

  /** The promotion with its identifier and time filled in. */
  function Stamped(p: Promotion, id: string, at: Time): Promotion {
    p.(id := if p.id == "" then id else p.id, promotedAt := if p.promotedAt == ZERO_TIME then at else p.promotedAt)
  }

  function StampedRevocation(r: Revocation, id: string, at: Time): Revocation {
    r.(id := if r.id == "" then id else r.id, revokedAt := if r.revokedAt == ZERO_TIME then at else r.revokedAt)
  }

  function StampedQuarantine(q: Quarantine, id: string, at: Time): Quarantine {
    q.(id := if q.id == "" then id else q.id,
       quarantinedAt := if q.quarantinedAt == ZERO_TIME then at else q.quarantinedAt)
  }

  /** Stamping gives a record without an identifier the fresh one, and a record without a time
      the current one; every other field stays the caller's. */
  lemma StampingFillsOnlyBlanks(p: Promotion, r: Revocation, q: Quarantine, id: string, at: Time)
    ensures var s := Stamped(p, id, at);
            && (if p.id == "" then s.id == id else s.id == p.id)
            && (if p.promotedAt == 0 then s.promotedAt == at else s.promotedAt == p.promotedAt)
            && s.decisionId == p.decisionId && s.digest == p.digest && s.environment == p.environment
            && s.promotedBy == p.promotedBy && s.reason == p.reason
    ensures var s := StampedRevocation(r, id, at);
            && (if r.id == "" then s.id == id else s.id == r.id)
            && (if r.revokedAt == 0 then s.revokedAt == at else s.revokedAt == r.revokedAt)
            && s.digest == r.digest && s.environment == r.environment && s.revokedBy == r.revokedBy
            && s.expiresAt == r.expiresAt && s.reason == r.reason && s.incidentId == r.incidentId
    ensures var s := StampedQuarantine(q, id, at);
            && (if q.id == "" then s.id == id else s.id == q.id)
            && (if q.quarantinedAt == 0 then s.quarantinedAt == at else s.quarantinedAt == q.quarantinedAt)
            && s.digest == q.digest && s.environment == q.environment && s.quarantinedBy == q.quarantinedBy
            && s.reason == q.reason && s.incidentId == q.incidentId
  {
  }

  /** The first decision with the promotion's identifier is an ALLOW for what it promotes. */
  ghost predicate Justified(ds: seq<Decision>, p: Promotion) {
    var d := FirstMatch(ds, p.decisionId);
    && d.Some? && d.value.outcome == Allow
    && d.value.subject.digest == p.digest && d.value.environment == p.environment
  }

  /** What Unquarantine keeps. */
  function Spared(id: string): Quarantine -> bool {
    (q: Quarantine) => q.id != id && q.digest != id
  }

  /** Unquarantine keeps exactly the records whose identifier and digest both differ, each at
      its turn, so it clears a digest in every environment, and doing it twice changes
      nothing. */
  lemma UnquarantineExactly(qs: seq<Quarantine>, id: string, env: string)
    ensures var kept := Filter(qs, Spared(id));
            && (forall q :: q in kept <==> q in qs && q.id != id && q.digest != id)
            && (exists at :: Picks(qs, kept, Spared(id), at))
            && !Quarantined(kept, id, env)
            && Filter(kept, Spared(id)) == kept
  {
    forall q
      ensures q in Filter(qs, Spared(id)) <==> q in qs && q.id != id && q.digest != id
    {
      FilterMember(qs, Spared(id), q);
    }
    FilterIdempotent(qs, Spared(id));
    var at := FilterPicks(qs, Spared(id));
  }
}
