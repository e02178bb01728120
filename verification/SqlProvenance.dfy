/** What stands behind the promotions of the SQL store: their decisions, through interleaved
    statements, restores and backups that are listed table by table. */
module SqlProvenance {
  import opened Wrappers
  import opened Records
  import opened LineLog
  import opened Ledger
  import opened Disk
  import opened Tables
  import opened SqlRuns

  /** The decision the promotion names is an ALLOW for its digest and environment. */
  ghost predicate Backs(t: Tables, c: Codec<Decision>, p: Promotion) {
    && p.decisionId in t.decisions && c.dec(t.decisions[p.decisionId]).Some?
    && Fits(c.dec(t.decisions[p.decisionId]).value, p)
  }

  predicate Fits(d: Decision, p: Promotion) {
    d.outcome == Allow && d.subject.digest == p.digest && d.environment == p.environment
  }

  /** The statement commits the decision the promotion names, and it fits. */
  ghost predicate CommitsBacking(cs: Codecs, s: Sys, a: Step, p: Promotion) {
    && a.Save? && !a.failed && cs.decision.enc(a.decision).Some?
    && a.decision.decisionId == p.decisionId && p.decisionId !in s.tables.decisions && Fits(a.decision, p)
  }

  /** Committed restores aside, a fitting decision is there after a step exactly when it was
      there before or the step committed it, and never both. */
  lemma StepBacks(cs: Codecs, s: Sys, a: Step, p: Promotion)
    requires AllFaithful(cs.decision) && !CommitsRestore(cs, a)
    ensures Backs(TablesAfter(cs, s, a), cs.decision, p)
       <==> Backs(s.tables, cs.decision, p) || CommitsBacking(cs, s, a, p)
    ensures !(Backs(s.tables, cs.decision, p) && CommitsBacking(cs, s, a, p))
  {
    if a.Save? && cs.decision.enc(a.decision).Some? {
      assert Faithful(cs.decision, a.decision);
    }
  }

  lemma {:induction false} BackedExactlyByCommit(cs: Codecs, st: seq<Sys>, run: seq<Step>, j: nat, i: nat, p: Promotion)
    requires AllFaithful(cs.decision) && History(cs, st, run)
    requires j <= i <= |run| && forall k | j <= k < i :: !CommitsRestore(cs, run[k])
    ensures Backs(st[i].tables, cs.decision, p)
       <==> Backs(st[j].tables, cs.decision, p) || exists k | j <= k < i :: CommitsBacking(cs, st[k], run[k], p)
    ensures Backs(st[j].tables, cs.decision, p) ==> forall k | j <= k < i :: !CommitsBacking(cs, st[k], run[k], p)
    decreases i
  {
    if j < i {
      BackedExactlyByCommit(cs, st, run, j, i - 1, p);
      assert Happens(cs, st, run, i - 1);
      StepBacks(cs, st[i - 1], run[i - 1], p);
    }
  }

  // Promotions as they are stored.

  /** Step k is the last restore that commits before step i. */
  ghost predicate LastRestore(cs: Codecs, run: seq<Step>, k: nat, i: nat)
    requires k < i <= |run|
  {
    CommitsRestore(cs, run[k]) && forall m | k < m < i :: !CommitsRestore(cs, run[m])
  }

  /** A promotion is stored over its decision unless a restore commits between its first query
      and its insert; then exactly when the restored tables hold a fitting decision or one is
      committed after the last restore. */
  lemma StoredIsBackedExactly(cs: Codecs, st: seq<Sys>, run: seq<Step>, i: nat, p: Promotion)
    returns (l: nat, c: nat, q: nat)
    requires AllFaithful(cs.decision) && History(cs, st, run) && st[0].tasks == map[]
    requires i < |run| && Stores(st[i], run[i], p)
    ensures ClearedAt(cs, st, run, run[i].task, p, l, c, q, i)
    ensures (forall k | l < k < i :: !CommitsRestore(cs, run[k])) ==> Backs(st[i].tables, cs.decision, p)
    ensures forall k | l < k < i && LastRestore(cs, run, k, i) ::
              Backs(st[i].tables, cs.decision, p)
              <==> || Backs(st[k + 1].tables, cs.decision, p)
                   || exists m | k < m < i :: CommitsBacking(cs, st[m], run[m], p)
  {
    l, c, q := StoredUnderRevocationExactly(cs, st, run, i, p);
    if forall k | l < k < i :: !CommitsRestore(cs, run[k]) {
      BackedExactlyByCommit(cs, st, run, l, i, p);
    }
    forall k | l < k < i && LastRestore(cs, run, k, i)
      ensures Backs(st[i].tables, cs.decision, p)
              <==> || Backs(st[k + 1].tables, cs.decision, p)
                   || exists m | k < m < i :: CommitsBacking(cs, st[m], run[m], p)
    {
      BackedAfterRestore(cs, st, run, k, i, p);
    }
  }

  lemma BackedAfterRestore(cs: Codecs, st: seq<Sys>, run: seq<Step>, k: nat, i: nat, p: Promotion)
    requires AllFaithful(cs.decision) && History(cs, st, run) && k < i <= |run| && LastRestore(cs, run, k, i)
    ensures Backs(st[i].tables, cs.decision, p)
       <==> || Backs(st[k + 1].tables, cs.decision, p)
            || exists m | k < m < i :: CommitsBacking(cs, st[m], run[m], p)
  {
    BackedExactlyByCommit(cs, st, run, k + 1, i, p);
  }

  /** A run in which a restore of an empty backup leaves a promotion without its decision. */
  lemma RestoreCanOrphan(cs: Codecs, st: seq<Sys>, run: seq<Step>, p: Promotion, at: Time)
    requires History(cs, st, run) && |run| == 5
    requires run[0].Look? && run[0].promotion == p && !run[0].failed && run[1] == CountRevocations(run[0].task, false)
    requires run[2] == CountQuarantines(run[0].task, false)
    requires CommitsRestore(cs, run[3]) && cs.backup.dec(run[3].data) == Some(BackupData(at, [], [], [], []))
    requires run[4].Insert? && run[4].task == run[0].task && !run[4].failed
    requires Verdict(st[0].tables, cs.decision, p, st[0].clock, (n: nat) => false).None?
    ensures var stored := Stamped(p, run[4].id, run[4].stampedAt);
            && stored.id in st[5].tables.promotions && st[5].tables.promotions[stored.id] == stored
            && !Backs(st[5].tables, cs.decision, stored)
  {
    VerdictIsThreeQueries(st[0].tables, cs.decision, p, st[0].clock, (n: nat) => false);
    assert Happens(cs, st, run, 0) && Happens(cs, st, run, 1) && Happens(cs, st, run, 2);
    assert st[3].tasks[run[0].task] == Cleared(p);
    assert Happens(cs, st, run, 3);
    assert st[4].tables == NO_ROWS;
    assert Happens(cs, st, run, 4);
  }

  // Whole runs.

  /** Every stored promotion has its decision behind it. */
  ghost predicate Provenance(t: Tables, c: Codec<Decision>) {
    forall k | k in t.promotions :: Backs(t, c, t.promotions[k])
  }

  lemma StepKeepsProvenance(cs: Codecs, s: Sys, a: Step)
    requires AllFaithful(cs.decision) && Provenance(s.tables, cs.decision)
    requires CommitsRestore(cs, a) ==> Provenance(TablesAfter(cs, s, a), cs.decision)
    requires forall p | Stores(s, a, p) :: Backs(s.tables, cs.decision, p)
    ensures Provenance(TablesAfter(cs, s, a), cs.decision)
  {
    var t := TablesAfter(cs, s, a);
    if !CommitsRestore(cs, a) {
      forall k | k in t.promotions
        ensures Backs(t, cs.decision, t.promotions[k])
      {
        StepBacks(cs, s, a, t.promotions[k]);
        if k !in s.tables.promotions {
          NewPromotion(cs, s, a, k);
        }
      }
    }
  }

  /** A row that was not there before is the promotion the step stores. */
  lemma NewPromotion(cs: Codecs, s: Sys, a: Step, k: string)
    requires !CommitsRestore(cs, a) && k in TablesAfter(cs, s, a).promotions && k !in s.tables.promotions
    requires forall p | Stores(s, a, p) :: Backs(s.tables, cs.decision, p)
    ensures Backs(s.tables, cs.decision, TablesAfter(cs, s, a).promotions[k])
  {
    assert Stores(s, a, s.tasks[a.task].promotion);
  }

  /** No restore commits between the first query and the insert of the promotion stored at i. */
  ghost predicate RestoresApart(cs: Codecs, st: seq<Sys>, run: seq<Step>, i: nat)
    requires i < |run| < |st|
  {
    forall p, l: nat, k | Stores(st[i], run[i], p) && FoundAt(cs, st, run, run[i].task, p, l, i) && l < k < i ::
      !CommitsRestore(cs, run[k])
  }

  /** A restore that commits at i loads a backup with provenance. */
  ghost predicate RestoresJustified(cs: Codecs, st: seq<Sys>, run: seq<Step>, i: nat)
    requires i < |run| < |st|
  {
    CommitsRestore(cs, run[i]) ==> Provenance(TablesAfter(cs, st[i], run[i]), cs.decision)
  }

  /** In every reachable state every stored promotion has its decision behind it, as long as
      restores bring back such states and keep apart from promotions in flight. */
  lemma {:induction false} RunKeepsProvenance(cs: Codecs, st: seq<Sys>, run: seq<Step>, n: nat)
    requires AllFaithful(cs.decision) && History(cs, st, run) && st[0].tasks == map[] && n <= |run|
    requires Provenance(st[0].tables, cs.decision)
    requires forall i | 0 <= i < n :: RestoresApart(cs, st, run, i) && RestoresJustified(cs, st, run, i)
    ensures Provenance(st[n].tables, cs.decision)
  {
    if n > 0 {
      RunKeepsProvenance(cs, st, run, n - 1);
      StoredApartAreBacked(cs, st, run, n - 1);
      assert RestoresJustified(cs, st, run, n - 1);
      assert Happens(cs, st, run, n - 1);
      StepKeepsProvenance(cs, st[n - 1], run[n - 1]);
    }
  }

  lemma StoredApartAreBacked(cs: Codecs, st: seq<Sys>, run: seq<Step>, i: nat)
    requires AllFaithful(cs.decision) && History(cs, st, run) && st[0].tasks == map[]
    requires i < |run| && RestoresApart(cs, st, run, i)
    ensures forall p | Stores(st[i], run[i], p) :: Backs(st[i].tables, cs.decision, p)
  {
    forall p | Stores(st[i], run[i], p)
      ensures Backs(st[i].tables, cs.decision, p)
    {
      var l, c, q := StoredIsBackedExactly(cs, st, run, i, p);
      assert FoundAt(cs, st, run, run[i].task, p, l, i);
    }
  }

  // Backups that are listed table by table.

  /** In a listing of the decision table, the first match with an identifier is its row. */
  lemma ListedBacking(t: Tables, c: Codec<Decision>, order: seq<string>, ds: seq<Decision>, p: Promotion)
    requires AllFaithful(c) && DecisionsCanonical(t.decisions, c)
    requires Listing(order, t.decisions) && Decodes(Rows(t.decisions, order), c, ds)
    ensures Justified(ds, p) <==> Backs(t, c, p)
  {
    forall i | 0 <= i < |ds|
      ensures order[i] in t.decisions && ds[i].decisionId == order[i]
    {
      ListedKey(t, c, order, ds, i);
    }
    if p.decisionId in t.decisions {
      var i :| 0 <= i < |order| && order[i] == p.decisionId;
      FirstMatchAt(ds, p.decisionId, i);
      assert Rows(t.decisions, order)[i] == t.decisions[p.decisionId];
    } else {
      NoMatch(ds, p.decisionId);
    }
  }

  lemma ListedKey(t: Tables, c: Codec<Decision>, order: seq<string>, ds: seq<Decision>, i: nat)
    requires AllFaithful(c) && DecisionsCanonical(t.decisions, c)
    requires Listing(order, t.decisions) && Decodes(Rows(t.decisions, order), c, ds) && i < |ds|
    ensures order[i] in t.decisions && ds[i].decisionId == order[i]
  {
    assert order[i] in order;
    var data := Rows(t.decisions, order)[i];
    var d :| DecisionRow(c, order[i], data, d);
    assert Faithful(c, d);
  }

  /** A backup lists decisions in one state and promotions in a later one. It carries every
      promotion's decision exactly when none of them was committed in between. */
  lemma TornBackupJustifiedExactly(cs: Codecs, st: seq<Sys>, run: seq<Step>, m: nat, n: nat,
                                   orders: Orders, ds: seq<Decision>)
    requires AllFaithful(cs.decision) && History(cs, st, run) && m <= n <= |run|
    requires DecisionsCanonical(st[m].tables.decisions, cs.decision) && Provenance(st[n].tables, cs.decision)
    requires forall k | m <= k < n :: !CommitsRestore(cs, run[k])
    requires Listing(orders.decisions, st[m].tables.decisions) && Listing(orders.promotions, st[n].tables.promotions)
    requires Decodes(Rows(st[m].tables.decisions, orders.decisions), cs.decision, ds)
    ensures (forall p | p in Rows(st[n].tables.promotions, orders.promotions) :: Justified(ds, p))
       <==> forall p | p in Rows(st[n].tables.promotions, orders.promotions) :: NotCommitted(cs, st, run, m, n, p)
  {
    var ps := Rows(st[n].tables.promotions, orders.promotions);
    forall p | p in ps
      ensures Justified(ds, p) <==> NotCommitted(cs, st, run, m, n, p)
    {
      var i :| 0 <= i < |ps| && ps[i] == p;
      assert orders.promotions[i] in orders.promotions;
      ListedBacking(st[m].tables, cs.decision, orders.decisions, ds, p);
      BackedExactlyByCommit(cs, st, run, m, n, p);
    }
  }

  ghost predicate NotCommitted(cs: Codecs, st: seq<Sys>, run: seq<Step>, m: nat, n: nat, p: Promotion)
    requires n <= |run| < |st|
  {
    forall k | m <= k < n :: !CommitsBacking(cs, st[k], run[k], p)
  }
}
