/** What the SQL tables keep, and the round trip of their backups. */
module SqlLaws {
  import opened Wrappers
  import opened Records
  import opened LineLog
  import opened Ledger
  import opened Disk
  import opened Tables
  import opened SqlStore

  // Every statement keeps the rows canonical.

  lemma SaveKeepsCanonical(t: Tables, c: Codec<Decision>, d: Decision, failed: bool)
    requires Canonical(t, c)
    ensures Canonical(InsertDecision(t, c, d, failed).0, c)
  {
    var m := InsertDecision(t, c, d, failed).0.decisions;
    forall k | k in m
      ensures exists e :: DecisionRow(c, k, m[k], e)
    {
      if k in t.decisions {
        assert m[k] == t.decisions[k];
      } else {
        assert DecisionRow(c, k, m[k], d);
      }
    }
  }

  lemma PromotionKeepsCanonical(t: Tables, c: Codec<Decision>, p: Promotion, failed: bool)
    requires Canonical(t, c)
    ensures Canonical(InsertPromotion(t, p, failed).0, c)
  {
  }

  lemma RevocationKeepsCanonical(t: Tables, c: Codec<Decision>, r: Revocation, failed: bool)
    requires Canonical(t, c)
    ensures Canonical(InsertRevocation(t, r, failed).0, c)
  {
  }

  lemma QuarantineKeepsCanonical(t: Tables, c: Codec<Decision>, q: Quarantine, failed: bool)
    requires Canonical(t, c)
    ensures Canonical(InsertQuarantine(t, q, failed).0, c)
  {
  }

  lemma DeleteKeepsCanonical(t: Tables, c: Codec<Decision>, x: string, failed: bool)
    requires Canonical(t, c)
    ensures Canonical(DeleteQuarantines(t, x, failed).0, c)
  {
  }

  /** A loaded backup is canonical when its decisions can be encoded: Restore ignores the
      encoding error, and an unencodable decision would leave a row that no longer decodes. */
  lemma LoadedIsCanonical(b: BackupData, c: Codec<Decision>)
    requires DistinctIds(b) && forall d | d in b.decisions :: c.enc(d).Some?
    ensures Canonical(Loaded(b, c), c)
  {
    var t := Loaded(b, c);
    forall k | k in t.decisions
      ensures exists e :: DecisionRow(c, k, t.decisions[k], e)
    {
      var d := LoadedRow(b.decisions, DecisionKey(), DataColumn(c), k);
      assert DecisionRow(c, k, t.decisions[k], d);
    }
    forall k | k in t.promotions
      ensures t.promotions[k].id == k
    {
      var p := LoadedRow(b.promotions, PromotionKey(), Whole(), k);
    }
    forall k | k in t.revocations
      ensures t.revocations[k].id == k && t.revocations[k] == Projected(t.revocations[k])
    {
      var r := LoadedRow(b.revocations, RevocationKey(), ProjectedRow(), k);
    }
    forall k | k in t.quarantines
      ensures t.quarantines[k].id == k
    {
      var q := LoadedRow(b.quarantines, QuarantineKey(), Whole(), k);
    }
  }

  lemma LoadedRow<T(!new), R>(vs: seq<T>, key: T -> string, row: T -> R, k: string) returns (v: T)
    requires Distinct(vs, key) && k in ByKey(vs, key, row)
    ensures v in vs && key(v) == k && ByKey(vs, key, row)[k] == row(v)
  {
    ByKeyKeys(vs, key, row, k);
    v :| v in vs && key(v) == k;
    ByKeyHolds(vs, key, row, v);
  }

  // Round trip.

  /** Records listed from a table in any order fill the same table again. */
  lemma ListedRowsReload<T(!new), R>(m: map<string, R>, order: seq<string>, vs: seq<T>, key: T -> string, row: T -> R)
    requires Listing(order, m) && |vs| == |order|
    requires forall i | 0 <= i < |vs| :: key(vs[i]) == order[i] && order[i] in m && row(vs[i]) == m[order[i]]
    ensures Distinct(vs, key) && ByKey(vs, key, row) == m
  {
    var loaded := ByKey(vs, key, row);
    forall k
      ensures k in loaded <==> k in m
      ensures k in m ==> loaded[k] == m[k]
    {
      ByKeyKeys(vs, key, row, k);
      if k in m {
        var i :| 0 <= i < |order| && order[i] == k;
        assert vs[i] in vs && key(vs[i]) == k;
        ByKeyHolds(vs, key, row, vs[i]);
      }
      if k in loaded {
        var v :| v in vs && key(v) == k;
        var i :| 0 <= i < |vs| && vs[i] == v;
        assert order[i] in order;
      }
    }
    assert loaded == m;
  }

  lemma DecisionsReload(t: Tables, c: Codec<Decision>, order: seq<string>, ds: seq<Decision>)
    requires LineSafe(c) && Canonical(t, c)
    requires Listing(order, t.decisions) && Decodes(Rows(t.decisions, order), c, ds)
    ensures Distinct(ds, DecisionKey()) && ByKey(ds, DecisionKey(), DataColumn(c)) == t.decisions
  {
    forall i | 0 <= i < |ds|
      ensures order[i] in t.decisions
      ensures DecisionKey()(ds[i]) == order[i] && DataColumn(c)(ds[i]) == t.decisions[order[i]]
    {
      assert order[i] in order;
      var data := Rows(t.decisions, order)[i];
      var d :| DecisionRow(c, order[i], data, d);
      assert Faithful(c, d);
    }
    ListedRowsReload(t.decisions, order, ds, DecisionKey(), DataColumn(c));
  }

  /** A SQL backup, its rows listed in any order, restores to exactly the same tables over
      any others: nothing is lost that the tables held. */
  lemma BackupThenRestoreSql(t: Tables, other: Tables, cs: Codecs, now: Time, ds: seq<Decision>, orders: Orders,
                             doc: string, faults: RestoreFaults)
    requires LineSafe(cs.decision) && Invertible(cs.backup) && Canonical(t, cs.decision)
    requires BackupOf(t, cs, now, ds, orders, doc) && NothingRefused(faults)
    ensures RestoreCommits(cs.backup, doc, faults) && AfterRestore(other, cs, doc, faults) == t
  {
    var ps, rs := Rows(t.promotions, orders.promotions), Rows(t.revocations, orders.revocations);
    var qs := Rows(t.quarantines, orders.quarantines);
    var b := BackupData(now, ds, ps, rs, qs);
    assert cs.backup.dec(doc) == Some(b);
    DecisionsReload(t, cs.decision, orders.decisions, ds);
    RowsReload(t.promotions, orders.promotions, PromotionKey(), Whole());
    RowsReload(t.revocations, orders.revocations, RevocationKey(), ProjectedRow());
    RowsReload(t.quarantines, orders.quarantines, QuarantineKey(), Whole());
  }

  ghost predicate NothingRefused(faults: RestoreFaults) {
    !faults.begin && !faults.clear && !faults.commit && forall i, n :: !faults.row(i, n)
  }

  lemma RowsReload<R(!new)>(m: map<string, R>, order: seq<string>, key: R -> string, row: R -> R)
    requires Listing(order, m) && forall k | k in m :: key(m[k]) == k && row(m[k]) == m[k]
    ensures Distinct(Rows(m, order), key) && ByKey(Rows(m, order), key, row) == m
  {
    forall i | 0 <= i < |order|
      ensures order[i] in m
    {
      assert order[i] in order;
    }
    ListedRowsReload(m, order, Rows(m, order), key, row);
  }
}
