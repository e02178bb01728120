/** The SQL-backed store. Methods run one or more statements; only Restore opens a
    transaction. */
module SqlStore {
  import opened Wrappers
  import opened Records
  import opened LineLog
  import opened Ledger
  import Disk
  import opened Tables

  class SQLStore {
    const cs: Disk.Codecs
    var tables: Tables

    constructor (cs: Disk.Codecs, tables: Tables)
      ensures this.cs == cs && this.tables == tables
    {
      this.cs, this.tables := cs, tables;
    }

    method SaveDecision(d: Decision, failed: bool) returns (err: Option<SqlError>)
      modifies this
      ensures (tables, err) == InsertDecision(old(tables), cs.decision, d, failed)
    {
      var data := cs.decision.enc(d);
      if data.None? {
        return Some(NotEncodable);
      }
      if failed {
        return Some(DatabaseFailed);
      }
      if d.decisionId !in tables.decisions {
        tables := tables.(decisions := tables.decisions[d.decisionId := data.value]);
      }
      return None;
    }

    /** The rows of the decision table, decoded; one bad row fails the whole listing. `failed`
        says that the query or the scan of its rows failed. */
    method GetDecisions(order: seq<string>, failed: bool) returns (r: Result<seq<Decision>, SqlError>)
      requires Listing(order, tables.decisions)
      ensures r.Ok? <==> !failed && AllDecode(tables.decisions, cs.decision)
      ensures r.Ok? ==> Decodes(Rows(tables.decisions, order), cs.decision, r.value)
      ensures r.Err? ==> r.error == if failed then DatabaseFailed else DataUnparsable
    {
      if failed {
        return Err(DatabaseFailed);
      }
      var list: seq<Decision> := [];
      for i := 0 to |order|
        invariant |list| == i
        invariant forall k | 0 <= k < i :: cs.decision.dec(tables.decisions[order[k]]) == Some(list[k])
      {
        assert order[i] in order;
        var d := cs.decision.dec(tables.decisions[order[i]]);
        if d.None? {
          return Err(DataUnparsable);
        }
        list := list + [d.value];
      }
      return Ok(list);
    }

    method ListRows<R>(m: map<string, R>, order: seq<string>, failed: bool) returns (r: Result<seq<R>, SqlError>)
      requires Listing(order, m)
      ensures r == if failed then Err(DatabaseFailed) else Ok(Rows(m, order))
    {
      if failed {
        return Err(DatabaseFailed);
      }
      var list: seq<R> := [];
      for i := 0 to |order|
        invariant |list| == i
        invariant forall k | 0 <= k < i :: list[k] == m[order[k]]
      {
        assert order[i] in order;
        list := list + [m[order[i]]];
      }
      assert list == Rows(m, order);
      return Ok(list);
    }

    method Promote(p: Promotion, id: string, checkedAt: Time, stampedAt: Time, fails: nat -> bool)
      returns (err: Option<SqlError>)
      modifies this
      ensures (tables, err) == PromoteRow(old(tables), cs.decision, p, id, checkedAt, stampedAt, fails)
    {
      err := CheckPromotion(p, checkedAt, fails);
      if err.Some? {
        return;
      }
      var row := p;
      if row.id == "" {
        row := row.(id := id);
      }
      if row.promotedAt == ZERO_TIME {
        row := row.(promotedAt := stampedAt);
      }
      if fails(3) {
        return Some(DatabaseFailed);
      }
      if row.id in tables.promotions {
        return Some(KeyTaken);
      }
      tables := tables.(promotions := tables.promotions[row.id := row]);
    }

    method CheckPromotion(p: Promotion, now: Time, fails: nat -> bool) returns (err: Option<SqlError>)
      ensures err == Verdict(tables, cs.decision, p, now, fails)
    {
      if p.decisionId == "" {
        return Some(Barred(MissingDecisionId));
      }
      if fails(0) {
        return Some(DatabaseFailed);
      }
      if p.decisionId !in tables.decisions {
        return Some(Barred(DecisionNotFound));
      }
      var found := cs.decision.dec(tables.decisions[p.decisionId]);
      if found.None? {
        return Some(DataUnparsable);
      }
      var d := found.value;
      if d.outcome != Allow {
        return Some(Barred(DecisionNotAllow));
      }
      if d.subject.digest != p.digest {
        return Some(Barred(DigestMismatch));
      }
      if d.environment != p.environment {
        return Some(Barred(EnvironmentMismatch));
      }
      if d.expiresAt != ZERO_TIME && now > d.expiresAt {
        return Some(Barred(DecisionExpired));
      }
      var revoked := IsRevoked(p.digest, p.environment, fails(1));
      if revoked.Err? {
        return Some(revoked.error);
      }
      if revoked.value {
        return Some(Barred(RevokedHere));
      }
      var quarantined := IsQuarantined(p.digest, p.environment, fails(2));
      if quarantined.Err? {
        return Some(quarantined.error);
      }
      if quarantined.value {
        return Some(Barred(QuarantinedHere));
      }
      return None;
    }

    method Revoke(r: Revocation, id: string, now: Time, failed: bool) returns (err: Option<SqlError>)
      modifies this
      ensures (tables, err) == InsertRevocation(old(tables), StampedRevocation(r, id, now), failed)
    {
      var row := r;
      if row.id == "" {
        row := row.(id := id);
      }
      if row.revokedAt == ZERO_TIME {
        row := row.(revokedAt := now);
      }
      if failed {
        return Some(DatabaseFailed);
      }
      if row.id in tables.revocations {
        return Some(KeyTaken);
      }
      tables := tables.(revocations := tables.revocations[row.id := Projected(row)]);
      return None;
    }

    /** The count is positive exactly when a row is global or for that environment. */
    method IsRevoked(digest: string, env: string, failed: bool) returns (r: Result<bool, SqlError>)
      ensures r == if failed then Err(DatabaseFailed) else Ok(RevokedRow(tables, digest, env))
    {
      if failed {
        return Err(DatabaseFailed);
      }
      var rows := tables.revocations;
      var hits := set k | k in rows && Covers(rows[k].digest, rows[k].environment, digest, env);
      forall k | k in rows && Covers(rows[k].digest, rows[k].environment, digest, env)
        ensures hits != {}
      {
        assert k in hits;
      }
      assert |hits| > 0 ==> exists k :: k in hits;
      return Ok(|hits| > 0);
    }

    method Quarantine(q: Quarantine, id: string, now: Time, failed: bool) returns (err: Option<SqlError>)
      modifies this
      ensures (tables, err) == InsertQuarantine(old(tables), StampedQuarantine(q, id, now), failed)
    {
      var row := q;
      if row.id == "" {
        row := row.(id := id);
      }
      if row.quarantinedAt == ZERO_TIME {
        row := row.(quarantinedAt := now);
      }
      if failed {
        return Some(DatabaseFailed);
      }
      if row.id in tables.quarantines {
        return Some(KeyTaken);
      }
      tables := tables.(quarantines := tables.quarantines[row.id := row]);
      return None;
    }

    method IsQuarantined(digest: string, env: string, failed: bool) returns (r: Result<bool, SqlError>)
      ensures r == if failed then Err(DatabaseFailed) else Ok(QuarantinedRow(tables, digest, env))
    {
      if failed {
        return Err(DatabaseFailed);
      }
      var rows := tables.quarantines;
      var hits := set k | k in rows && Covers(rows[k].digest, rows[k].environment, digest, env);
      forall k | k in rows && Covers(rows[k].digest, rows[k].environment, digest, env)
        ensures hits != {}
      {
        assert k in hits;
      }
      assert |hits| > 0 ==> exists k :: k in hits;
      return Ok(|hits| > 0);
    }

    method Unquarantine(id: string, failed: bool) returns (err: Option<SqlError>)
      modifies this
      ensures (tables, err) == DeleteQuarantines(old(tables), id, failed)
    {
      if failed {
        return Some(DatabaseFailed);
      }
      var rows := tables.quarantines;
      tables := tables.(quarantines := map k | k in rows && k != id && rows[k].digest != id :: rows[k]);
      return None;
    }

    /** The four tables, each listed in some order, as one document. `fails` says which of the
        four listings failed. */
    method Backup(now: Time, orders: Orders, fails: nat -> bool) returns (r: Result<string, SqlError>)
      requires Listings(orders, tables)
      ensures r.Ok? ==> exists ds :: BackupOf(tables, cs, now, ds, orders, r.value)
      ensures r.Ok? || r == Err(DocumentNotEncoded)
         <==> !fails(0) && !fails(1) && !fails(2) && !fails(3) && AllDecode(tables.decisions, cs.decision)
    {
      var ds := GetDecisions(orders.decisions, fails(0));
      if ds.Err? {
        return Err(ds.error);
      }
      var ps := ListRows(tables.promotions, orders.promotions, fails(1));
      if ps.Err? {
        return Err(ps.error);
      }
      var rs := ListRows(tables.revocations, orders.revocations, fails(2));
      if rs.Err? {
        return Err(rs.error);
      }
      var qs := ListRows(tables.quarantines, orders.quarantines, fails(3));
      if qs.Err? {
        return Err(qs.error);
      }
      var doc := cs.backup.enc(BackupData(now, ds.value, ps.value, rs.value, qs.value));
      if doc.None? {
        return Err(DocumentNotEncoded);
      }
      assert BackupOf(tables, cs, now, ds.value, orders, doc.value);
      return Ok(doc.value);
    }

    /** All or nothing: any error leaves the committed tables as they were, and a restore
        that commits leaves exactly the backup. */
    method Restore(data: string, faults: RestoreFaults) returns (err: Option<SqlError>)
      modifies this
      ensures tables == AfterRestore(old(tables), cs, data, faults)
      ensures err.None? <==> RestoreCommits(cs.backup, data, faults)
    {
      var decoded := cs.backup.dec(data);
      if decoded.None? {
        return Some(DocumentNotDecoded);
      }
      var b := decoded.value;
      if faults.begin || faults.clear {
        return Some(DatabaseFailed);
      }
      var ds := InsertRows(b.decisions, DecisionKey(), DataColumn(cs.decision), faults.row, 0);
      if ds.Err? {
        return Some(ds.error);
      }
      var ps := InsertRows(b.promotions, PromotionKey(), Whole(), faults.row, 1);
      if ps.Err? {
        return Some(ps.error);
      }
      var rs := InsertRows(b.revocations, RevocationKey(), ProjectedRow(), faults.row, 2);
      if rs.Err? {
        return Some(rs.error);
      }
      var qs := InsertRows(b.quarantines, QuarantineKey(), Whole(), faults.row, 3);
      if qs.Err? {
        return Some(qs.error);
      }
      var staged := Tables(ds.value, ps.value, rs.value, qs.value);
      if faults.commit {
        return Some(DatabaseFailed);
      }
      tables := staged;
      return None;
    }

    /** One insert loop over an emptied table, inside the transaction. */
    method InsertRows<T(!new), R>(vs: seq<T>, key: T -> string, row: T -> R, refused: (nat, nat) -> bool, table: nat)
      returns (r: Result<map<string, R>, SqlError>)
      ensures r.Ok? <==> Distinct(vs, key) && forall n | 0 <= n < |vs| :: !refused(table, n)
      ensures r.Ok? ==> r.value == ByKey(vs, key, row)
    {
      var staged: map<string, R> := map[];
      for i := 0 to |vs|
        invariant forall n | 0 <= n < i :: !refused(table, n)
        invariant Distinct(vs[..i], key)
        invariant staged == ByKey(vs[..i], key, row)
      {
        ByKeyKeys(vs[..i], key, row, key(vs[i]));
        assert vs[..i + 1] == vs[..i] + [vs[i]];
        if refused(table, i) {
          return Err(DatabaseFailed);
        }
        if key(vs[i]) in staged {
          ghost var v :| v in vs[..i] && key(v) == key(vs[i]);
          ghost var j :| 0 <= j < i && vs[j] == v;
          return Err(KeyTaken);
        }
        DistinctMore(vs[..i], vs[i], key);
        ByKeyMore(vs[..i], vs[i], key, row);
        staged := staged[key(vs[i]) := row(vs[i])];
      }
      assert vs[..|vs|] == vs;
      return Ok(staged);
    }
  }

  /** Every row of the decision table decodes. */
  ghost predicate AllDecode(m: map<string, string>, c: Codec<Decision>) {
    forall k | k in m :: c.dec(m[k]).Some?
  }

  /** The document a backup of these tables produces when its rows come in these orders. */
  ghost predicate BackupOf(t: Tables, cs: Disk.Codecs, now: Time, ds: seq<Decision>, orders: Orders, doc: string) {
    && Listings(orders, t)
    && Decodes(Rows(t.decisions, orders.decisions), cs.decision, ds)
    && cs.backup.enc(BackupData(now, ds, Rows(t.promotions, orders.promotions),
                                Rows(t.revocations, orders.revocations), Rows(t.quarantines, orders.quarantines)))
       == Some(doc)
  }
}
