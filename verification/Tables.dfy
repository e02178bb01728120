/** The SQL store's four keyed tables and what its statements do to them. */
module Tables {
  import opened Wrappers
  import opened Records
  import opened LineLog
  import opened Ledger
  import opened Disk

  /** Rows by primary key. A decision row is read through its JSON column only. */
  datatype Tables = Tables(
    decisions: map<string, string>, promotions: map<string, Promotion>,
    revocations: map<string, Revocation>, quarantines: map<string, Quarantine>)

  const NO_ROWS: Tables := Tables(map[], map[], map[], map[])

  datatype SqlError =
    | DatabaseFailed
    | NotEncodable
    | DataUnparsable
    | Barred(refusal: Refusal)
    | KeyTaken
    | DocumentNotDecoded
    | DocumentNotEncoded

  /** Two fields of a revocation have no column. */
  function Projected(r: Revocation): Revocation {
    r.(expiresAt := None, incidentId := "")
  }

  // One statement each. `failed` says that the database refused the statement.

  /** INSERT ... ON CONFLICT (decision_id) DO NOTHING. */
  function InsertDecision(t: Tables, c: Codec<Decision>, d: Decision, failed: bool): (Tables, Option<SqlError>) {
    if c.enc(d).None? then (t, Some(NotEncodable))
    else if failed then (t, Some(DatabaseFailed))
    else if d.decisionId in t.decisions then (t, None)
    else (t.(decisions := t.decisions[d.decisionId := c.enc(d).value]), None)
  }

  function InsertPromotion(t: Tables, p: Promotion, failed: bool): (Tables, Option<SqlError>) {
    if failed then (t, Some(DatabaseFailed))
    else if p.id in t.promotions then (t, Some(KeyTaken))
    else (t.(promotions := t.promotions[p.id := p]), None)
  }

  function InsertRevocation(t: Tables, r: Revocation, failed: bool): (Tables, Option<SqlError>) {
    if failed then (t, Some(DatabaseFailed))
    else if r.id in t.revocations then (t, Some(KeyTaken))
    else (t.(revocations := t.revocations[r.id := Projected(r)]), None)
  }

  function InsertQuarantine(t: Tables, q: Quarantine, failed: bool): (Tables, Option<SqlError>) {
    if failed then (t, Some(DatabaseFailed))
    else if q.id in t.quarantines then (t, Some(KeyTaken))
    else (t.(quarantines := t.quarantines[q.id := q]), None)
  }

  /** DELETE ... WHERE id = x OR digest = x. */
  function DeleteQuarantines(t: Tables, x: string, failed: bool): (Tables, Option<SqlError>) {
    if failed then (t, Some(DatabaseFailed))
    else
      var qs := t.quarantines;
      (t.(quarantines := map k | k in qs && k != x && qs[k].digest != x :: qs[k]), None)
  }

  /** A statement that the database refuses changes nothing and is reported. */
  lemma FailedStatementsChangeNothing(t: Tables, c: Codec<Decision>, d: Decision, p: Promotion, r: Revocation,
                                      q: Quarantine, x: string)
    ensures InsertDecision(t, c, d, true).0 == t && InsertDecision(t, c, d, true).1.Some?
    ensures InsertPromotion(t, p, true) == (t, Some(DatabaseFailed))
    ensures InsertRevocation(t, r, true) == (t, Some(DatabaseFailed))
    ensures InsertQuarantine(t, q, true) == (t, Some(DatabaseFailed))
    ensures DeleteQuarantines(t, x, true) == (t, Some(DatabaseFailed))
  {
  }

  /** A revocation that is inserted can be read back under its key with every field that has a
      column. */
  lemma RevocationReadsBack(t: Tables, r: Revocation)
    requires r.id !in t.revocations
    ensures var m := InsertRevocation(t, r, false).0.revocations;
            && r.id in m && m.Keys == t.revocations.Keys + {r.id}
            && (forall k | k in t.revocations :: m[k] == t.revocations[k])
            && m[r.id].id == r.id && m[r.id].digest == r.digest && m[r.id].environment == r.environment
            && m[r.id].revokedBy == r.revokedBy && m[r.id].revokedAt == r.revokedAt && m[r.id].reason == r.reason
            && m[r.id].expiresAt == None && m[r.id].incidentId == ""
  {
  }

  predicate RevokedRow(t: Tables, digest: string, env: string) {
    exists k | k in t.revocations :: Covers(t.revocations[k].digest, t.revocations[k].environment, digest, env)
  }

  predicate QuarantinedRow(t: Tables, digest: string, env: string) {
    exists k | k in t.quarantines :: Covers(t.quarantines[k].digest, t.quarantines[k].environment, digest, env)
  }

  // Promotion: three queries, then an insert. `fails(n)` says that the n-th statement failed.

  function Verdict(t: Tables, c: Codec<Decision>, p: Promotion, now: Time, fails: nat -> bool): Option<SqlError> {
    if p.decisionId == "" then Some(Barred(MissingDecisionId))
    else if fails(0) then Some(DatabaseFailed)
    else if p.decisionId !in t.decisions then Some(Barred(DecisionNotFound))
    else
      var d := c.dec(t.decisions[p.decisionId]);
      if d.None? then Some(DataUnparsable)
      else
        var refusal := DecisionRefusal(d.value, p, now);
        if refusal.Some? then Some(Barred(refusal.value))
        else if fails(1) then Some(DatabaseFailed)
        else if RevokedRow(t, p.digest, p.environment) then Some(Barred(RevokedHere))
        else if fails(2) then Some(DatabaseFailed)
        else if QuarantinedRow(t, p.digest, p.environment) then Some(Barred(QuarantinedHere))
        else None
  }

  function PromoteRow(t: Tables, c: Codec<Decision>, p: Promotion, id: string, checkedAt: Time, stampedAt: Time,
                      fails: nat -> bool): (Tables, Option<SqlError>)
  {
    var v := Verdict(t, c, p, checkedAt, fails);
    if v.Some? then (t, v) else InsertPromotion(t, Stamped(p, id, stampedAt), fails(3))
  }

  /** The checks and the insert are separate statements: a revocation may commit between
      them, and the promotion is then stored under a revocation that refuses it. */
  lemma PromoteIsNotAtomic(t: Tables, c: Codec<Decision>, p: Promotion, r: Revocation, now: Time)
    requires Verdict(t, c, p, now, (n: nat) => false).None?
    requires r.id !in t.revocations && p.id !in t.promotions
    requires Covers(r.digest, r.environment, p.digest, p.environment)
    ensures var revoked := InsertRevocation(t, r, false).0;
            var (after, err) := InsertPromotion(revoked, p, false);
            && err.None? && after.promotions[p.id] == p
            && Verdict(revoked, c, p, now, (n: nat) => false) == Some(Barred(RevokedHere))
  {
    var revoked := InsertRevocation(t, r, false).0;
    assert r.id in revoked.revocations && revoked.revocations[r.id] == Projected(r);
  }

  // Loading rows.

  /** The table that inserting records one after another builds. */
  function ByKey<T(!new), R>(vs: seq<T>, key: T -> string, row: T -> R): map<string, R> {
    if vs == [] then map[]
    else
      var n := |vs| - 1;
      ByKey(vs[..n], key, row)[key(vs[n]) := row(vs[n])]
  }

  ghost predicate Distinct<T>(vs: seq<T>, key: T -> string) {
    forall i, j | 0 <= i < j < |vs| :: key(vs[i]) != key(vs[j])
  }

  lemma {:induction false} ByKeyKeys<T(!new), R>(vs: seq<T>, key: T -> string, row: T -> R, k: string)
    ensures k in ByKey(vs, key, row) <==> exists v | v in vs :: key(v) == k
  {
    if vs != [] {
      var n := |vs| - 1;
      assert vs == vs[..n] + [vs[n]];
      ByKeyKeys(vs[..n], key, row, k);
      assert vs[n] in vs;
    }
  }

  /** With distinct keys, the table holds the row of each record and nothing else. */
  lemma {:induction false} ByKeyHolds<T(!new), R>(vs: seq<T>, key: T -> string, row: T -> R, v: T)
    requires Distinct(vs, key) && v in vs
    ensures key(v) in ByKey(vs, key, row) && ByKey(vs, key, row)[key(v)] == row(v)
  {
    var n := |vs| - 1;
    assert vs == vs[..n] + [vs[n]];
    if v != vs[n] {
      ByKeyHolds(vs[..n], key, row, v);
      var i :| 0 <= i < n && vs[i] == v;
      assert key(vs[i]) != key(vs[n]);
    }
  }

  lemma DistinctMore<T(!new)>(vs: seq<T>, v: T, key: T -> string)
    requires Distinct(vs, key) && forall u | u in vs :: key(u) != key(v)
    ensures Distinct(vs + [v], key)
  {
  }

  lemma ByKeyMore<T(!new), R>(vs: seq<T>, v: T, key: T -> string, row: T -> R)
    ensures ByKey(vs + [v], key, row) == ByKey(vs, key, row)[key(v) := row(v)]
  {
    assert (vs + [v])[..|vs|] == vs;
  }

  function DecisionKey(): Decision -> string { (d: Decision) => d.decisionId }
  function PromotionKey(): Promotion -> string { (p: Promotion) => p.id }
  function RevocationKey(): Revocation -> string { (r: Revocation) => r.id }
  function QuarantineKey(): Quarantine -> string { (q: Quarantine) => q.id }
  function Whole<R>(): R -> R { r => r }
  function ProjectedRow(): Revocation -> Revocation { (r: Revocation) => Projected(r) }

  /** The JSON column; Restore ignores an encoding error and stores an empty text. */
  function DataColumn(c: Codec<Decision>): Decision -> string {
    (d: Decision) => c.enc(d).GetOr("")
  }

  /** No two records of a backup's lists share a key. */
  ghost predicate DistinctIds(b: BackupData) {
    && Distinct(b.decisions, DecisionKey()) && Distinct(b.promotions, PromotionKey())
    && Distinct(b.revocations, RevocationKey()) && Distinct(b.quarantines, QuarantineKey())
  }

  /** The tables a backup fills. */
  function Loaded(b: BackupData, c: Codec<Decision>): Tables {
    Tables(ByKey(b.decisions, DecisionKey(), DataColumn(c)),
           ByKey(b.promotions, PromotionKey(), Whole()),
           ByKey(b.revocations, RevocationKey(), ProjectedRow()),
           ByKey(b.quarantines, QuarantineKey(), Whole()))
  }

  /** The statements of a restore that the database refuses. */
  datatype RestoreFaults = RestoreFaults(begin: bool, clear: bool, row: (nat, nat) -> bool, commit: bool)

  ghost predicate RowsAccepted(b: BackupData, row: (nat, nat) -> bool) {
    && (forall n | 0 <= n < |b.decisions| :: !row(0, n))
    && (forall n | 0 <= n < |b.promotions| :: !row(1, n))
    && (forall n | 0 <= n < |b.revocations| :: !row(2, n))
    && (forall n | 0 <= n < |b.quarantines| :: !row(3, n))
  }

  ghost predicate RestoreCommits(c: Codec<BackupData>, data: string, faults: RestoreFaults) {
    && c.dec(data).Some?
    && !faults.begin && !faults.clear && !faults.commit
    && RowsAccepted(c.dec(data).value, faults.row)
    && DistinctIds(c.dec(data).value)
  }

  /** What a restore leaves in the committed tables. */
  ghost function AfterRestore(t: Tables, cs: Codecs, data: string, faults: RestoreFaults): Tables {
    if RestoreCommits(cs.backup, data, faults) then Loaded(cs.backup.dec(data).value, cs.decision) else t
  }

  // Listing rows.

  /** Some order of the table's keys: the order of rows with equal sort columns is the
      database's choice. */
  ghost predicate Listing<R>(order: seq<string>, m: map<string, R>) {
    && (forall k :: k in order <==> k in m)
    && forall i, j | 0 <= i < j < |order| :: order[i] != order[j]
  }

  /** One order for each table. */
  datatype Orders = Orders(
    decisions: seq<string>, promotions: seq<string>, revocations: seq<string>, quarantines: seq<string>)

  ghost predicate Listings(orders: Orders, t: Tables) {
    && Listing(orders.decisions, t.decisions) && Listing(orders.promotions, t.promotions)
    && Listing(orders.revocations, t.revocations) && Listing(orders.quarantines, t.quarantines)
  }

  function Rows<R>(m: map<string, R>, order: seq<string>): (rows: seq<R>)
    requires forall k | k in order :: k in m
    ensures |rows| == |order|
  {
    seq(|order|, i requires 0 <= i < |order| => m[order[i]])
  }

  ghost predicate Decodes(rows: seq<string>, c: Codec<Decision>, ds: seq<Decision>) {
    |ds| == |rows| && forall i | 0 <= i < |rows| :: c.dec(rows[i]) == Some(ds[i])
  }

  /** Every row is what the statements above store. */
  ghost predicate Canonical(t: Tables, c: Codec<Decision>) {
    && DecisionsCanonical(t.decisions, c)
    && (forall k | k in t.promotions :: t.promotions[k].id == k)
    && (forall k | k in t.revocations :: t.revocations[k].id == k && t.revocations[k] == Projected(t.revocations[k]))
    && (forall k | k in t.quarantines :: t.quarantines[k].id == k)
  }

  ghost predicate DecisionsCanonical(m: map<string, string>, c: Codec<Decision>) {
    forall k | k in m :: exists d :: DecisionRow(c, k, m[k], d)
  }

  ghost predicate DecisionRow(c: Codec<Decision>, key: string, data: string, d: Decision) {
    d.decisionId == key && c.enc(d) == Some(data)
  }
}
