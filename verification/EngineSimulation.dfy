/** The two engines side by side. In sequential runs with fresh record identifiers the SQL
    tables hold what the file logs hold: the first decision of each identifier, and every
    other record under its key. */
module EngineSimulation {
  import opened Wrappers
  import opened Records
  import opened LineLog
  import opened Ledger
  import opened Disk
  import opened FileLaws
  import opened StoreRuns
  import opened Tables
  import Text

  /** The records of the four logs. */
  datatype Logs = Logs(ds: seq<Decision>, ps: seq<Promotion>, rs: seq<Revocation>, qs: seq<Quarantine>)

  /** The files hold exactly these records, one complete short line each. */
  ghost predicate Clean(fs: Files, cs: Codecs, l: Logs) {
    && Holds(fs.decisions, cs.decision, l.ds) && Holds(fs.promotions, cs.promotion, l.ps)
    && Holds(fs.revocations, cs.revocation, l.rs) && Holds(fs.quarantines, cs.quarantine, l.qs)
  }

  ghost predicate Holds<T(!new)>(f: File, c: Codec<T>, vs: seq<T>) {
    AllShort(vs, c) && Content(f) == TextOf(vs, c)
  }

  lemma CleanReads(fs: Files, cs: Codecs, l: Logs)
    requires Safe(cs) && Clean(fs, cs, l)
    ensures Reads(fs, cs, l.ds, l.ps, l.rs, l.qs)
  {
    ReadBack(l.ds, cs.decision);
    ReadBack(l.ps, cs.promotion);
    ReadBack(l.rs, cs.revocation);
    ReadBack(l.qs, cs.quarantine);
  }

  /** The keyed decision table is the first-occurrence map of the log. */
  ghost predicate FirstOccurrences(ds: seq<Decision>, m: map<string, string>, c: Codec<Decision>) {
    forall id :: (id in m <==> FirstMatch(ds, id).Some?)
              && (id in m ==> c.enc(FirstMatch(ds, id).value) == Some(m[id]))
  }

  ghost predicate Keyed<T(!new), R>(vs: seq<T>, m: map<string, R>, key: T -> string, row: T -> R) {
    Distinct(vs, key) && m == ByKey(vs, key, row)
  }

  ghost predicate Simulates(t: Tables, l: Logs, c: Codec<Decision>) {
    && FirstOccurrences(l.ds, t.decisions, c)
    && Keyed(l.ps, t.promotions, PromotionKey(), Whole())
    && Keyed(l.rs, t.revocations, RevocationKey(), ProjectedRow())
    && Keyed(l.qs, t.quarantines, QuarantineKey(), Whole())
  }

  // Lookups.

  lemma KeyedHolds<T(!new), R>(vs: seq<T>, m: map<string, R>, key: T -> string, row: T -> R)
    requires Keyed(vs, m, key, row)
    ensures forall v | v in vs :: key(v) in m && m[key(v)] == row(v)
    ensures forall k | k in m :: exists v :: v in vs && key(v) == k && m[k] == row(v)
  {
    forall v | v in vs
      ensures key(v) in m && m[key(v)] == row(v)
    {
      ByKeyHolds(vs, key, row, v);
    }
    forall k | k in m
      ensures exists v :: v in vs && key(v) == k && m[k] == row(v)
    {
      ByKeyKeys(vs, key, row, k);
    }
  }

  lemma SameRevocations(t: Tables, l: Logs, c: Codec<Decision>, digest: string, env: string)
    requires Simulates(t, l, c)
    ensures RevokedRow(t, digest, env) == Revoked(l.rs, digest, env)
  {
    KeyedHolds(l.rs, t.revocations, RevocationKey(), ProjectedRow());
    if r :| r in l.rs && Covers(r.digest, r.environment, digest, env) {
      assert RevocationKey()(r) in t.revocations && t.revocations[r.id] == Projected(r);
    }
    if RevokedRow(t, digest, env) {
      var k :| k in t.revocations && Covers(t.revocations[k].digest, t.revocations[k].environment, digest, env);
      var r :| r in l.rs && RevocationKey()(r) == k && t.revocations[k] == ProjectedRow()(r);
    }
  }

  lemma SameQuarantines(t: Tables, l: Logs, c: Codec<Decision>, digest: string, env: string)
    requires Simulates(t, l, c)
    ensures QuarantinedRow(t, digest, env) == Quarantined(l.qs, digest, env)
  {
    KeyedHolds(l.qs, t.quarantines, QuarantineKey(), Whole());
    if q :| q in l.qs && Covers(q.digest, q.environment, digest, env) {
      assert QuarantineKey()(q) in t.quarantines && t.quarantines[q.id] == q;
    }
    if QuarantinedRow(t, digest, env) {
      var k :| k in t.quarantines && Covers(t.quarantines[k].digest, t.quarantines[k].environment, digest, env);
      var q :| q in l.qs && QuarantineKey()(q) == k && t.quarantines[k] == Whole()(q);
    }
  }

  /** No statement fails. */
  function Never(): nat -> bool { (n: nat) => false }

  /** Both engines accept the same promotions at the same clock reading, and refuse the
      others for the same reason. */
  lemma SameVerdict(fs: Files, t: Tables, cs: Codecs, l: Logs, p: Promotion, now: Time)
    requires LineSafe(cs.decision) && Reads(fs, cs, l.ds, l.ps, l.rs, l.qs)
    requires Simulates(t, l, cs.decision)
    ensures var f, s := PromoteVerdict(fs, cs, p, now), Verdict(t, cs.decision, p, now, Never());
            || (f.None? && s.None?)
            || (f.Some? && s.Some? && f.value.Refused? && s.value.Barred? && f.value.refusal == s.value.refusal)
  {
    SameRevocations(t, l, cs.decision, p.digest, p.environment);
    SameQuarantines(t, l, cs.decision, p.digest, p.environment);
    if p.decisionId in t.decisions {
      assert Faithful(cs.decision, FirstMatch(l.ds, p.decisionId).value);
    }
  }

  /** Where the two engines' lookups agree: always for quarantines; for revocations exactly
      unless an environment is named and the digest is revoked globally but not there. */
  lemma LookupsCompared(t: Tables, l: Logs, c: Codec<Decision>, digest: string, env: string)
    requires Simulates(t, l, c)
    ensures QuarantinedRow(t, digest, env) == Quarantined(l.qs, digest, env)
    ensures RevokedRow(t, digest, env) == RevokedExactly(l.rs, digest, env)
       <==> env == "" || !GloballyRevoked(l.rs, digest) || RevokedExactly(l.rs, digest, env)
  {
    SameRevocations(t, l, c, digest, env);
    SameQuarantines(t, l, c, digest, env);
    RevocationLookup(l.rs, digest, env);
  }

  // One operation at a time.

  ghost predicate Short<T>(v: T, c: Codec<T>) {
    c.enc(v).Some? && |c.enc(v).value| < MAX_TOKEN
  }

  lemma HoldsOneMore<T(!new)>(f: File, c: Codec<T>, vs: seq<T>, v: T)
    requires Holds(f, c, vs) && Short(v, c)
    ensures AppendNDJSON(f, v, c, NoFault).1.None?
    ensures Holds(AppendNDJSON(f, v, c, NoFault).0, c, vs + [v])
  {
    assert (vs + [v])[..|vs|] == vs;
  }

  lemma FirstOccurrencesMore(ds: seq<Decision>, m: map<string, string>, c: Codec<Decision>, d: Decision)
    requires FirstOccurrences(ds, m, c) && c.enc(d).Some?
    ensures FirstOccurrences(ds + [d], if d.decisionId in m then m else m[d.decisionId := c.enc(d).value], c)
  {
    assert (ds + [d])[..|ds|] == ds;
  }

  lemma KeyedMore<T(!new), R>(vs: seq<T>, m: map<string, R>, key: T -> string, row: T -> R, v: T)
    requires Keyed(vs, m, key, row)
    ensures key(v) !in m <==> forall u | u in vs :: key(u) != key(v)
    ensures key(v) !in m ==> Keyed(vs + [v], m[key(v) := row(v)], key, row)
  {
    ByKeyKeys(vs, key, row, key(v));
    ByKeyMore(vs, v, key, row);
    if key(v) !in m {
      DistinctMore(vs, v, key);
    }
  }

  lemma SaveSimulates(fs: Files, t: Tables, cs: Codecs, l: Logs, d: Decision)
    requires Clean(fs, cs, l) && Simulates(t, l, cs.decision) && Short(d, cs.decision)
    ensures Clean(SaveDecision(fs, cs, d, NoFault).0, cs, l.(ds := l.ds + [d]))
    ensures Simulates(InsertDecision(t, cs.decision, d, false).0, l.(ds := l.ds + [d]), cs.decision)
  {
    HoldsOneMore(fs.decisions, cs.decision, l.ds, d);
    FirstOccurrencesMore(l.ds, t.decisions, cs.decision, d);
  }

  /** The SQL insert succeeds exactly when the file log has no record with that identifier. */
  lemma RevokeSimulates(fs: Files, t: Tables, cs: Codecs, l: Logs, r: Revocation)
    requires Clean(fs, cs, l) && Simulates(t, l, cs.decision) && Short(r, cs.revocation)
    ensures InsertRevocation(t, r, false).1.None? <==> forall x | x in l.rs :: x.id != r.id
    ensures Clean(Disk.Revoke(fs, cs, r, NoFault).0, cs, l.(rs := l.rs + [r]))
    ensures InsertRevocation(t, r, false).1.None? ==>
              Simulates(InsertRevocation(t, r, false).0, l.(rs := l.rs + [r]), cs.decision)
  {
    HoldsOneMore(fs.revocations, cs.revocation, l.rs, r);
    KeyedMore(l.rs, t.revocations, RevocationKey(), ProjectedRow(), r);
  }

  lemma QuarantineSimulates(fs: Files, t: Tables, cs: Codecs, l: Logs, q: Records.Quarantine)
    requires Clean(fs, cs, l) && Simulates(t, l, cs.decision) && Short(q, cs.quarantine)
    ensures InsertQuarantine(t, q, false).1.None? <==> forall x | x in l.qs :: x.id != q.id
    ensures Clean(AddQuarantine(fs, cs, q, NoFault).0, cs, l.(qs := l.qs + [q]))
    ensures InsertQuarantine(t, q, false).1.None? ==>
              Simulates(InsertQuarantine(t, q, false).0, l.(qs := l.qs + [q]), cs.decision)
  {
    HoldsOneMore(fs.quarantines, cs.quarantine, l.qs, q);
    KeyedMore(l.qs, t.quarantines, QuarantineKey(), Whole(), q);
  }

  lemma PromoteSimulates(fs: Files, t: Tables, cs: Codecs, l: Logs, p: Promotion, id: string, now: Time, at: Time)
    requires Safe(cs) && Clean(fs, cs, l) && Simulates(t, l, cs.decision)
    requires Short(Stamped(p, id, at), cs.promotion)
    requires forall x | x in l.ps :: x.id != Stamped(p, id, at).id
    ensures var (fs', e) := Disk.Promote(fs, cs, p, id, now, at, NoFault);
            var (t', s) := PromoteRow(t, cs.decision, p, id, now, at, Never());
            var l' := if PromoteVerdict(fs, cs, p, now).None? then l.(ps := l.ps + [Stamped(p, id, at)]) else l;
            && Clean(fs', cs, l') && Simulates(t', l', cs.decision)
            && (e.None? <==> s.None?) && (e.None? <==> PromoteVerdict(fs, cs, p, now).None?)
  {
    CleanReads(fs, cs, l);
    SameVerdict(fs, t, cs, l, p, now);
    HoldsOneMore(fs.promotions, cs.promotion, l.ps, Stamped(p, id, at));
    KeyedMore(l.ps, t.promotions, PromotionKey(), Whole(), Stamped(p, id, at));
  }

  // Unquarantine.

  lemma {:induction false} FilterDistinct<T(!new)>(vs: seq<T>, keep: T -> bool, key: T -> string)
    requires Distinct(vs, key)
    ensures Distinct(Filter(vs, keep), key)
  {
    if vs != [] {
      var n := |vs| - 1;
      FilterDistinct(vs[..n], keep, key);
      forall u | u in Filter(vs[..n], keep)
        ensures key(u) != key(vs[n])
      {
        FilterMember(vs[..n], keep, u);
        var i :| 0 <= i < n && vs[i] == u;
      }
      if keep(vs[n]) {
        DistinctMore(Filter(vs[..n], keep), vs[n], key);
      } else {
        assert Filter(vs, keep) == Filter(vs[..n], keep) + [] == Filter(vs[..n], keep);
      }
    }
  }

  /** The SQL DELETE removes exactly the rows of the records that the file rewrite drops. */
  lemma DeleteAgrees(qs: seq<Records.Quarantine>, t: Tables, x: string)
    requires Keyed(qs, t.quarantines, QuarantineKey(), Whole())
    ensures Keyed(Filter(qs, Spared(x)), DeleteQuarantines(t, x, false).0.quarantines, QuarantineKey(), Whole())
  {
    var m := DeleteQuarantines(t, x, false).0.quarantines;
    var k := ByKey(Filter(qs, Spared(x)), QuarantineKey(), Whole());
    FilterDistinct(qs, Spared(x), QuarantineKey());
    forall id
      ensures id in m <==> id in k
      ensures id in m ==> m[id] == k[id]
    {
      DeletedHere(qs, t, x, id);
      KeptHere(qs, t, x, id);
    }
    assert m == k;
  }

  /** A row that the DELETE spares belongs to a record that the rewrite keeps. */
  lemma DeletedHere(qs: seq<Records.Quarantine>, t: Tables, x: string, id: string)
    requires Keyed(qs, t.quarantines, QuarantineKey(), Whole())
    ensures var m := DeleteQuarantines(t, x, false).0.quarantines;
            var k := ByKey(Filter(qs, Spared(x)), QuarantineKey(), Whole());
            id in m ==> id in k && k[id] == m[id]
  {
    if id in DeleteQuarantines(t, x, false).0.quarantines {
      KeyedHolds(qs, t.quarantines, QuarantineKey(), Whole());
      var q :| q in qs && QuarantineKey()(q) == id && t.quarantines[id] == Whole()(q);
      FilterMember(qs, Spared(x), q);
      FilterDistinct(qs, Spared(x), QuarantineKey());
      ByKeyHolds(Filter(qs, Spared(x)), QuarantineKey(), Whole<Records.Quarantine>(), q);
    }
  }

  /** A record that the rewrite keeps has a row that the DELETE spares. */
  lemma KeptHere(qs: seq<Records.Quarantine>, t: Tables, x: string, id: string)
    requires Keyed(qs, t.quarantines, QuarantineKey(), Whole())
    ensures id in ByKey(Filter(qs, Spared(x)), QuarantineKey(), Whole<Records.Quarantine>())
            ==> id in DeleteQuarantines(t, x, false).0.quarantines
  {
    var kept := Filter(qs, Spared(x));
    if id in ByKey(kept, QuarantineKey(), Whole<Records.Quarantine>()) {
      ByKeyKeys(kept, QuarantineKey(), Whole<Records.Quarantine>(), id);
      var q :| q in kept && QuarantineKey()(q) == id;
      FilterMember(qs, Spared(x), q);
      ByKeyHolds(qs, QuarantineKey(), Whole<Records.Quarantine>(), q);
    }
  }

  lemma UnquarantineSimulates(fs: Files, t: Tables, cs: Codecs, l: Logs, x: string, faults: Faults)
    requires Safe(cs) && Clean(fs, cs, l) && Simulates(t, l, cs.decision) && NoFaults(faults)
    ensures var l' := l.(qs := Filter(l.qs, Spared(x)));
            && Clean(Disk.Unquarantine(fs, cs, x, faults).0, cs, l')
            && Simulates(DeleteQuarantines(t, x, false).0, l', cs.decision)
  {
    CleanReads(fs, cs, l);
    var kept := Filter(l.qs, Spared(x));
    forall q | q in kept
      ensures q in l.qs
    {
      FilterMember(l.qs, Spared(x), q);
    }
    RewriteText(kept, cs.quarantine, faults, 3);
    DeleteAgrees(l.qs, t, x);
  }

  // Restore.

  ghost predicate ShortBackup(b: BackupData, cs: Codecs) {
    && AllShort(b.decisions, cs.decision) && AllShort(b.promotions, cs.promotion)
    && AllShort(b.revocations, cs.revocation) && AllShort(b.quarantines, cs.quarantine)
  }

  function LogsOf(b: BackupData): Logs {
    Logs(b.decisions, b.promotions, b.revocations, b.quarantines)
  }

  const NO_FAULTS: RestoreFaults := RestoreFaults(false, false, (table, n) => false, false)

  lemma DistinctDecisions(ds: seq<Decision>, c: Codec<Decision>)
    requires Distinct(ds, DecisionKey()) && forall d | d in ds :: c.enc(d).Some?
    ensures FirstOccurrences(ds, ByKey(ds, DecisionKey(), DataColumn(c)), c)
  {
    if ds == [] {
      assert forall id :: FirstMatch(ds, id).None?;
    } else {
      var n := |ds| - 1;
      assert ds == ds[..n] + [ds[n]] && forall d | d in ds[..n] :: d in ds;
      DistinctDecisions(ds[..n], c);
      var m := ByKey(ds[..n], DecisionKey(), DataColumn(c));
      FirstOccurrencesMore(ds[..n], m, c, ds[n]);
      ByKeyKeys(ds[..n], DecisionKey(), DataColumn(c), ds[n].decisionId);
      assert ds[n] in ds;
    }
  }

  /** The tables a backup with distinct identifiers fills hold what its lists hold. */
  lemma LoadedSimulates(b: BackupData, cs: Codecs)
    requires DistinctIds(b) && forall d | d in b.decisions :: cs.decision.enc(d).Some?
    ensures Simulates(Loaded(b, cs.decision), LogsOf(b), cs.decision)
  {
    DistinctDecisions(b.decisions, cs.decision);
  }

  lemma RestoreCleans(b: BackupData, cs: Codecs, faults: Faults)
    requires ShortBackup(b, cs) && NoFaults(faults)
    ensures Clean(RestoreFrom(b, cs, faults).0, cs, LogsOf(b))
  {
    RewriteText(b.decisions, cs.decision, faults, 0);
    RewriteText(b.promotions, cs.promotion, faults, 1);
    RewriteText(b.revocations, cs.revocation, faults, 2);
    RewriteText(b.quarantines, cs.quarantine, faults, 3);
  }

  /** A backup of the file store restores into SQL exactly when no identifier repeats in a
      log; then every promotion gets the verdict it got before, and quarantine lookups answer
      as before. */
  lemma FileBackupIntoSql(fs: Files, t: Tables, cs: Codecs, l: Logs, now: Time)
    requires Safe(cs) && Invertible(cs.backup) && Reads(fs, cs, l.ds, l.ps, l.rs, l.qs)
    requires Backup(fs, cs, now).Ok?
    ensures var doc := Backup(fs, cs, now).value;
            var t' := AfterRestore(t, cs, doc, NO_FAULTS);
            && (RestoreCommits(cs.backup, doc, NO_FAULTS) <==> DistinctIds(BackupData(now, l.ds, l.ps, l.rs, l.qs)))
            && (RestoreCommits(cs.backup, doc, NO_FAULTS) ==> MovedOver(fs, t', cs, l))
  {
    var b := BackupData(now, l.ds, l.ps, l.rs, l.qs);
    var doc := Backup(fs, cs, now).value;
    assert cs.backup.enc(b) == Some(doc);
    assert cs.backup.dec(doc) == Some(b);
    if DistinctIds(b) {
      LogMovesOver(fs, cs, b);
    }
  }

  lemma LogMovesOver(fs: Files, cs: Codecs, b: BackupData)
    requires LineSafe(cs.decision) && DistinctIds(b)
    requires Reads(fs, cs, b.decisions, b.promotions, b.revocations, b.quarantines)
    ensures MovedOver(fs, Loaded(b, cs.decision), cs, LogsOf(b))
  {
    ReadRecordsEncode(Content(fs.decisions), cs.decision);
    LoadedSimulates(b, cs);
    Moves(fs, Loaded(b, cs.decision), cs, LogsOf(b));
  }

  /** The tables answer as the files do. */
  ghost predicate MovedOver(fs: Files, t: Tables, cs: Codecs, l: Logs) {
    && (forall p, at :: PromoteVerdict(fs, cs, p, at).None? <==> Verdict(t, cs.decision, p, at, Never()).None?)
    && (forall digest, env :: QuarantinedRow(t, digest, env) == Quarantined(l.qs, digest, env))
    && (forall digest, env :: RevokedRow(t, digest, env) == Revoked(l.rs, digest, env))
  }

  lemma Moves(fs: Files, t: Tables, cs: Codecs, l: Logs)
    requires LineSafe(cs.decision) && Reads(fs, cs, l.ds, l.ps, l.rs, l.qs) && Simulates(t, l, cs.decision)
    ensures MovedOver(fs, t, cs, l)
  {
    forall p, at
      ensures PromoteVerdict(fs, cs, p, at).None? <==> Verdict(t, cs.decision, p, at, Never()).None?
    {
      SameVerdict(fs, t, cs, l, p, at);
    }
    forall digest, env
      ensures QuarantinedRow(t, digest, env) == Quarantined(l.qs, digest, env)
      ensures RevokedRow(t, digest, env) == Revoked(l.rs, digest, env)
    {
      SameQuarantines(t, l, cs.decision, digest, env);
      SameRevocations(t, l, cs.decision, digest, env);
    }
  }

  /** Whatever a log reads as can be encoded again. */
  lemma {:induction false} ReadRecordsEncode<T(!new)>(text: string, c: Codec<T>)
    requires Reencodes(c)
    ensures Encodable(ReadText(text, c), c)
    decreases |text|
  {
    if text != "" {
      var i := Text.IndexOf(text, '\n');
      var line, rest := ReadLine(text[..i], c), if i < |text| then text[i + 1..] else "";
      ReadRecordsEncode(rest, c);
      LineEncodes(text[..i], c);
      var read := ReadText(rest, c);
      assert ReadText(text, c) == Chain(line, read);
      ChainEncodes(line, read, c);
    }
  }

  ghost predicate Reencodes<T>(c: Codec<T>) {
    forall s :: c.dec(s).Some? ==> c.enc(c.dec(s).value).Some?
  }

  ghost predicate Encodable<T>(r: Result<seq<T>, ReadError>, c: Codec<T>) {
    r.Ok? ==> forall v | v in r.value :: c.enc(v).Some?
  }

  lemma LineEncodes<T(!new)>(raw: string, c: Codec<T>)
    requires Reencodes(c)
    ensures Encodable(ReadLine(raw, c), c)
  {
  }

  lemma ChainEncodes<T(!new)>(a: Result<seq<T>, ReadError>, b: Result<seq<T>, ReadError>, c: Codec<T>)
    requires Encodable(a, c) && Encodable(b, c)
    ensures Encodable(Chain(a, b), c)
  {
  }

  // Whole runs.

  /** An operation without faults whose record fits a line and brings a fresh identifier. */
  ghost predicate Fresh(cs: Codecs, l: Logs, a: Op) {
    match a
    case Idle => true
    case Save(d, fault) => fault == NoFault && Short(d, cs.decision)
    case Promote(p, id, _, at, fault) =>
      fault == NoFault && Short(Stamped(p, id, at), cs.promotion)
      && forall x | x in l.ps :: x.id != Stamped(p, id, at).id
    case Revoke(_, _, _, fault) =>
      fault == NoFault && Short(StoredRevocation(a), cs.revocation)
      && forall x | x in l.rs :: x.id != StoredRevocation(a).id
    case Quarantine(_, _, _, fault) =>
      fault == NoFault && Short(StoredQuarantine(a), cs.quarantine)
      && forall x | x in l.qs :: x.id != StoredQuarantine(a).id
    case Unquarantine(_, faults) => NoFaults(faults)
    case RestoreCut(_) => false
    case Restore(data, faults) =>
      NoFaults(faults) &&
      (cs.backup.dec(data).Some? ==>
         DistinctIds(cs.backup.dec(data).value) && ShortBackup(cs.backup.dec(data).value, cs))
  }

  /** What an operation does to the records. */
  function LogEffect(cs: Codecs, l: Logs, a: Op): Logs {
    match a
    case Idle => l
    case Save(d, _) => l.(ds := l.ds + [d])
    case Promote(p, id, now, at, _) =>
      var refusal := PromotionRefusal(FirstMatch(l.ds, p.decisionId), Revoked(l.rs, p.digest, p.environment),
                                      Quarantined(l.qs, p.digest, p.environment), p, now);
      if refusal.None? then l.(ps := l.ps + [Stamped(p, id, at)]) else l
    case Revoke(_, _, _, _) => l.(rs := l.rs + [StoredRevocation(a)])
    case Quarantine(_, _, _, _) => l.(qs := l.qs + [StoredQuarantine(a)])
    case Unquarantine(x, _) => l.(qs := Filter(l.qs, Spared(x)))
    case RestoreCut(_) => l
    case Restore(data, _) => if cs.backup.dec(data).Some? then LogsOf(cs.backup.dec(data).value) else l
  }

  /** What the same operation does to the tables. */
  ghost function SqlEffect(cs: Codecs, t: Tables, a: Op): Tables {
    match a
    case Idle => t
    case Save(d, _) => InsertDecision(t, cs.decision, d, false).0
    case Promote(p, id, now, at, _) => PromoteRow(t, cs.decision, p, id, now, at, Never()).0
    case Revoke(_, _, _, _) => InsertRevocation(t, StoredRevocation(a), false).0
    case Quarantine(_, _, _, _) => InsertQuarantine(t, StoredQuarantine(a), false).0
    case Unquarantine(x, _) => DeleteQuarantines(t, x, false).0
    case RestoreCut(_) => t
    case Restore(data, _) => AfterRestore(t, cs, data, NO_FAULTS)
  }

  ghost predicate Agree(fs: Files, t: Tables, cs: Codecs, l: Logs) {
    Clean(fs, cs, l) && Simulates(t, l, cs.decision)
  }

  lemma RecordStepSimulates(fs: Files, t: Tables, cs: Codecs, l: Logs, a: Op)
    requires Safe(cs) && Agree(fs, t, cs, l) && Fresh(cs, l, a)
    requires a.Save? || a.Revoke? || a.Quarantine? || a.Unquarantine?
    ensures Agree(Effect(cs, fs, a), SqlEffect(cs, t, a), cs, LogEffect(cs, l, a))
  {
    match a
    case Save(d, _) => SaveSimulates(fs, t, cs, l, d);
    case Revoke(_, _, _, _) => RevokeSimulates(fs, t, cs, l, StoredRevocation(a));
    case Quarantine(_, _, _, _) => QuarantineSimulates(fs, t, cs, l, StoredQuarantine(a));
    case Unquarantine(x, faults) => UnquarantineSimulates(fs, t, cs, l, x, faults);
  }

  lemma PromoteStepSimulates(fs: Files, t: Tables, cs: Codecs, l: Logs, a: Op)
    requires Safe(cs) && Agree(fs, t, cs, l) && Fresh(cs, l, a) && a.Promote?
    ensures Agree(Effect(cs, fs, a), SqlEffect(cs, t, a), cs, LogEffect(cs, l, a))
  {
    PromoteSimulates(fs, t, cs, l, a.promotion, a.id, a.now, a.stampedAt);
    CleanReads(fs, cs, l);
    VerdictOfLogs(fs, cs, l, a.promotion, a.now);
  }

  lemma VerdictOfLogs(fs: Files, cs: Codecs, l: Logs, p: Promotion, now: Time)
    requires Reads(fs, cs, l.ds, l.ps, l.rs, l.qs)
    ensures PromoteVerdict(fs, cs, p, now).None?
       <==> PromotionRefusal(FirstMatch(l.ds, p.decisionId), Revoked(l.rs, p.digest, p.environment),
                             Quarantined(l.qs, p.digest, p.environment), p, now).None?
  {
  }

  lemma RestoreStepSimulates(fs: Files, t: Tables, cs: Codecs, l: Logs, a: Op)
    requires Safe(cs) && Agree(fs, t, cs, l) && Fresh(cs, l, a) && a.Restore?
    ensures Agree(Effect(cs, fs, a), SqlEffect(cs, t, a), cs, LogEffect(cs, l, a))
  {
    var b := cs.backup.dec(a.data);
    if b.Some? {
      BackupAgrees(b.value, cs, a.faults);
      assert SqlEffect(cs, t, a) == Loaded(b.value, cs.decision);
    } else {
      assert SqlEffect(cs, t, a) == t;
    }
  }

  lemma BackupAgrees(b: BackupData, cs: Codecs, faults: Faults)
    requires DistinctIds(b) && ShortBackup(b, cs) && NoFaults(faults)
    ensures Agree(RestoreFrom(b, cs, faults).0, Loaded(b, cs.decision), cs, LogsOf(b))
  {
    RestoreCleans(b, cs, faults);
    LoadedSimulates(b, cs);
  }

  lemma StepSimulates(fs: Files, t: Tables, cs: Codecs, l: Logs, a: Op)
    requires Safe(cs) && Agree(fs, t, cs, l) && Fresh(cs, l, a)
    ensures Agree(Effect(cs, fs, a), SqlEffect(cs, t, a), cs, LogEffect(cs, l, a))
  {
    if a.Promote? {
      PromoteStepSimulates(fs, t, cs, l, a);
    } else if a.Restore? {
      RestoreStepSimulates(fs, t, cs, l, a);
    } else if !a.Idle? {
      RecordStepSimulates(fs, t, cs, l, a);
    }
  }

  function LogRun(cs: Codecs, l: Logs, run: seq<Op>): Logs {
    if run == [] then l else LogEffect(cs, LogRun(cs, l, run[..|run| - 1]), run[|run| - 1])
  }

  ghost function SqlRun(cs: Codecs, t: Tables, run: seq<Op>): Tables {
    if run == [] then t else SqlEffect(cs, SqlRun(cs, t, run[..|run| - 1]), run[|run| - 1])
  }

  ghost predicate FreshRun(cs: Codecs, l: Logs, run: seq<Op>) {
    forall k | 0 <= k < |run| :: Fresh(cs, LogRun(cs, l, run[..k]), run[k])
  }

  /** The simulation holds after every sequential run. */
  lemma {:induction false} RunSimulates(fs: Files, t: Tables, cs: Codecs, l: Logs, run: seq<Op>)
    requires Safe(cs) && Agree(fs, t, cs, l) && FreshRun(cs, l, run)
    ensures Agree(Run(cs, fs, run), SqlRun(cs, t, run), cs, LogRun(cs, l, run))
  {
    if run != [] {
      var n := |run| - 1;
      forall k | 0 <= k < n
        ensures Fresh(cs, LogRun(cs, l, run[..n][..k]), run[..n][k])
      {
        assert run[..n][..k] == run[..k];
      }
      RunSimulates(fs, t, cs, l, run[..n]);
      StepSimulates(Run(cs, fs, run[..n]), SqlRun(cs, t, run[..n]), cs, LogRun(cs, l, run[..n]), run[n]);
    }
  }

  /** Started empty, the two engines give every promotion the same verdict after every such
      run, and the same answers about quarantines. */
  lemma EnginesAgree(cs: Codecs, run: seq<Op>)
    requires Safe(cs) && FreshRun(cs, Logs([], [], [], []), run)
    ensures MovedOver(Run(cs, NO_FILES, run), SqlRun(cs, NO_ROWS, run), cs, LogRun(cs, Logs([], [], [], []), run))
  {
    var l := Logs([], [], [], []);
    RunSimulates(NO_FILES, NO_ROWS, cs, l, run);
    CleanReads(Run(cs, NO_FILES, run), cs, LogRun(cs, l, run));
    Moves(Run(cs, NO_FILES, run), SqlRun(cs, NO_ROWS, run), cs, LogRun(cs, l, run));
  }
}
