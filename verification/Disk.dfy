/** The four log files of one data directory and what each store operation does to them,
    with the faults the operating system may add. */
module Disk {
  import opened Wrappers
  import opened Records
  import opened LineLog
  import opened Ledger

  datatype Files = Files(decisions: File, promotions: File, revocations: File, quarantines: File)

  const NO_FILES: Files := Files(None, None, None, None)

  /** The codecs of the stored records, and of a whole backup document. */
  datatype Codecs = Codecs(
    decision: Codec<Decision>, promotion: Codec<Promotion>, revocation: Codec<Revocation>,
    quarantine: Codec<Quarantine>, backup: Codec<BackupData>)

  ghost predicate Safe(cs: Codecs) {
    && LineSafe(cs.decision) && LineSafe(cs.promotion) && LineSafe(cs.revocation) && LineSafe(cs.quarantine)
  }

  /** A backup document decodes to what was encoded. */
  ghost predicate Invertible(c: Codec<BackupData>) {
    forall b :: c.enc(b).Some? ==> c.dec(c.enc(b).value) == Some(b)
  }

  datatype StoreError =
    | Unreadable(why: ReadError)
    | Refused(refusal: Refusal)
    | Unwritten(fault: WriteError)
    | BackupNotEncoded
    | BackupNotDecoded

  function Failure(e: Option<WriteError>): Option<StoreError> {
    if e.None? then None else Some(Unwritten(e.value))
  }

  // One append each.

  function SaveDecision(fs: Files, cs: Codecs, d: Decision, fault: WriteFault): (Files, Option<StoreError>) {
    var (f, e) := AppendNDJSON(fs.decisions, d, cs.decision, fault);
    (fs.(decisions := f), Failure(e))
  }

  function Revoke(fs: Files, cs: Codecs, r: Revocation, fault: WriteFault): (Files, Option<StoreError>) {
    var (f, e) := AppendNDJSON(fs.revocations, r, cs.revocation, fault);
    (fs.(revocations := f), Failure(e))
  }

  function AddQuarantine(fs: Files, cs: Codecs, q: Quarantine, fault: WriteFault): (Files, Option<StoreError>) {
    var (f, e) := AppendNDJSON(fs.quarantines, q, cs.quarantine, fault);
    (fs.(quarantines := f), Failure(e))
  }

  // Promotion.

  /** Why a promotion is refused at this time, if it is: each log is read only when the
      guards before it have passed. */
  function PromoteVerdict(fs: Files, cs: Codecs, p: Promotion, now: Time): Option<StoreError> {
    if p.decisionId == "" then Some(Refused(MissingDecisionId))
    else
      var ds := ReadFile(fs.decisions, cs.decision);
      if ds.Err? then Some(Unreadable(ds.error))
      else
        var found := PromotionRefusal(FirstMatch(ds.value, p.decisionId), false, false, p, now);
        if found.Some? then Some(Refused(found.value)) else RestrictionVerdict(fs, cs, p)
  }

  function RestrictionVerdict(fs: Files, cs: Codecs, p: Promotion): Option<StoreError> {
    var rs := ReadFile(fs.revocations, cs.revocation);
    if rs.Err? then Some(Unreadable(rs.error))
    else if Revoked(rs.value, p.digest, p.environment) then Some(Refused(RevokedHere))
    else
      var qs := ReadFile(fs.quarantines, cs.quarantine);
      if qs.Err? then Some(Unreadable(qs.error))
      else if Quarantined(qs.value, p.digest, p.environment) then Some(Refused(QuarantinedHere))
      else None
  }

  function Promote(fs: Files, cs: Codecs, p: Promotion, id: string, checkedAt: Time, stampedAt: Time, fault: WriteFault)
    : (Files, Option<StoreError>)
  {
    var v := PromoteVerdict(fs, cs, p, checkedAt);
    if v.Some? then (fs, v)
    else
      var (f, e) := AppendNDJSON(fs.promotions, Stamped(p, id, stampedAt), cs.promotion, fault);
      (fs.(promotions := f), Failure(e))
  }

  /** A promotion goes through exactly when the three logs it depends on can be read and the
      promotion rule holds of what they hold: unreadable logs fail closed. */
  lemma VerdictExactly(fs: Files, cs: Codecs, p: Promotion, now: Time)
    ensures PromoteVerdict(fs, cs, p, now).None? <==>
            && ReadFile(fs.decisions, cs.decision).Ok?
            && ReadFile(fs.revocations, cs.revocation).Ok?
            && ReadFile(fs.quarantines, cs.quarantine).Ok?
            && Promotable(ReadFile(fs.decisions, cs.decision).value, ReadFile(fs.revocations, cs.revocation).value,
                          ReadFile(fs.quarantines, cs.quarantine).value, p, now)
  {
    var ds, rs := ReadFile(fs.decisions, cs.decision), ReadFile(fs.revocations, cs.revocation);
    var qs := ReadFile(fs.quarantines, cs.quarantine);
    if ds.Ok? && rs.Ok? && qs.Ok? {
      RefusalExactly(ds.value, rs.value, qs.value, p, now);
    }
  }

  // Rewriting a log.

  /** The fault that meets the n-th append to a log being rewritten. */
  type Faults = (nat, nat) -> WriteFault

  /** Append records one after another until one append fails. */
  function AppendAll<T>(f: File, vs: seq<T>, c: Codec<T>, faults: Faults, log: nat): (File, Option<WriteError>) {
    if vs == [] then (f, None)
    else
      var n := |vs| - 1;
      var (g, e) := AppendAll(f, vs[..n], c, faults, log);
      if e.Some? then (g, e) else AppendNDJSON(g, vs[n], c, faults(log, n))
  }

  function Unquarantine(fs: Files, cs: Codecs, id: string, faults: Faults): (Files, Option<StoreError>) {
    var qs := ReadFile(fs.quarantines, cs.quarantine);
    if qs.Err? then (fs, Some(Unreadable(qs.error)))
    else
      var (f, e) := AppendAll(None, Filter(qs.value, Spared(id)), cs.quarantine, faults, 3);
      (fs.(quarantines := f), Failure(e))
  }

  function Restore(fs: Files, cs: Codecs, data: string, faults: Faults): (Files, Option<StoreError>) {
    var b := cs.backup.dec(data);
    if b.None? then (fs, Some(BackupNotDecoded)) else RestoreFrom(b.value, cs, faults)
  }

  /** A restore cut short by a crash after it removed the first logs and before it wrote any. */
  function CutRestore(fs: Files, removed: nat): Files {
    Files(if removed >= 1 then None else fs.decisions, if removed >= 2 then None else fs.promotions,
          if removed >= 3 then None else fs.revocations, if removed >= 4 then None else fs.quarantines)
  }

  /** The four logs removed and written again in order. */
  function RestoreFrom(b: BackupData, cs: Codecs, faults: Faults): (Files, Option<StoreError>) {
    var (d, e1) := AppendAll(None, b.decisions, cs.decision, faults, 0);
    if e1.Some? then (Files(d, None, None, None), Failure(e1))
    else
      var (p, e2) := AppendAll(None, b.promotions, cs.promotion, faults, 1);
      if e2.Some? then (Files(d, p, None, None), Failure(e2))
      else
        RestoreRestrictions(b, cs, faults, d, p)
  }

  function RestoreRestrictions(b: BackupData, cs: Codecs, faults: Faults, d: File, p: File)
    : (Files, Option<StoreError>)
  {
    var (r, e3) := AppendAll(None, b.revocations, cs.revocation, faults, 2);
    if e3.Some? then (Files(d, p, r, None), Failure(e3))
    else
      var (q, e4) := AppendAll(None, b.quarantines, cs.quarantine, faults, 3);
      (Files(d, p, r, q), Failure(e4))
  }

  function Backup(fs: Files, cs: Codecs, now: Time): Result<string, StoreError> {
    var ds, ps := ReadFile(fs.decisions, cs.decision), ReadFile(fs.promotions, cs.promotion);
    var rs, qs := ReadFile(fs.revocations, cs.revocation), ReadFile(fs.quarantines, cs.quarantine);
    if ds.Err? then Err(Unreadable(ds.error))
    else if ps.Err? then Err(Unreadable(ps.error))
    else if rs.Err? then Err(Unreadable(rs.error))
    else if qs.Err? then Err(Unreadable(qs.error))
    else
      var doc := cs.backup.enc(BackupData(now, ds.value, ps.value, rs.value, qs.value));
      if doc.None? then Err(BackupNotEncoded) else Ok(doc.value)
  }
}
