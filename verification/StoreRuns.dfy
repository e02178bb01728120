/** One file store under interleaved requests: each operation is one critical section of its
    lock, so every interleaving is a sequence of operations. */
module StoreRuns {
  import opened Wrappers
  import opened Records
  import opened LineLog
  import opened Ledger
  import opened Disk
  import opened FileLaws

  /** A critical section, with the clock it reads and the faults it meets. Reading operations
      change nothing and are `Idle`; `RestoreCut` is a restore that a crash ends between its
      removals. */
  datatype Op =
    | Idle
    | Save(decision: Decision, fault: WriteFault)
    | Promote(promotion: Promotion, id: string, now: Time, stampedAt: Time, fault: WriteFault)
    | Revoke(revocation: Revocation, id: string, stampedAt: Time, fault: WriteFault)
    | Quarantine(quarantine: Records.Quarantine, id: string, stampedAt: Time, fault: WriteFault)
    | Unquarantine(target: string, faults: Faults)
    | Restore(data: string, faults: Faults)
    | RestoreCut(removed: nat)

  /** What one operation does to the data directory. */
  function Effect(cs: Codecs, fs: Files, a: Op): Files {
    match a
    case Idle => fs
    case Save(d, fault) => SaveDecision(fs, cs, d, fault).0
    case Promote(p, id, now, at, fault) => Disk.Promote(fs, cs, p, id, now, at, fault).0
    case Revoke(r, id, at, fault) => Disk.Revoke(fs, cs, StampedRevocation(r, id, at), fault).0
    case Quarantine(q, id, at, fault) => AddQuarantine(fs, cs, StampedQuarantine(q, id, at), fault).0
    case Unquarantine(target, faults) => Disk.Unquarantine(fs, cs, target, faults).0
    case Restore(data, faults) => Disk.Restore(fs, cs, data, faults).0
    case RestoreCut(removed) => CutRestore(fs, removed)
  }

  /** The record a revocation request stores. */
  function StoredRevocation(a: Op): Revocation
    requires a.Revoke?
  {
    StampedRevocation(a.revocation, a.id, a.stampedAt)
  }

  function StoredQuarantine(a: Op): Records.Quarantine
    requires a.Quarantine?
  {
    StampedQuarantine(a.quarantine, a.id, a.stampedAt)
  }

  lemma RestoreIsEffect(cs: Codecs, fs: Files, a: Op)
    requires a.Restore?
    ensures Effect(cs, fs, a) == Disk.Restore(fs, cs, a.data, a.faults).0
  {
  }

  /** The data directory after a run of operations. */
  function Run(cs: Codecs, fs: Files, run: seq<Op>): Files {
    if run == [] then fs else Effect(cs, Run(cs, fs, run[..|run| - 1]), run[|run| - 1])
  }

  lemma RunStep(cs: Codecs, fs: Files, run: seq<Op>, i: nat)
    requires i < |run|
    ensures Run(cs, fs, run[..i + 1]) == Effect(cs, Run(cs, fs, run[..i]), run[i])
  {
    assert run[..i + 1][..i] == run[..i];
  }

  // The files stay well formed.

  lemma AppendsKeepSound(cs: Codecs, fs: Files, a: Op)
    requires a.Save? || a.Revoke? || a.Quarantine?
    requires Safe(cs) && Sound(fs, cs)
    ensures Sound(Effect(cs, fs, a), cs)
  {
    if a.Save? {
      SaveSound(fs, cs, a.decision, a.fault);
    } else if a.Revoke? {
      RevokeSound(fs, cs, StoredRevocation(a), a.fault);
    } else {
      QuarantineSound(fs, cs, StoredQuarantine(a), a.fault);
    }
  }

  lemma PromoteKeepsSound(cs: Codecs, fs: Files, a: Op)
    requires a.Promote?
    requires Safe(cs) && Sound(fs, cs)
    ensures Sound(Effect(cs, fs, a), cs)
  {
    PromoteSound(fs, cs, a.promotion, a.id, a.now, a.stampedAt, a.fault);
  }

  lemma UnquarantineKeepsSound(cs: Codecs, fs: Files, a: Op)
    requires a.Unquarantine?
    requires Safe(cs) && Sound(fs, cs)
    ensures Sound(Effect(cs, fs, a), cs)
  {
    UnquarantineSound(fs, cs, a.target, a.faults);
  }

  lemma RestoreKeepsSound(cs: Codecs, fs: Files, a: Op)
    requires a.Restore?
    requires Safe(cs) && Sound(fs, cs)
    ensures Sound(Effect(cs, fs, a), cs)
  {
    RestoreSound(fs, cs, a.data, a.faults);
    RestoreIsEffect(cs, fs, a);
  }

  lemma CutKeepsSound(cs: Codecs, fs: Files, a: Op)
    requires a.RestoreCut? && Sound(fs, cs)
    ensures Sound(Effect(cs, fs, a), cs)
  {
    CutSound(fs, cs, a.removed);
  }

  lemma StepKeepsSound(cs: Codecs, fs: Files, a: Op)
    requires Safe(cs) && Sound(fs, cs)
    ensures Sound(Effect(cs, fs, a), cs)
  {
    if a.Save? || a.Revoke? || a.Quarantine? {
      AppendsKeepSound(cs, fs, a);
    } else if a.Promote? {
      PromoteKeepsSound(cs, fs, a);
    } else if a.Unquarantine? {
      UnquarantineKeepsSound(cs, fs, a);
    } else if a.Restore? {
      RestoreKeepsSound(cs, fs, a);
    } else if a.RestoreCut? {
      CutKeepsSound(cs, fs, a);
    }
  }

  lemma {:induction false} RunKeepsSound(cs: Codecs, fs: Files, run: seq<Op>)
    requires Safe(cs) && Sound(fs, cs)
    ensures Sound(Run(cs, fs, run), cs)
  {
    if run != [] {
      var n := |run| - 1;
      RunKeepsSound(cs, fs, run[..n]);
      StepKeepsSound(cs, Run(cs, fs, run[..n]), run[n]);
    }
  }

  // What the two ends of a safety claim are.

  /** The promotion passes every guard. */
  ghost predicate GoesThrough(cs: Codecs, fs: Files, a: Op) {
    a.Promote? && PromoteVerdict(fs, cs, a.promotion, a.now).None?
  }

  /** The store reported the revocation as recorded. */
  ghost predicate Recorded(cs: Codecs, fs: Files, a: Op) {
    a.Revoke? && Disk.Revoke(fs, cs, StoredRevocation(a), a.fault).1.None?
  }

  ghost predicate RecordedQuarantine(cs: Codecs, fs: Files, a: Op) {
    a.Quarantine? && AddQuarantine(fs, cs, StoredQuarantine(a), a.fault).1.None?
  }

  ghost predicate RevocationSealed(cs: Codecs, fs: Files, r: Revocation) {
    Sealed(Content(fs.revocations), r, cs.revocation)
  }

  ghost predicate QuarantineSealed(cs: Codecs, fs: Files, q: Records.Quarantine) {
    Sealed(Content(fs.quarantines), q, cs.quarantine)
  }

  lemma RecordedIsSealed(cs: Codecs, fs: Files, a: Op)
    requires Safe(cs) && Sound(fs, cs) && Recorded(cs, fs, a)
    ensures RevocationSealed(cs, Effect(cs, fs, a), StoredRevocation(a))
  {
    RevokeSeals(fs, cs, StoredRevocation(a), a.fault);
  }

  lemma RecordedQuarantineIsSealed(cs: Codecs, fs: Files, a: Op)
    requires Safe(cs) && Sound(fs, cs) && RecordedQuarantine(cs, fs, a)
    ensures QuarantineSealed(cs, Effect(cs, fs, a), StoredQuarantine(a))
  {
    QuarantineSeals(fs, cs, StoredQuarantine(a), a.fault);
  }

  lemma SealedRevocationRefuses(cs: Codecs, fs: Files, a: Op, r: Revocation)
    requires RevocationSealed(cs, fs, r) && a.Promote?
    requires Covers(r.digest, r.environment, a.promotion.digest, a.promotion.environment)
    ensures !GoesThrough(cs, fs, a)
  {
    SealedRevocationBlocks(fs, cs, r, a.promotion, a.now);
  }

  lemma SealedQuarantineRefuses(cs: Codecs, fs: Files, a: Op, q: Records.Quarantine)
    requires QuarantineSealed(cs, fs, q) && a.Promote?
    requires Covers(q.digest, q.environment, a.promotion.digest, a.promotion.environment)
    ensures !GoesThrough(cs, fs, a)
  {
    SealedQuarantineBlocks(fs, cs, q, a.promotion, a.now);
  }

  // No promotion after a covering revocation.

  /** A restore that has reached the revocation log. */
  predicate ReplacesRevocations(a: Op) {
    a.Restore? || (a.RestoreCut? && a.removed >= 3)
  }

  /** Only a restore takes anything off the revocation log. */
  lemma RevocationsOnlyGrow(cs: Codecs, fs: Files, a: Op)
    requires !ReplacesRevocations(a)
    ensures Content(fs.revocations) <= Content(Effect(cs, fs, a).revocations)
  {
  }

  lemma StepKeepsRevocation(cs: Codecs, fs: Files, a: Op, r: Revocation)
    requires RevocationSealed(cs, fs, r) && !ReplacesRevocations(a)
    ensures RevocationSealed(cs, Effect(cs, fs, a), r)
  {
    RevocationsOnlyGrow(cs, fs, a);
    SealedGrows(Content(fs.revocations), Content(Effect(cs, fs, a).revocations), r, cs.revocation);
  }

  lemma {:induction false} RunKeepsRevocation(cs: Codecs, fs: Files, run: seq<Op>, r: Revocation, j: nat, i: nat)
    requires j <= i <= |run|
    requires forall k | j <= k < i :: !ReplacesRevocations(run[k])
    requires RevocationSealed(cs, Run(cs, fs, run[..j]), r)
    ensures RevocationSealed(cs, Run(cs, fs, run[..i]), r)
    decreases i
  {
    if j < i {
      RunKeepsRevocation(cs, fs, run, r, j, i - 1);
      NextKeepsRevocation(cs, fs, run, r, i - 1);
    }
  }

  lemma NextKeepsRevocation(cs: Codecs, fs: Files, run: seq<Op>, r: Revocation, i: nat)
    requires i < |run| && !ReplacesRevocations(run[i]) && RevocationSealed(cs, Run(cs, fs, run[..i]), r)
    ensures RevocationSealed(cs, Run(cs, fs, run[..i + 1]), r)
  {
    RunStep(cs, fs, run, i);
    StepKeepsRevocation(cs, Run(cs, fs, run[..i]), run[i], r);
  }

  /** A recorded revocation stays sealed until a restore reaches its log. */
  lemma RecordedStaysSealed(cs: Codecs, fs: Files, run: seq<Op>, j: nat, i: nat)
    requires Safe(cs) && Sound(fs, cs)
    requires j < i <= |run| && Recorded(cs, Run(cs, fs, run[..j]), run[j])
    requires forall k | j < k < i :: !ReplacesRevocations(run[k])
    ensures RevocationSealed(cs, Run(cs, fs, run[..i]), StoredRevocation(run[j]))
  {
    RunKeepsSound(cs, fs, run[..j]);
    RecordedIsSealed(cs, Run(cs, fs, run[..j]), run[j]);
    RunStep(cs, fs, run, j);
    RunKeepsRevocation(cs, fs, run, StoredRevocation(run[j]), j + 1, i);
  }

  /** Over every interleaving, with every torn write: once a revocation has been recorded,
      every later promotion it covers is refused, until a restore. It does not matter when
      the ALLOW decision was taken or saved, and it is the caller's record that counts. */
  lemma RevocationWins(cs: Codecs, fs: Files, run: seq<Op>, j: nat, i: nat)
    requires Safe(cs) && Sound(fs, cs)
    requires j < i < |run| && run[i].Promote?
    requires Recorded(cs, Run(cs, fs, run[..j]), run[j])
    requires Covers(run[j].revocation.digest, run[j].revocation.environment,
                    run[i].promotion.digest, run[i].promotion.environment)
    requires forall k | j < k < i :: !ReplacesRevocations(run[k])
    ensures !GoesThrough(cs, Run(cs, fs, run[..i]), run[i])
  {
    RecordedStaysSealed(cs, fs, run, j, i);
    SealedRevocationRefuses(cs, Run(cs, fs, run[..i]), run[i], StoredRevocation(run[j]));
  }

  // No promotion under a quarantine that was not lifted.

  /** The actions that may take a quarantine record off the log: a Restore, an Unquarantine
      that names it, and an Unquarantine whose rewrite was interrupted. */
  ghost predicate MayDrop(cs: Codecs, fs: Files, a: Op, q: Records.Quarantine) {
    || a.Restore? || (a.RestoreCut? && a.removed >= 4)
    || (a.Unquarantine? && (a.target == q.id || a.target == q.digest || RewriteFails(cs, fs, a)))
  }

  ghost predicate RewriteFails(cs: Codecs, fs: Files, a: Op)
    requires a.Unquarantine?
  {
    ReadFile(fs.quarantines, cs.quarantine).Ok? && Disk.Unquarantine(fs, cs, a.target, a.faults).1.Some?
  }

  lemma QuarantinesOnlyGrow(cs: Codecs, fs: Files, a: Op)
    requires !a.Restore? && !a.Unquarantine? && !(a.RestoreCut? && a.removed >= 4)
    ensures Content(fs.quarantines) <= Content(Effect(cs, fs, a).quarantines)
  {
  }

  lemma OtherUnquarantine(cs: Codecs, fs: Files, a: Op, q: Records.Quarantine)
    requires Safe(cs) && QuarantineSealed(cs, fs, q)
    requires a.Unquarantine? && !MayDrop(cs, fs, a, q)
    ensures QuarantineSealed(cs, Effect(cs, fs, a), q)
  {
    UnquarantineSeals(fs, cs, a.target, a.faults, q);
  }

  lemma StepKeepsQuarantine(cs: Codecs, fs: Files, a: Op, q: Records.Quarantine)
    requires Safe(cs) && QuarantineSealed(cs, fs, q) && !MayDrop(cs, fs, a, q)
    ensures QuarantineSealed(cs, Effect(cs, fs, a), q)
  {
    if a.Unquarantine? {
      OtherUnquarantine(cs, fs, a, q);
    } else {
      QuarantinesOnlyGrow(cs, fs, a);
      SealedGrows(Content(fs.quarantines), Content(Effect(cs, fs, a).quarantines), q, cs.quarantine);
    }
  }

  /** The k-th action of the run may take the record off the log. */
  ghost predicate LiftedAt(cs: Codecs, fs: Files, run: seq<Op>, k: nat, q: Records.Quarantine)
    requires k < |run|
  {
    MayDrop(cs, Run(cs, fs, run[..k]), run[k], q)
  }

  /** No action from the j-th to before the i-th may take the record off the log. */
  ghost predicate NeverLifted(cs: Codecs, fs: Files, run: seq<Op>, j: nat, i: nat, q: Records.Quarantine)
    requires i <= |run|
  {
    forall k | j <= k < i :: !LiftedAt(cs, fs, run, k, q)
  }

  lemma {:induction false} RunKeepsQuarantine(cs: Codecs, fs: Files, run: seq<Op>, q: Records.Quarantine,
                                              j: nat, i: nat, n: nat)
    requires Safe(cs) && j <= n <= i <= |run| && NeverLifted(cs, fs, run, j, i, q)
    requires QuarantineSealed(cs, Run(cs, fs, run[..j]), q)
    ensures QuarantineSealed(cs, Run(cs, fs, run[..n]), q)
    decreases n
  {
    if j < n {
      RunKeepsQuarantine(cs, fs, run, q, j, i, n - 1);
      NextKeepsQuarantine(cs, fs, run, q, j, i, n - 1);
    }
  }

  lemma NextKeepsQuarantine(cs: Codecs, fs: Files, run: seq<Op>, q: Records.Quarantine, j: nat, i: nat, k: nat)
    requires Safe(cs) && j <= k < i <= |run| && NeverLifted(cs, fs, run, j, i, q)
    requires QuarantineSealed(cs, Run(cs, fs, run[..k]), q)
    ensures QuarantineSealed(cs, Run(cs, fs, run[..k + 1]), q)
  {
    assert !LiftedAt(cs, fs, run, k, q);
    RunStep(cs, fs, run, k);
    StepKeepsQuarantine(cs, Run(cs, fs, run[..k]), run[k], q);
  }

  /** A recorded quarantine stays sealed unless some action lifts it. */
  lemma RecordedQuarantineStays(cs: Codecs, fs: Files, run: seq<Op>, j: nat, i: nat)
    requires Safe(cs) && Sound(fs, cs)
    requires j < i <= |run| && RecordedQuarantine(cs, Run(cs, fs, run[..j]), run[j])
    ensures QuarantineSealed(cs, Run(cs, fs, run[..i]), StoredQuarantine(run[j]))
         || exists k :: j < k < i && LiftedAt(cs, fs, run, k, StoredQuarantine(run[j]))
  {
    var q := StoredQuarantine(run[j]);
    RunKeepsSound(cs, fs, run[..j]);
    RecordedQuarantineIsSealed(cs, Run(cs, fs, run[..j]), run[j]);
    RunStep(cs, fs, run, j);
    if NeverLifted(cs, fs, run, j + 1, i, q) {
      RunKeepsQuarantine(cs, fs, run, q, j + 1, i, i);
    }
  }

  /** Between a recorded quarantine and any promotion it covers that goes through, some
      action lifted the quarantine. */
  lemma QuarantineWasLifted(cs: Codecs, fs: Files, run: seq<Op>, j: nat, i: nat)
    requires Safe(cs) && Sound(fs, cs)
    requires j < i < |run| && GoesThrough(cs, Run(cs, fs, run[..i]), run[i])
    requires RecordedQuarantine(cs, Run(cs, fs, run[..j]), run[j])
    requires Covers(run[j].quarantine.digest, run[j].quarantine.environment,
                    run[i].promotion.digest, run[i].promotion.environment)
    ensures exists k :: j < k < i && LiftedAt(cs, fs, run, k, StoredQuarantine(run[j]))
  {
    RecordedQuarantineStays(cs, fs, run, j, i);
    if QuarantineSealed(cs, Run(cs, fs, run[..i]), StoredQuarantine(run[j])) {
      SealedQuarantineRefuses(cs, Run(cs, fs, run[..i]), run[i], StoredQuarantine(run[j]));
    }
  }

  // Provenance over whole runs.

  /** A restore is given a backup with provenance, or no backup at all, and is not cut right
      after the decision log is gone while promotions can be read. */
  ghost predicate RestoreJustified(cs: Codecs, fs: Files, a: Op) {
    && (a.Restore? && cs.backup.dec(a.data).Some? ==> JustifiedBackup(cs.backup.dec(a.data).value))
    && !CutBare(cs, fs, a)
  }

  /** The crash leaves promotions over a decision log that is gone. */
  ghost predicate CutBare(cs: Codecs, fs: Files, a: Op) {
    a.RestoreCut? && a.removed == 1 && HasRecords(ReadFile(fs.promotions, cs.promotion))
  }

  lemma StepKeepsProvenance(cs: Codecs, fs: Files, a: Op)
    requires Safe(cs) && Sound(fs, cs) && Provenance(fs, cs) && RestoreJustified(cs, fs, a)
    ensures Provenance(Effect(cs, fs, a), cs)
  {
    if a.Save? {
      SaveStepKeepsProvenance(cs, fs, a);
    } else if a.Promote? {
      PromoteKeepsProvenance(fs, cs, a.promotion, a.id, a.now, a.stampedAt, a.fault);
    } else if a.Restore? {
      RestoreStepKeepsProvenance(cs, fs, a);
    } else if a.RestoreCut? {
      CutProvenanceExactly(fs, cs, a.removed);
    } else {
      OthersKeepDecisionsAndPromotions(cs, fs, a);
    }
  }

  lemma SaveStepKeepsProvenance(cs: Codecs, fs: Files, a: Op)
    requires Safe(cs) && Sound(fs, cs) && Provenance(fs, cs) && a.Save?
    ensures Provenance(Effect(cs, fs, a), cs)
  {
    SaveKeepsProvenance(fs, cs, a.decision, a.fault);
  }

  lemma RestoreStepKeepsProvenance(cs: Codecs, fs: Files, a: Op)
    requires Safe(cs) && Provenance(fs, cs) && a.Restore? && RestoreJustified(cs, fs, a)
    ensures Provenance(Effect(cs, fs, a), cs)
  {
    RestoreDataKeepsProvenance(fs, cs, a.data, a.faults);
    RestoreIsEffect(cs, fs, a);
  }

  lemma OthersKeepDecisionsAndPromotions(cs: Codecs, fs: Files, a: Op)
    requires !a.Save? && !a.Promote? && !a.Restore? && !a.RestoreCut?
    ensures Effect(cs, fs, a).decisions == fs.decisions
    ensures Effect(cs, fs, a).promotions == fs.promotions
  {
  }

  ghost predicate RestoreJustifiedAt(cs: Codecs, fs: Files, run: seq<Op>, k: nat)
    requires k < |run|
  {
    RestoreJustified(cs, Run(cs, fs, run[..k]), run[k])
  }

  /** In every reachable state, every promotion that can be read has a first-match decision
      that is ALLOW for its digest and environment. */
  lemma {:induction false} RunKeepsProvenance(cs: Codecs, fs: Files, run: seq<Op>, n: nat)
    requires Safe(cs) && Sound(fs, cs) && Provenance(fs, cs)
    requires n <= |run| && forall k | 0 <= k < n :: RestoreJustifiedAt(cs, fs, run, k)
    ensures Provenance(Run(cs, fs, run[..n]), cs)
  {
    if n > 0 {
      RunKeepsProvenance(cs, fs, run, n - 1);
      assert RestoreJustifiedAt(cs, fs, run, n - 1);
      RunKeepsSound(cs, fs, run[..n - 1]);
      RunStep(cs, fs, run, n - 1);
      StepKeepsProvenance(cs, Run(cs, fs, run[..n - 1]), run[n - 1]);
    }
  }

  /** The backup a Restore is given was taken earlier in the same run, and no restore is cut
      between removing decisions and removing promotions. */
  ghost predicate OwnBackup(cs: Codecs, fs: Files, run: seq<Op>, i: nat)
    requires i < |run|
  {
    && !CutBare(cs, Run(cs, fs, run[..i]), run[i])
    && (run[i].Restore? ==>
          exists k: nat, now :: k <= i && Backup(Run(cs, fs, run[..k]), cs, now) == Ok(run[i].data))
  }

  /** Provenance survives Restores too, complete or interrupted, as long as each is given a
      backup taken earlier in the run. */
  lemma {:induction false} RunWithBackupsKeepsProvenance(cs: Codecs, fs: Files, run: seq<Op>, n: nat)
    requires Safe(cs) && Invertible(cs.backup) && Sound(fs, cs) && Provenance(fs, cs)
    requires n <= |run| && forall i | 0 <= i < n :: OwnBackup(cs, fs, run, i)
    ensures Provenance(Run(cs, fs, run[..n]), cs)
  {
    if n > 0 {
      RunWithBackupsKeepsProvenance(cs, fs, run, n - 1);
      RunKeepsSound(cs, fs, run[..n - 1]);
      RunStep(cs, fs, run, n - 1);
      assert OwnBackup(cs, fs, run, n - 1);
      if run[n - 1].Restore? {
        var k: nat, now :| k <= n - 1 && Backup(Run(cs, fs, run[..k]), cs, now) == Ok(run[n - 1].data);
        RunWithBackupsKeepsProvenance(cs, fs, run, k);
        OwnBackupIsJustified(cs, Run(cs, fs, run[..k]), run[n - 1], now);
      }
      StepKeepsProvenance(cs, Run(cs, fs, run[..n - 1]), run[n - 1]);
    }
  }

  lemma OwnBackupIsJustified(cs: Codecs, fs: Files, a: Op, now: Time)
    requires Invertible(cs.backup) && Provenance(fs, cs)
    requires a.Restore? && Backup(fs, cs, now) == Ok(a.data)
    ensures forall later: Files :: RestoreJustified(cs, later, a)
  {
    BackupIsJustified(fs, cs, now);
  }
}
