/** What the file store's operations promise about the logs that can be read back. */
module FileLaws {
  import opened Wrappers
  import opened Records
  import opened LineLog
  import opened Ledger
  import opened Disk

  /** Every log ends as appends, complete or interrupted, leave it. */
  ghost predicate Sound(fs: Files, cs: Codecs) {
    && TailSound(Content(fs.decisions), cs.decision)
    && TailSound(Content(fs.promotions), cs.promotion)
    && TailSound(Content(fs.revocations), cs.revocation)
    && TailSound(Content(fs.quarantines), cs.quarantine)
  }

  lemma EmptySound<T(!new)>(c: Codec<T>)
    ensures TailSound("", c)
  {
    assert Fragments(c, []) && Tail("") == Glue([]);
  }

  // One operation keeps the files sound.

  lemma SaveSound(fs: Files, cs: Codecs, d: Decision, fault: WriteFault)
    requires Safe(cs) && Sound(fs, cs)
    ensures Sound(SaveDecision(fs, cs, d, fault).0, cs)
  {
    AppendKeepsSound(fs.decisions, d, cs.decision, fault);
  }

  lemma PromoteSound(fs: Files, cs: Codecs, p: Promotion, id: string, t: Time, u: Time, fault: WriteFault)
    requires Safe(cs) && Sound(fs, cs)
    ensures Sound(Promote(fs, cs, p, id, t, u, fault).0, cs)
  {
    if PromoteVerdict(fs, cs, p, t).None? {
      AppendKeepsSound(fs.promotions, Stamped(p, id, u), cs.promotion, fault);
    }
  }

  lemma RevokeSound(fs: Files, cs: Codecs, r: Revocation, fault: WriteFault)
    requires Safe(cs) && Sound(fs, cs)
    ensures Sound(Revoke(fs, cs, r, fault).0, cs)
  {
    AppendKeepsSound(fs.revocations, r, cs.revocation, fault);
  }

  lemma QuarantineSound(fs: Files, cs: Codecs, q: Quarantine, fault: WriteFault)
    requires Safe(cs) && Sound(fs, cs)
    ensures Sound(AddQuarantine(fs, cs, q, fault).0, cs)
  {
    AppendKeepsSound(fs.quarantines, q, cs.quarantine, fault);
  }

  lemma UnquarantineSound(fs: Files, cs: Codecs, id: string, faults: Faults)
    requires Safe(cs) && Sound(fs, cs)
    ensures Sound(Unquarantine(fs, cs, id, faults).0, cs)
  {
    var qs := ReadFile(fs.quarantines, cs.quarantine);
    if qs.Ok? {
      RewriteIsPrefix(Filter(qs.value, Spared(id)), cs.quarantine, faults, 3);
    }
  }

  lemma RestoreSound(fs: Files, cs: Codecs, data: string, faults: Faults)
    requires Safe(cs) && Sound(fs, cs)
    ensures Sound(Restore(fs, cs, data, faults).0, cs)
  {
    if cs.backup.dec(data).Some? {
      RestoreOutcome(cs.backup.dec(data).value, cs, faults);
    }
  }

  lemma CutSound(fs: Files, cs: Codecs, removed: nat)
    requires Sound(fs, cs)
    ensures Sound(CutRestore(fs, removed), cs)
  {
    EmptySound(cs.decision);
    EmptySound(cs.promotion);
    EmptySound(cs.revocation);
    EmptySound(cs.quarantine);
  }

  ghost predicate NoFaults(faults: Faults) {
    forall log, n :: faults(log, n) == NoFault
  }

  // Rewriting.

  /** However a rewrite ends, what can be read is a prefix of what was to be written, all of
      it after success; a later append finds the file as appends leave it. */
  ghost predicate Rewritten<T(!new)>(f: File, e: Option<WriteError>, vs: seq<T>, c: Codec<T>) {
    var r := ReadFile(f, c);
    && TailSound(Content(f), c)
    && (r.Ok? ==> r.value <= vs)
    && (e.None? && r.Ok? ==> r.value == vs)
    && (e.None? ==> AtLineStart(Content(f)))
  }

  lemma {:induction false} RewriteIsPrefix<T(!new)>(vs: seq<T>, c: Codec<T>, faults: Faults, log: nat)
    requires LineSafe(c)
    ensures var (f, e) := AppendAll(None, vs, c, faults, log);
            Rewritten(f, e, vs, c)
  {
    if vs == [] {
      EmptySound(c);
    } else {
      var n := |vs| - 1;
      RewriteIsPrefix(vs[..n], c, faults, log);
      var (g, e) := AppendAll(None, vs[..n], c, faults, log);
      if e.None? {
        RewriteOneMore(g, vs, c, faults(log, n));
      } else {
        StillRewritten(g, e, vs, c);
      }
    }
  }

  lemma StillRewritten<T(!new)>(g: File, e: Option<WriteError>, vs: seq<T>, c: Codec<T>)
    requires vs != [] && e.Some? && Rewritten(g, e, vs[..|vs| - 1], c)
    ensures Rewritten(g, e, vs, c)
  {
    assert vs[..|vs| - 1] <= vs;
  }

  lemma RewriteOneMore<T(!new)>(g: File, vs: seq<T>, c: Codec<T>, fault: WriteFault)
    requires LineSafe(c) && vs != []
    requires Rewritten(g, None, vs[..|vs| - 1], c)
    ensures var (f, e) := AppendNDJSON(g, vs[|vs| - 1], c, fault);
            Rewritten(f, e, vs, c)
  {
    var n := |vs| - 1;
    assert vs == vs[..n] + [vs[n]];
    AppendKeepsSound(g, vs[n], c, fault);
    AppendOutcome(g, vs[n], c, fault);
  }

  /** Without faults a rewrite of records that fit the scanner's buffer reads back whole. */
  lemma {:induction false} RewriteReadsBack<T(!new)>(vs: seq<T>, c: Codec<T>, faults: Faults, log: nat)
    requires LineSafe(c) && AllShort(vs, c) && NoFaults(faults)
    ensures var (f, e) := AppendAll(None, vs, c, faults, log);
            e.None? && Content(f) == TextOf(vs, c) && ReadFile(f, c) == Ok(vs)
  {
    RewriteText(vs, c, faults, log);
    ReadBack(vs, c);
  }

  lemma {:induction false} RewriteText<T(!new)>(vs: seq<T>, c: Codec<T>, faults: Faults, log: nat)
    requires AllShort(vs, c) && NoFaults(faults)
    ensures var (f, e) := AppendAll(None, vs, c, faults, log);
            e.None? && Content(f) == TextOf(vs, c)
  {
    if vs != [] {
      var n := |vs| - 1;
      assert vs == vs[..n] + [vs[n]];
      assert vs[n] in vs;
      RewriteText(vs[..n], c, faults, log);
      assert faults(log, n) == NoFault;
    }
  }

  /** A successful Unquarantine leaves exactly the spared records, so the digest or identifier
      it names restricts nothing any more; an interrupted one leaves a prefix of them. */
  lemma UnquarantineOutcome(fs: Files, cs: Codecs, id: string, faults: Faults)
    requires Safe(cs) && ReadFile(fs.quarantines, cs.quarantine).Ok?
    ensures var (after, err) := Unquarantine(fs, cs, id, faults);
            var kept := Filter(ReadFile(fs.quarantines, cs.quarantine).value, Spared(id));
            var r := ReadFile(after.quarantines, cs.quarantine);
            && after == fs.(quarantines := after.quarantines)
            && (r.Ok? ==> r.value <= kept)
            && (err.None? && r.Ok? ==> r.value == kept && forall env :: !Quarantined(r.value, id, env))
            && (NoFaults(faults) && AllShort(kept, cs.quarantine) ==> err.None? && r.Ok?)
  {
    var all := ReadFile(fs.quarantines, cs.quarantine).value;
    var kept := Filter(all, Spared(id));
    RewriteIsPrefix(kept, cs.quarantine, faults, 3);
    if NoFaults(faults) && AllShort(kept, cs.quarantine) {
      RewriteReadsBack(kept, cs.quarantine, faults, 3);
    }
    forall env
      ensures !Quarantined(kept, id, env)
    {
      UnquarantineExactly(all, id, env);
    }
  }

  // Backup and restore.

  /** The logs that can be read are, taken in order, a prefix of the backup's four lists: each
      reads as a prefix of its list, and only behind complete lists as anything at all. */
  ghost predicate ReadsPrefixOf(fs: Files, cs: Codecs, b: BackupData) {
    var ds, ps := ReadFile(fs.decisions, cs.decision), ReadFile(fs.promotions, cs.promotion);
    var rs, qs := ReadFile(fs.revocations, cs.revocation), ReadFile(fs.quarantines, cs.quarantine);
    && (ds.Ok? ==> ds.value <= b.decisions)
    && (ps.Ok? ==> ps.value <= b.promotions)
    && (rs.Ok? ==> rs.value <= b.revocations)
    && (qs.Ok? ==> qs.value <= b.quarantines)
    && (HasRecords(ps) || HasRecords(rs) || HasRecords(qs) ==> WholeIfRead(ds, b.decisions))
    && (HasRecords(rs) || HasRecords(qs) ==> WholeIfRead(ps, b.promotions))
    && (HasRecords(qs) ==> WholeIfRead(rs, b.revocations))
  }

  /** The log reads as a non-empty list. */
  predicate HasRecords<T(==)>(r: Result<seq<T>, ReadError>) {
    r.Ok? && r.value != []
  }

  predicate WholeIfRead<T(==)>(r: Result<seq<T>, ReadError>, vs: seq<T>) {
    r.Ok? ==> r.value == vs
  }

  /** Each log that can be read is the backup's whole list. */
  ghost predicate ReadsWhole(fs: Files, cs: Codecs, b: BackupData) {
    && WholeIfRead(ReadFile(fs.decisions, cs.decision), b.decisions)
    && WholeIfRead(ReadFile(fs.promotions, cs.promotion), b.promotions)
    && WholeIfRead(ReadFile(fs.revocations, cs.revocation), b.revocations)
    && WholeIfRead(ReadFile(fs.quarantines, cs.quarantine), b.quarantines)
  }

  /** A restore that stops at a failing append leaves a prefix of
      decisions ++ promotions ++ revocations ++ quarantines; one that succeeds leaves them all,
      and any restore leaves files that later appends may extend. */
  lemma RestoreOutcome(b: BackupData, cs: Codecs, faults: Faults)
    requires Safe(cs)
    ensures var (fs, err) := RestoreFrom(b, cs, faults);
            Sound(fs, cs) && ReadsPrefixOf(fs, cs, b) && (err.None? ==> ReadsWhole(fs, cs, b))
  {
    var (d, e1) := AppendAll(None, b.decisions, cs.decision, faults, 0);
    RewriteIsPrefix(b.decisions, cs.decision, faults, 0);
    NothingWritten(b.promotions, cs.promotion);
    NothingWritten(b.revocations, cs.revocation);
    NothingWritten(b.quarantines, cs.quarantine);
    if e1.Some? {
      AllRewritten(Files(d, None, None, None), cs, b, e1, e1, e1, e1);
    } else {
      var (p, e2) := AppendAll(None, b.promotions, cs.promotion, faults, 1);
      RewriteIsPrefix(b.promotions, cs.promotion, faults, 1);
      if e2.Some? {
        AllRewritten(Files(d, p, None, None), cs, b, e1, e2, e2, e2);
      } else {
        RestoreRestrictionsOutcome(b, cs, faults, d, p);
      }
    }
  }

  lemma NothingWritten<T(!new)>(vs: seq<T>, c: Codec<T>)
    ensures forall e: Option<WriteError> :: e.Some? ==> Rewritten(None, e, vs, c)
    ensures ReadFile(None, c) == Ok([])
  {
    EmptySound(c);
  }

  lemma RestoreRestrictionsOutcome(b: BackupData, cs: Codecs, faults: Faults, d: File, p: File)
    requires Safe(cs)
    requires Rewritten(d, None, b.decisions, cs.decision) && Rewritten(p, None, b.promotions, cs.promotion)
    ensures var (fs, err) := RestoreRestrictions(b, cs, faults, d, p);
            Sound(fs, cs) && ReadsPrefixOf(fs, cs, b) && (err.None? ==> ReadsWhole(fs, cs, b))
  {
    var (r, e3) := AppendAll(None, b.revocations, cs.revocation, faults, 2);
    RewriteIsPrefix(b.revocations, cs.revocation, faults, 2);
    NothingWritten(b.quarantines, cs.quarantine);
    if e3.Some? {
      AllRewritten(Files(d, p, r, None), cs, b, None, None, e3, e3);
    } else {
      var (q, e4) := AppendAll(None, b.quarantines, cs.quarantine, faults, 3);
      RewriteIsPrefix(b.quarantines, cs.quarantine, faults, 3);
      AllRewritten(Files(d, p, r, q), cs, b, None, None, None, e4);
    }
  }

  /** Four logs rewritten in order, nothing being written after the first failure. */
  lemma AllRewritten(fs: Files, cs: Codecs, b: BackupData,
                     e1: Option<WriteError>, e2: Option<WriteError>, e3: Option<WriteError>, e4: Option<WriteError>)
    requires Rewritten(fs.decisions, e1, b.decisions, cs.decision)
    requires Rewritten(fs.promotions, e2, b.promotions, cs.promotion)
    requires Rewritten(fs.revocations, e3, b.revocations, cs.revocation)
    requires Rewritten(fs.quarantines, e4, b.quarantines, cs.quarantine)
    requires e1.Some? ==> fs.promotions.None? && fs.revocations.None? && fs.quarantines.None?
    requires e2.Some? ==> fs.revocations.None? && fs.quarantines.None?
    requires e3.Some? ==> fs.quarantines.None?
    ensures Sound(fs, cs) && ReadsPrefixOf(fs, cs, b)
    ensures e1.None? && e2.None? && e3.None? && e4.None? ==> ReadsWhole(fs, cs, b)
  {
    NothingWritten(b.promotions, cs.promotion);
    NothingWritten(b.revocations, cs.revocation);
    NothingWritten(b.quarantines, cs.quarantine);
  }

  /** The four logs as records, when all four can be read. */
  ghost predicate Reads(fs: Files, cs: Codecs, ds: seq<Decision>, ps: seq<Promotion>,
                        rs: seq<Revocation>, qs: seq<Quarantine>)
  {
    && ReadFile(fs.decisions, cs.decision) == Ok(ds)
    && ReadFile(fs.promotions, cs.promotion) == Ok(ps)
    && ReadFile(fs.revocations, cs.revocation) == Ok(rs)
    && ReadFile(fs.quarantines, cs.quarantine) == Ok(qs)
  }

  /** Restoring a backup of one directory over any other makes its four logs read exactly
      as the first directory's did. */
  lemma BackupThenRestore(fs: Files, other: Files, cs: Codecs, now: Time, faults: Faults,
                          ds: seq<Decision>, ps: seq<Promotion>, rs: seq<Revocation>, qs: seq<Quarantine>)
    requires Safe(cs) && Invertible(cs.backup) && NoFaults(faults)
    requires Reads(fs, cs, ds, ps, rs, qs)
    requires AllShort(ds, cs.decision) && AllShort(ps, cs.promotion)
    requires AllShort(rs, cs.revocation) && AllShort(qs, cs.quarantine)
    requires Backup(fs, cs, now).Ok?
    ensures var (after, err) := Restore(other, cs, Backup(fs, cs, now).value, faults);
            err.None? && Reads(after, cs, ds, ps, rs, qs)
  {
    var b := BackupData(now, ds, ps, rs, qs);
    assert Backup(fs, cs, now).value == cs.backup.enc(b).value;
    assert cs.backup.dec(Backup(fs, cs, now).value) == Some(b);
    RestoreReadsBack(b, cs, faults);
  }

  lemma RestoreReadsBack(b: BackupData, cs: Codecs, faults: Faults)
    requires Safe(cs) && NoFaults(faults)
    requires AllShort(b.decisions, cs.decision) && AllShort(b.promotions, cs.promotion)
    requires AllShort(b.revocations, cs.revocation) && AllShort(b.quarantines, cs.quarantine)
    ensures var (after, err) := RestoreFrom(b, cs, faults);
            err.None? && Reads(after, cs, b.decisions, b.promotions, b.revocations, b.quarantines)
  {
    RewriteReadsBack(b.decisions, cs.decision, faults, 0);
    RewriteReadsBack(b.promotions, cs.promotion, faults, 1);
    var d := AppendAll(None, b.decisions, cs.decision, faults, 0).0;
    var p := AppendAll(None, b.promotions, cs.promotion, faults, 1).0;
    RestrictionsReadBack(b, cs, faults, d, p);
  }

  lemma RestrictionsReadBack(b: BackupData, cs: Codecs, faults: Faults, d: File, p: File)
    requires Safe(cs) && NoFaults(faults)
    requires ReadFile(d, cs.decision) == Ok(b.decisions) && ReadFile(p, cs.promotion) == Ok(b.promotions)
    requires AllShort(b.revocations, cs.revocation) && AllShort(b.quarantines, cs.quarantine)
    ensures var (after, err) := RestoreRestrictions(b, cs, faults, d, p);
            err.None? && Reads(after, cs, b.decisions, b.promotions, b.revocations, b.quarantines)
  {
    RewriteReadsBack(b.revocations, cs.revocation, faults, 2);
    RewriteReadsBack(b.quarantines, cs.quarantine, faults, 3);
  }

  // Provenance.

  /** Every readable promotion rests on a first-match ALLOW for its digest and environment. */
  ghost predicate Provenance(fs: Files, cs: Codecs) {
    var ds, ps := ReadFile(fs.decisions, cs.decision), ReadFile(fs.promotions, cs.promotion);
    ds.Ok? && ps.Ok? ==> forall p | p in ps.value :: Justified(ds.value, p)
  }

  ghost predicate JustifiedBackup(b: BackupData) {
    forall p | p in b.promotions :: Justified(b.decisions, p)
  }

  /** A backup taken from a state with provenance carries it. */
  lemma BackupIsJustified(fs: Files, cs: Codecs, now: Time)
    requires Invertible(cs.backup) && Provenance(fs, cs) && Backup(fs, cs, now).Ok?
    ensures cs.backup.dec(Backup(fs, cs, now).value).Some?
    ensures JustifiedBackup(cs.backup.dec(Backup(fs, cs, now).value).value)
  {
    var ds, ps := ReadFile(fs.decisions, cs.decision), ReadFile(fs.promotions, cs.promotion);
    var rs, qs := ReadFile(fs.revocations, cs.revocation), ReadFile(fs.quarantines, cs.quarantine);
    var b := BackupData(now, ds.value, ps.value, rs.value, qs.value);
    assert cs.backup.dec(cs.backup.enc(b).value) == Some(b);
  }

  /** Restoring it keeps provenance, even when the restore is interrupted: decisions are
      written before promotions. */
  lemma RestoreKeepsProvenance(b: BackupData, cs: Codecs, faults: Faults)
    requires Safe(cs) && JustifiedBackup(b)
    ensures Provenance(RestoreFrom(b, cs, faults).0, cs)
  {
    RestoreOutcome(b, cs, faults);
    var after := RestoreFrom(b, cs, faults).0;
    var ds, ps := ReadFile(after.decisions, cs.decision), ReadFile(after.promotions, cs.promotion);
    if ds.Ok? && ps.Ok? {
      forall p | p in ps.value
        ensures Justified(ds.value, p)
      {
        assert p in b.promotions;
        assert ds.value == b.decisions;
      }
    }
  }

  /** A crash between the removals breaks provenance exactly when it comes right after the
      decision log is gone and promotions can still be read: they are removed later. */
  lemma CutProvenanceExactly(fs: Files, cs: Codecs, removed: nat)
    requires Provenance(fs, cs)
    ensures Provenance(CutRestore(fs, removed), cs)
       <==> removed != 1 || !HasRecords(ReadFile(fs.promotions, cs.promotion))
  {
    EmptySound(cs.decision);
    EmptySound(cs.promotion);
    var ps := ReadFile(fs.promotions, cs.promotion);
    if removed == 1 && HasRecords(ps) {
      assert ps.value[0] in ps.value && !Justified([], ps.value[0]);
    }
  }

  lemma RestoreDataKeepsProvenance(fs: Files, cs: Codecs, data: string, faults: Faults)
    requires Safe(cs) && Provenance(fs, cs)
    requires cs.backup.dec(data).Some? ==> JustifiedBackup(cs.backup.dec(data).value)
    ensures Provenance(Restore(fs, cs, data, faults).0, cs)
  {
    if cs.backup.dec(data).Some? {
      RestoreKeepsProvenance(cs.backup.dec(data).value, cs, faults);
    }
  }

  lemma SaveKeepsProvenance(fs: Files, cs: Codecs, d: Decision, fault: WriteFault)
    requires Safe(cs) && Sound(fs, cs) && Provenance(fs, cs)
    ensures Provenance(SaveDecision(fs, cs, d, fault).0, cs)
  {
    var after := SaveDecision(fs, cs, d, fault).0;
    AppendOutcome(fs.decisions, d, cs.decision, fault);
    var before, ds := ReadFile(fs.decisions, cs.decision), ReadFile(after.decisions, cs.decision);
    var ps := ReadFile(after.promotions, cs.promotion);
    if ds.Ok? && ps.Ok? {
      forall p | p in ps.value
        ensures Justified(ds.value, p)
      {
        FirstMatchStays(before.value, ds.value, p.decisionId);
      }
    }
  }

  lemma PromoteKeepsProvenance(fs: Files, cs: Codecs, p: Promotion, id: string, t: Time, u: Time, fault: WriteFault)
    requires Safe(cs) && Sound(fs, cs) && Provenance(fs, cs)
    ensures Provenance(Promote(fs, cs, p, id, t, u, fault).0, cs)
  {
    if PromoteVerdict(fs, cs, p, t).None? {
      AppendOutcome(fs.promotions, Stamped(p, id, u), cs.promotion, fault);
      assert Justified(ReadFile(fs.decisions, cs.decision).value, Stamped(p, id, u));
    }
  }

  // A restriction that was recorded blocks promotion.

  /** A sealed covering revocation refuses the promotion, whatever else holds. */
  lemma SealedRevocationBlocks(fs: Files, cs: Codecs, r: Revocation, p: Promotion, now: Time)
    requires Sealed(Content(fs.revocations), r, cs.revocation)
    requires Covers(r.digest, r.environment, p.digest, p.environment)
    ensures PromoteVerdict(fs, cs, p, now).Some?
  {
    SealedIsRead(Content(fs.revocations), r, cs.revocation);
  }

  lemma SealedQuarantineBlocks(fs: Files, cs: Codecs, q: Quarantine, p: Promotion, now: Time)
    requires Sealed(Content(fs.quarantines), q, cs.quarantine)
    requires Covers(q.digest, q.environment, p.digest, p.environment)
    ensures PromoteVerdict(fs, cs, p, now).Some?
  {
    SealedIsRead(Content(fs.quarantines), q, cs.quarantine);
  }

  /** A successful Unquarantine that does not name the record keeps it sealed. */
  lemma UnquarantineKeepsOthers(fs: Files, cs: Codecs, id: string, faults: Faults, q: Quarantine)
    requires Safe(cs) && Sealed(Content(fs.quarantines), q, cs.quarantine)
    requires q.id != id && q.digest != id
    requires Unquarantine(fs, cs, id, faults).1.None?
    ensures Sealed(Content(Unquarantine(fs, cs, id, faults).0.quarantines), q, cs.quarantine)
  {
    SealedIsRead(Content(fs.quarantines), q, cs.quarantine);
    var all := ReadFile(fs.quarantines, cs.quarantine).value;
    var kept := Filter(all, Spared(id));
    FilterMember(all, Spared(id), q);
    RewriteIsPrefix(kept, cs.quarantine, faults, 3);
    var text := Content(AppendAll(None, kept, cs.quarantine, faults, 3).0);
    assert text[..|text|] == text;
  }

  /** A recorded revocation is sealed. */
  lemma RevokeSeals(fs: Files, cs: Codecs, r: Revocation, fault: WriteFault)
    requires Safe(cs) && Sound(fs, cs)
    requires Revoke(fs, cs, r, fault).1.None?
    ensures Sealed(Content(Revoke(fs, cs, r, fault).0.revocations), r, cs.revocation)
  {
    AppendSeals(fs.revocations, r, cs.revocation, fault);
  }

  lemma QuarantineSeals(fs: Files, cs: Codecs, q: Quarantine, fault: WriteFault)
    requires Safe(cs) && Sound(fs, cs)
    requires AddQuarantine(fs, cs, q, fault).1.None?
    ensures Sealed(Content(AddQuarantine(fs, cs, q, fault).0.quarantines), q, cs.quarantine)
  {
    AppendSeals(fs.quarantines, q, cs.quarantine, fault);
  }

  /** A failed or unreadable Unquarantine aside, only a record it names can leave the log. */
  lemma UnquarantineSeals(fs: Files, cs: Codecs, id: string, faults: Faults, q: Quarantine)
    requires Safe(cs) && Sealed(Content(fs.quarantines), q, cs.quarantine)
    requires q.id != id && q.digest != id
    requires ReadFile(fs.quarantines, cs.quarantine).Ok? ==> Unquarantine(fs, cs, id, faults).1.None?
    ensures Sealed(Content(Unquarantine(fs, cs, id, faults).0.quarantines), q, cs.quarantine)
  {
    if ReadFile(fs.quarantines, cs.quarantine).Ok? {
      UnquarantineKeepsOthers(fs, cs, id, faults, q);
    }
  }

  // Errors.

  /** A promotion that passes its guards and meets no fault adds exactly its stamped record's
      line; one that is refused changes nothing and is told why. */
  lemma PromoteStores(fs: Files, cs: Codecs, p: Promotion, id: string, t: Time, u: Time, fault: WriteFault)
    ensures var (after, err) := Promote(fs, cs, p, id, t, u, fault);
            var v := PromoteVerdict(fs, cs, p, t);
            && after == fs.(promotions := after.promotions)
            && (v.Some? ==> after == fs && err == v)
            && (v.None? ==> (err.None? <==> cs.promotion.enc(Stamped(p, id, u)).Some? && fault == NoFault))
            && (v.None? && err.None? ==>
                  Content(after.promotions) == Content(fs.promotions) + LineOf(Stamped(p, id, u), cs.promotion))
  {
    AppendReports(fs.promotions, Stamped(p, id, u), cs.promotion, fault);
  }

  /** An Unquarantine that cannot read the log and a Restore that cannot decode its document
      change nothing and report it. */
  lemma FailedRewritesChangeNothing(fs: Files, cs: Codecs, id: string, data: string, faults: Faults)
    ensures ReadFile(fs.quarantines, cs.quarantine).Err? ==>
              Unquarantine(fs, cs, id, faults).0 == fs && Unquarantine(fs, cs, id, faults).1.Some?
    ensures cs.backup.dec(data).None? ==>
              Restore(fs, cs, data, faults).0 == fs && Restore(fs, cs, data, faults).1.Some?
  {
  }

  /** A backup succeeds exactly when all four logs can be read and the document can be encoded,
      and then it carries the four lists and its time. */
  lemma BackupExactly(fs: Files, cs: Codecs, now: Time, doc: string)
    ensures Backup(fs, cs, now) == Ok(doc)
       <==> exists ds, ps, rs, qs ::
              Reads(fs, cs, ds, ps, rs, qs) && cs.backup.enc(BackupData(now, ds, ps, rs, qs)) == Some(doc)
  {
    if Backup(fs, cs, now) == Ok(doc) {
      assert Reads(fs, cs, ReadFile(fs.decisions, cs.decision).value, ReadFile(fs.promotions, cs.promotion).value,
                   ReadFile(fs.revocations, cs.revocation).value, ReadFile(fs.quarantines, cs.quarantine).value);
    }
  }
}
