/** The file-backed store. Each method is one critical section of its lock. */
module FileStore {
  import opened Wrappers
  import opened Records
  import opened LineLog
  import opened Ledger
  import F = Disk

  class FileStore {
    const cs: F.Codecs
    var decisions: File
    var promotions: File
    var revocations: File
    var quarantines: File

    /** The data directory as it stands. */
    function Disk(): F.Files
      reads this
    {
      F.Files(decisions, promotions, revocations, quarantines)
    }

    constructor (cs: F.Codecs, disk: F.Files)
      ensures this.cs == cs && Disk() == disk
    {
      this.cs := cs;
      decisions, promotions := disk.decisions, disk.promotions;
      revocations, quarantines := disk.revocations, disk.quarantines;
    }

    method SaveDecision(d: Decision, fault: WriteFault) returns (err: Option<F.StoreError>)
      modifies this
      ensures (Disk(), err) == F.SaveDecision(old(Disk()), cs, d, fault)
    {
      var (f, e) := AppendNDJSON(decisions, d, cs.decision, fault);
      decisions := f;
      err := F.Failure(e);
    }

    method GetDecisions() returns (r: Result<seq<Decision>, ReadError>)
      ensures r == ReadFile(decisions, cs.decision)
    {
      r := ReadNDJSON(decisions, cs.decision);
    }

    /** The scan for the first decision with an identifier. */
    method FindDecision(ds: seq<Decision>, id: string) returns (found: Option<Decision>)
      ensures found == FirstMatch(ds, id)
    {
      found := None;
      for i := 0 to |ds|
        invariant found.None?
        invariant forall k | 0 <= k < i :: ds[k].decisionId != id
      {
        if ds[i].decisionId == id {
          FirstMatchAt(ds, id, i);
          return Some(ds[i]);
        }
      }
      NoMatch(ds, id);
    }

    method AnyRevocation(rs: seq<Revocation>, digest: string, env: string) returns (held: bool)
      ensures held <==> Revoked(rs, digest, env)
    {
      for i := 0 to |rs|
        invariant forall k | 0 <= k < i :: !Covers(rs[k].digest, rs[k].environment, digest, env)
      {
        if rs[i].digest == digest && (rs[i].environment == "" || rs[i].environment == env) {
          assert rs[i] in rs && Covers(rs[i].digest, rs[i].environment, digest, env);
          return true;
        }
      }
      return false;
    }

    method AnyQuarantine(qs: seq<Quarantine>, digest: string, env: string) returns (held: bool)
      ensures held <==> Quarantined(qs, digest, env)
    {
      for i := 0 to |qs|
        invariant forall k | 0 <= k < i :: !Covers(qs[k].digest, qs[k].environment, digest, env)
      {
        if qs[i].digest == digest && (qs[i].environment == "" || qs[i].environment == env) {
          assert qs[i] in qs && Covers(qs[i].digest, qs[i].environment, digest, env);
          return true;
        }
      }
      return false;
    }

    /** `checkedAt` and `stampedAt` are the two clock readings, `id` the random identifier. */
    method Promote(p: Promotion, id: string, checkedAt: Time, stampedAt: Time, fault: WriteFault)
      returns (err: Option<F.StoreError>)
      modifies this
      ensures (Disk(), err) == F.Promote(old(Disk()), cs, p, id, checkedAt, stampedAt, fault)
    {
      err := CheckPromotion(p, checkedAt);
      if err.Some? {
        return;
      }
      var record := p;
      if record.id == "" {
        record := record.(id := id);
      }
      if record.promotedAt == ZERO_TIME {
        record := record.(promotedAt := stampedAt);
      }
      var (f, e) := AppendNDJSON(promotions, record, cs.promotion, fault);
      promotions := f;
      err := F.Failure(e);
    }

    /** The guards of Promote, in order. */
    method CheckPromotion(p: Promotion, now: Time) returns (err: Option<F.StoreError>)
      ensures err == F.PromoteVerdict(Disk(), cs, p, now)
    {
      if p.decisionId == "" {
        return Some(F.Refused(MissingDecisionId));
      }
      var ds := ReadNDJSON(decisions, cs.decision);
      if ds.Err? {
        return Some(F.Unreadable(ds.error));
      }
      var found := FindDecision(ds.value, p.decisionId);
      if found.None? {
        return Some(F.Refused(DecisionNotFound));
      }
      var d := found.value;
      if d.outcome != Allow {
        return Some(F.Refused(DecisionNotAllow));
      }
      if d.subject.digest != p.digest {
        return Some(F.Refused(DigestMismatch));
      }
      if d.environment != p.environment {
        return Some(F.Refused(EnvironmentMismatch));
      }
      if d.expiresAt != ZERO_TIME && now > d.expiresAt {
        return Some(F.Refused(DecisionExpired));
      }
      err := CheckRestrictions(p);
    }

    method CheckRestrictions(p: Promotion) returns (err: Option<F.StoreError>)
      ensures err == F.RestrictionVerdict(Disk(), cs, p)
    {
      var rs := ReadNDJSON(revocations, cs.revocation);
      if rs.Err? {
        return Some(F.Unreadable(rs.error));
      }
      var revoked := AnyRevocation(rs.value, p.digest, p.environment);
      if revoked {
        return Some(F.Refused(RevokedHere));
      }
      var qs := ReadNDJSON(quarantines, cs.quarantine);
      if qs.Err? {
        return Some(F.Unreadable(qs.error));
      }
      var quarantined := AnyQuarantine(qs.value, p.digest, p.environment);
      if quarantined {
        return Some(F.Refused(QuarantinedHere));
      }
      return None;
    }

    /** All promotions, or those of one environment. */
    method GetPromotions(env: string) returns (r: Result<seq<Promotion>, ReadError>)
      ensures var all := ReadFile(promotions, cs.promotion);
              r == if all.Err? || env == "" then all
                   else Ok(Filter(all.value, (p: Promotion) => p.environment == env))
    {
      var all := ReadNDJSON(promotions, cs.promotion);
      if all.Err? || env == "" {
        return all;
      }
      var keep := (p: Promotion) => p.environment == env;
      var filtered: seq<Promotion> := [];
      for i := 0 to |all.value|
        invariant filtered == Filter(all.value[..i], keep)
      {
        FilterNext(all.value, i, keep);
        if all.value[i].environment == env {
          filtered := filtered + [all.value[i]];
        }
      }
      assert all.value[..|all.value|] == all.value;
      return Ok(filtered);
    }

    method Revoke(r: Revocation, id: string, now: Time, fault: WriteFault) returns (err: Option<F.StoreError>)
      modifies this
      ensures (Disk(), err) == F.Revoke(old(Disk()), cs, StampedRevocation(r, id, now), fault)
    {
      var record := r;
      if record.id == "" {
        record := record.(id := id);
      }
      if record.revokedAt == ZERO_TIME {
        record := record.(revokedAt := now);
      }
      var (f, e) := AppendNDJSON(revocations, record, cs.revocation, fault);
      revocations := f;
      err := F.Failure(e);
    }

    method GetRevocations(env: string) returns (r: Result<seq<Revocation>, ReadError>)
      ensures var all := ReadFile(revocations, cs.revocation);
              r == if all.Err? || env == "" then all
                   else Ok(Filter(all.value, (x: Revocation) => x.environment == env))
    {
      var all := ReadNDJSON(revocations, cs.revocation);
      if all.Err? || env == "" {
        return all;
      }
      var keep := (x: Revocation) => x.environment == env;
      var filtered: seq<Revocation> := [];
      for i := 0 to |all.value|
        invariant filtered == Filter(all.value[..i], keep)
      {
        FilterNext(all.value, i, keep);
        if all.value[i].environment == env {
          filtered := filtered + [all.value[i]];
        }
      }
      assert all.value[..|all.value|] == all.value;
      return Ok(filtered);
    }

    /** The answer is for the exact environment only: the filter has dropped global records. */
    method IsRevoked(digest: string, env: string) returns (r: Result<bool, ReadError>)
      ensures var all := ReadFile(revocations, cs.revocation);
              r == if all.Err? then Err(all.error) else Ok(RevokedExactly(all.value, digest, env))
    {
      var revs := GetRevocations(env);
      if revs.Err? {
        return Err(revs.error);
      }
      ghost var all := ReadFile(revocations, cs.revocation).value;
      forall x: Revocation
        ensures x in revs.value <==> x in all && (env == "" || x.environment == env)
      {
        FilterMember(all, (x: Revocation) => x.environment == env, x);
      }
      var held := AnyRevocation(revs.value, digest, env);
      return Ok(held);
    }

    method Quarantine(q: Quarantine, id: string, now: Time, fault: WriteFault) returns (err: Option<F.StoreError>)
      modifies this
      ensures (Disk(), err) == F.AddQuarantine(old(Disk()), cs, StampedQuarantine(q, id, now), fault)
    {
      var record := q;
      if record.id == "" {
        record := record.(id := id);
      }
      if record.quarantinedAt == ZERO_TIME {
        record := record.(quarantinedAt := now);
      }
      var (f, e) := AppendNDJSON(quarantines, record, cs.quarantine, fault);
      quarantines := f;
      err := F.Failure(e);
    }

    /** Unlike revocations, a named environment keeps the global records. */
    method GetQuarantines(env: string) returns (r: Result<seq<Quarantine>, ReadError>)
      ensures var all := ReadFile(quarantines, cs.quarantine);
              r == if all.Err? || env == "" then all
                   else Ok(Filter(all.value, (q: Quarantine) => q.environment == "" || q.environment == env))
    {
      var all := ReadNDJSON(quarantines, cs.quarantine);
      if all.Err? || env == "" {
        return all;
      }
      var keep := (q: Quarantine) => q.environment == "" || q.environment == env;
      var filtered: seq<Quarantine> := [];
      for i := 0 to |all.value|
        invariant filtered == Filter(all.value[..i], keep)
      {
        FilterNext(all.value, i, keep);
        if all.value[i].environment == "" || all.value[i].environment == env {
          filtered := filtered + [all.value[i]];
        }
      }
      assert all.value[..|all.value|] == all.value;
      return Ok(filtered);
    }

    /** The answer holds exactly when a record is global or for that environment. */
    method IsQuarantined(digest: string, env: string) returns (r: Result<bool, ReadError>)
      ensures var all := ReadFile(quarantines, cs.quarantine);
              r == if all.Err? then Err(all.error) else Ok(Quarantined(all.value, digest, env))
    {
      var quars := GetQuarantines(env);
      if quars.Err? {
        return Err(quars.error);
      }
      ghost var all := ReadFile(quarantines, cs.quarantine).value;
      forall q: Records.Quarantine
        ensures q in quars.value <==> q in all && (env == "" || q.environment == "" || q.environment == env)
      {
        FilterMember(all, (q: Records.Quarantine) => q.environment == "" || q.environment == env, q);
      }
      var held := AnyQuarantine(quars.value, digest, env);
      return Ok(held);
    }

    method Unquarantine(id: string, faults: F.Faults) returns (err: Option<F.StoreError>)
      modifies this
      ensures (Disk(), err) == F.Unquarantine(old(Disk()), cs, id, faults)
    {
      var all := ReadNDJSON(quarantines, cs.quarantine);
      if all.Err? {
        return Some(F.Unreadable(all.error));
      }
      var remaining := Survivors(all.value, id);
      var f, e := RewriteLog(remaining, cs.quarantine, faults, 3);
      quarantines := f;
      err := F.Failure(e);
    }

    method Survivors(all: seq<Records.Quarantine>, id: string) returns (remaining: seq<Records.Quarantine>)
      ensures remaining == Filter(all, Spared(id))
    {
      remaining := [];
      for i := 0 to |all|
        invariant remaining == Filter(all[..i], Spared(id))
      {
        FilterNext(all, i, Spared(id));
        if all[i].id != id && all[i].digest != id {
          remaining := remaining + [all[i]];
        }
      }
      assert all[..|all|] == all;
    }

    /** Remove a log and append records to it until one append fails. */
    method RewriteLog<T>(vs: seq<T>, c: Codec<T>, faults: F.Faults, log: nat)
      returns (f: File, err: Option<WriteError>)
      ensures (f, err) == F.AppendAll(None, vs, c, faults, log)
    {
      f := None;
      for i := 0 to |vs|
        invariant F.AppendAll(None, vs[..i], c, faults, log) == (f, None)
      {
        AppendNext(vs, c, faults, log, i);
        var (g, e) := AppendNDJSON(f, vs[i], c, faults(log, i));
        f := g;
        if e.Some? {
          StopsThere(vs, c, faults, log, i + 1);
          return f, e;
        }
      }
      assert vs[..|vs|] == vs;
      return f, None;
    }

    method Backup(now: Time) returns (r: Result<string, F.StoreError>)
      ensures r == F.Backup(Disk(), cs, now)
    {
      var ds := ReadNDJSON(decisions, cs.decision);
      if ds.Err? {
        return Err(F.Unreadable(ds.error));
      }
      var ps := ReadNDJSON(promotions, cs.promotion);
      if ps.Err? {
        return Err(F.Unreadable(ps.error));
      }
      var rs := ReadNDJSON(revocations, cs.revocation);
      if rs.Err? {
        return Err(F.Unreadable(rs.error));
      }
      var qs := ReadNDJSON(quarantines, cs.quarantine);
      if qs.Err? {
        return Err(F.Unreadable(qs.error));
      }
      var doc := cs.backup.enc(BackupData(now, ds.value, ps.value, rs.value, qs.value));
      return if doc.None? then Err(F.BackupNotEncoded) else Ok(doc.value);
    }

    method Restore(data: string, faults: F.Faults) returns (err: Option<F.StoreError>)
      modifies this
      ensures (Disk(), err) == F.Restore(old(Disk()), cs, data, faults)
    {
      var decoded := cs.backup.dec(data);
      if decoded.None? {
        return Some(F.BackupNotDecoded);
      }
      var disk, e := WriteBackup(decoded.value, faults);
      decisions, promotions := disk.decisions, disk.promotions;
      revocations, quarantines := disk.revocations, disk.quarantines;
      err := e;
    }

    /** The four logs, removed and then written in order until one append fails. */
    method WriteBackup(b: BackupData, faults: F.Faults) returns (disk: F.Files, err: Option<F.StoreError>)
      ensures (disk, err) == F.RestoreFrom(b, cs, faults)
    {
      disk := F.NO_FILES;
      var d, e1 := RewriteLog(b.decisions, cs.decision, faults, 0);
      disk := disk.(decisions := d);
      if e1.Some? {
        return disk, F.Failure(e1);
      }
      var p, e2 := RewriteLog(b.promotions, cs.promotion, faults, 1);
      disk := disk.(promotions := p);
      if e2.Some? {
        return disk, F.Failure(e2);
      }
      disk, err := WriteRestrictions(b, faults, d, p);
    }

    method WriteRestrictions(b: BackupData, faults: F.Faults, d: File, p: File)
      returns (disk: F.Files, err: Option<F.StoreError>)
      ensures (disk, err) == F.RestoreRestrictions(b, cs, faults, d, p)
    {
      disk := F.Files(d, p, None, None);
      var r, e3 := RewriteLog(b.revocations, cs.revocation, faults, 2);
      disk := disk.(revocations := r);
      if e3.Some? {
        return disk, F.Failure(e3);
      }
      var q, e4 := RewriteLog(b.quarantines, cs.quarantine, faults, 3);
      disk := disk.(quarantines := q);
      return disk, F.Failure(e4);
    }
  }

  /** Appending one record more. */
  lemma AppendNext<T>(vs: seq<T>, c: Codec<T>, faults: F.Faults, log: nat, i: nat)
    requires i < |vs| && F.AppendAll(None, vs[..i], c, faults, log).1.None?
    ensures F.AppendAll(None, vs[..i + 1], c, faults, log)
         == AppendNDJSON(F.AppendAll(None, vs[..i], c, faults, log).0, vs[i], c, faults(log, i))
  {
    assert vs[..i + 1][..i] == vs[..i];
  }

  /** Once an append fails, the records after it are never tried. */
  lemma {:induction false} StopsThere<T>(vs: seq<T>, c: Codec<T>, faults: F.Faults, log: nat, i: nat)
    requires i <= |vs| && F.AppendAll(None, vs[..i], c, faults, log).1.Some?
    ensures F.AppendAll(None, vs, c, faults, log) == F.AppendAll(None, vs[..i], c, faults, log)
  {
    if i == |vs| {
      assert vs[..i] == vs;
    } else {
      var n := |vs| - 1;
      assert vs[..n][..i] == vs[..i];
      StopsThere(vs[..n], c, faults, log, i);
    }
  }
}
