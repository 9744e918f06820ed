/** Whole-run results about the APB master. */
module ApbResults {
  import opened Apb
  import opened ApbLanguage

  // ---------- Reading the language off a log ----------

  predicate IsExecute(x: Xfer) {
    IsWrite(x, MBOX_EXECUTE, 1)
  }

  lemma {:induction false} ExecuteInLog(c: Fuses, log: seq<Xfer>, j: nat)
    requires c.Valid() && !Accept(c, log).Reject? && j < |log| && IsExecute(log[j])
    ensures Accept(c, log[..j]).Exec? && Accept(c, log).Pushed?
  {
    var n := |log| - 1;
    if j < n {
      ExecuteInLog(c, log[..n], j);
      assert log[..n][..j] == log[..j];
    }
  }

  // CMD, DLEN = 4 * 256 and the first k DATAIN words, up to the end of the log.
  predicate PushFrame(log: seq<Xfer>, k: nat) {
    && k + 2 <= |log|
    && IsWrite(log[|log| - k - 2], MBOX_CMD, FW_COMMAND)
    && IsWrite(log[|log| - k - 1], MBOX_DLEN, 4 * FW_NUM_DWORDS)
    && forall j :: |log| - k <= j < |log| ==> log[j].write && log[j].addr == MBOX_DATAIN
  }

  lemma {:induction false} FrameInLog(c: Fuses, log: seq<Xfer>)
    requires c.Valid()
    ensures var p := Accept(c, log);
            && (p.Dlen? ==> |log| > 0 && IsWrite(log[|log| - 1], MBOX_CMD, FW_COMMAND))
            && (p.Data? ==> p.k < FW_NUM_DWORDS && PushFrame(log, p.k))
            && (p.Exec? ==> PushFrame(log, FW_NUM_DWORDS))
  {
    if log != [] {
      FrameInLog(c, log[..|log| - 1]);
    }
  }

  lemma ExecuteIsUnique(c: Fuses, log: seq<Xfer>, i: nat, j: nat)
    requires c.Valid() && !Accept(c, log).Reject?
    requires i < |log| && j < |log| && IsExecute(log[i]) && IsExecute(log[j])
    ensures i == j
  {
    ExecuteInLog(c, log, i);
    ExecuteInLog(c, log, j);
    if i < j {
      ExecuteInLog(c, log[..j], i);
    } else if j < i {
      ExecuteInLog(c, log[..i], j);
    }
  }

  /** EXECUTE=1 is written at most once per reset epoch, whatever detours the master takes. */
  lemma ExecuteOnce(c: Fuses, s: Regs, i: nat, j: nat)
    requires c.Valid() && Reachable(c, s)
    requires i < |s.log| && j < |s.log| && IsExecute(s.log[i]) && IsExecute(s.log[j])
    ensures i == j
  {
    ReachableInv(c, s);
    ExecuteIsUnique(c, s.log, i, j);
  }

  /** A firmware push: in every run each EXECUTE=1 comes right after CMD, DLEN and exactly 256
      DATAIN words, which are the words of fw_blob, DLEN being four times their number. */
  lemma FirmwarePush(c: Fuses, s: Regs, j: nat)
    requires c.Valid() && Reachable(c, s) && j < |s.log| && IsExecute(s.log[j])
    ensures PushFrame(s.log[..j], FW_NUM_DWORDS)
    ensures |s.blob| == FW_NUM_DWORDS
    ensures forall k :: 0 <= k < FW_NUM_DWORDS ==> s.log[j - FW_NUM_DWORDS + k].data == s.blob[k]
  {
    ReachableInv(c, s);
    PushInLog(c, s, j);
  }

  lemma PushInLog(c: Fuses, s: Regs, j: nat)
    requires c.Valid() && Inv(c, s) && !Accept(c, s.log).Reject? && j < |s.log| && IsExecute(s.log[j])
    ensures PushFrame(s.log[..j], FW_NUM_DWORDS) && Carries(s.log, j, FW_NUM_DWORDS, s.blob)
    ensures |s.blob| == FW_NUM_DWORDS
  {
    ExecuteInLog(c, s.log, j);
    FrameInLog(c, s.log[..j]);
    ExecuteIsUnique(c, s.log, j, s.pushEnd);
  }

  predicate FlowPoll(x: Xfer, ready: bool) {
    IsRead(x, CPTRA_FLOW_STATUS) && ReadyForFuses(x.data) == ready
  }

  const BOOT: nat := UDS_DWORDS + FE_DWORDS + 2

  // Transfers 0..21: the fuses in order, the stepping id, fuse-done.
  predicate FuseTransfer(c: Fuses, x: Xfer, j: nat)
    requires c.Valid()
  {
    && (j < UDS_DWORDS ==> IsWrite(x, FUSE_UDS_SEED_0 + 4 * j, c.uds[j]))
    && (UDS_DWORDS <= j < BOOT - 2 ==>
          IsWrite(x, FUSE_FIELD_ENTROPY_0 + 4 * (j - UDS_DWORDS), c.fe[j - UDS_DWORDS]))
    && (j == BOOT - 2 ==> x.write && x.addr == FUSE_SOC_STEPPING_ID)
    && (j == BOOT - 1 ==> IsWrite(x, CPTRA_FUSE_WR_DONE, 1))
  }

  // After them: flow status, if polled at all, is polled first and until clear, and boot-go comes
  // right after the clear poll and nowhere else; no fuse is written again.
  predicate AfterFuses(log: seq<Xfer>, j: nat)
    requires BOOT <= j < |log|
  {
    PollsBefore(log, j) && (j + 1 < |log| ==> PollFollowed(log[j], log[j + 1]))
  }

  predicate PollsBefore(log: seq<Xfer>, j: nat)
    requires BOOT <= j < |log|
  {
    && (IsRead(log[j], CPTRA_FLOW_STATUS) ==> forall i :: BOOT <= i < j ==> FlowPoll(log[i], true))
    && (IsWrite(log[j], CPTRA_BOOTFSM_GO, 1) ==>
          j > BOOT && FlowPoll(log[j - 1], false) && forall i :: BOOT <= i < j - 1 ==> FlowPoll(log[i], true))
    && !(log[j].write && FUSE_UDS_SEED_0 <= log[j].addr <= FUSE_SOC_STEPPING_ID)
    && !(log[j].write && log[j].addr == CPTRA_FUSE_WR_DONE)
  }

  // What a poll allows to come next.
  predicate PollFollowed(x: Xfer, next: Xfer) {
    && (FlowPoll(x, true) ==> IsRead(next, CPTRA_FLOW_STATUS))
    && (FlowPoll(x, false) ==> IsWrite(next, CPTRA_BOOTFSM_GO, 1))
  }

  // How far a log is, by its length.
  lemma {:induction false} PhaseByLength(c: Fuses, log: seq<Xfer>)
    requires c.Valid() && !Accept(c, log).Reject?
    ensures var p, n := Accept(c, log), |log|;
            && (n < UDS_DWORDS ==> p == Uds(n))
            && (UDS_DWORDS <= n < BOOT - 2 ==> p == Fe(n - UDS_DWORDS))
            && (n == BOOT - 2 ==> p.Stepping?) && (n == BOOT - 1 ==> p.FuseDone?)
            && (p.FuseWritten? <==> n == BOOT)
            && (n >= BOOT ==> !(p.Uds? || p.Fe? || p.Stepping? || p.FuseDone?))
  {
    if log != [] {
      PhaseByLength(c, log[..|log| - 1]);
    }
  }

  lemma {:induction false} FusesInLog(c: Fuses, log: seq<Xfer>, j: nat)
    requires c.Valid() && !Accept(c, log).Reject? && j < |log| && j < BOOT
    ensures FuseTransfer(c, log[j], j)
  {
    var n := |log| - 1;
    if j < n {
      FusesInLog(c, log[..n], j);
    } else {
      PhaseByLength(c, log[..n]);
    }
  }

  lemma {:induction false} PollsInLog(c: Fuses, log: seq<Xfer>)
    requires c.Valid() && !Accept(c, log).Reject?
    ensures var p, n := Accept(c, log), |log|;
            && (p.Polling? ==> n > BOOT && forall i :: BOOT <= i < n ==> FlowPoll(log[i], true))
            && (p.GoNext? ==> n > BOOT && FlowPoll(log[n - 1], false)
                              && forall i :: BOOT <= i < n - 1 ==> FlowPoll(log[i], true))
            && (n > BOOT && FlowPoll(log[n - 1], false) ==> p.GoNext?)
            && (n > BOOT && FlowPoll(log[n - 1], true) ==> p.Polling?)
  {
    if log != [] {
      PollsInLog(c, log[..|log| - 1]);
      PhaseByLength(c, log);
      PhaseByLength(c, log[..|log| - 1]);
    }
  }

  lemma LastAfterFuses(c: Fuses, log: seq<Xfer>)
    requires c.Valid() && !Accept(c, log).Reject? && |log| > BOOT
    ensures PollsBefore(log, |log| - 1)
    ensures |log| > BOOT + 1 ==> PollFollowed(log[|log| - 2], log[|log| - 1])
  {
    var front := log[..|log| - 1];
    PhaseByLength(c, front);
    PollsInLog(c, front);
  }

  lemma {:induction false} PrefixAccepted(c: Fuses, log: seq<Xfer>, n: nat)
    requires c.Valid() && !Accept(c, log).Reject? && n <= |log|
    ensures !Accept(c, log[..n]).Reject?
  {
    if n < |log| {
      PrefixAccepted(c, log[..|log| - 1], n);
      assert log[..|log| - 1][..n] == log[..n];
    } else {
      assert log[..n] == log;
    }
  }

  lemma PollsBeforeInPrefix(log: seq<Xfer>, j: nat)
    requires BOOT <= j < |log| && PollsBefore(log[..j + 1], j)
    ensures PollsBefore(log, j)
  {
    var front := log[..j + 1];
    assert forall i :: 0 <= i <= j ==> front[i] == log[i];
  }

  lemma NextAfterFuses(c: Fuses, log: seq<Xfer>, j: nat, front: seq<Xfer>)
    requires c.Valid() && BOOT <= j && j + 1 < |log| && |front| == j + 2
    requires front[j] == log[j] && front[j + 1] == log[j + 1] && !Accept(c, front).Reject?
    ensures PollFollowed(log[j], log[j + 1])
  {
    LastAfterFuses(c, front);
  }

  lemma AfterFusesInLog(c: Fuses, log: seq<Xfer>, j: nat)
    requires c.Valid() && !Accept(c, log).Reject? && BOOT <= j < |log|
    ensures AfterFuses(log, j)
  {
    PrefixAccepted(c, log, j + 1);
    LastAfterFuses(c, log[..j + 1]);
    PollsBeforeInPrefix(log, j);
    if j + 1 < |log| {
      PrefixAccepted(c, log, j + 2);
      NextAfterFuses(c, log, j, log[..j + 2]);
    }
  }

  /** The boot language: in every reset epoch of every run the log is a prefix of fuse words, field
      entropy words, stepping id, fuse-done, flow polls, boot-go, and what follows. */
  lemma BootLanguage(c: Fuses, s: Regs, j: nat)
    requires c.Valid() && Reachable(c, s) && j < |s.log|
    ensures if j < BOOT then FuseTransfer(c, s.log[j], j) else AfterFuses(s.log, j)
  {
    ReachableInv(c, s);
    if j < BOOT {
      FusesInLog(c, s.log, j);
    } else {
      AfterFusesInLog(c, s.log, j);
    }
  }
}
