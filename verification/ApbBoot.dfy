/** What the APB master does do: the poll after fuse-done, and a run whose log is the whole language. */
module ApbBoot {
  import opened Apb
  import opened ApbLanguage
  import opened ApbResults
  import opened ApbHandshake
  import opened ApbDetour

  // ---------- The first transfer after fuse-done ----------

  // From the completion of fuse-done on, with the breakpoint as it was then.
  predicate AfterFuseDone(s: Regs, brkPoint: bool) {
    && |s.log| >= BOOT
    && (|s.log| == BOOT ==> (s.st.POLL_FLOW_ST? <==> brkPoint))
    && (|s.log| > BOOT ==> (IsRead(s.log[BOOT], CPTRA_FLOW_STATUS) <==> brkPoint))
  }

  lemma FuseDoneCompletes(c: Fuses, s: Regs, i: Inputs)
    requires c.Valid() && Inv(c, s) && |s.log| == BOOT - 1 && XferEnd(s, i)
    ensures s.st.WR_FUSE_DONE? && AfterFuseDone(Posedge(c, s, i), i.brkPoint)
  {
    InvAccepts(c, s);
    PhaseByLength(c, s.log);
  }

  lemma PosedgeAfterFuseDone(c: Fuses, s: Regs, i: Inputs, brkPoint: bool)
    requires c.Valid() && AfterFuseDone(s, brkPoint) && InPhase(s.st, s.wr, s.ooo, Accept(c, s.log))
    requires |s.log| == BOOT ==> Accept(c, s.log).FuseWritten?
    ensures AfterFuseDone(Posedge(c, s, i), brkPoint)
  {
    if |s.log| > BOOT {
      assert Posedge(c, s, i).log[BOOT] == s.log[BOOT];
    }
  }

  lemma {:induction false} StaysAfterFuseDone(c: Fuses, s: Regs, es: seq<Inputs>, brkPoint: bool)
    requires c.Valid() && Inv(c, s) && AfterFuseDone(s, brkPoint) && NoReset(es)
    ensures Inv(c, Run(c, s, es)) && AfterFuseDone(Run(c, s, es), brkPoint)
  {
    if es != [] {
      var front, i := es[..|es| - 1], es[|es| - 1];
      StaysAfterFuseDone(c, s, front, brkPoint);
      var mid := Run(c, s, front);
      EdgeKeepsInv(c, mid, i);
      EdgeAfterFuseDone(c, mid, i, brkPoint);
    }
  }

  lemma EdgeAfterFuseDone(c: Fuses, s: Regs, i: Inputs, brkPoint: bool)
    requires c.Valid() && Inv(c, s) && AfterFuseDone(s, brkPoint) && i.rstB
    ensures AfterFuseDone(Edge(c, s, i), brkPoint)
  {
    if !s.high {
      InvAccepts(c, s);
      PhaseByLength(c, s.log);
      PosedgeAfterFuseDone(c, s, i, brkPoint);
    }
  }

  /** In every run, the transfer that follows fuse-done in its epoch polls the flow status if and only if
      the breakpoint was set at the edge that completed fuse-done. */
  lemma FlowPolledExactly(c: Fuses, s: Regs, i: Inputs, es: seq<Inputs>)
    requires c.Valid() && Reachable(c, s) && !s.high && i.rstB && NoReset(es)
    requires |s.log| == BOOT - 1 && XferEnd(s, i)
    requires |Run(c, Edge(c, s, i), es).log| > BOOT
    ensures var after := Run(c, Edge(c, s, i), es);
            && IsWrite(after.log[BOOT - 1], CPTRA_FUSE_WR_DONE, 1)
            && (IsRead(after.log[BOOT], CPTRA_FLOW_STATUS) <==> i.brkPoint)
  {
    ReachableInv(c, s);
    FuseDoneCompletes(c, s, i);
    EdgeKeepsInv(c, s, i);
    var next := Edge(c, s, i);
    StaysAfterFuseDone(c, next, es, i.brkPoint);
    var after := Run(c, next, es);
    InvAccepts(c, after);
    FusesInLog(c, after.log, BOOT - 1);
  }

  // ---------- The wait for the firmware ----------

  // For how many positive edges in a row the master has been seeing ready while it waited.
  function Streak(c: Fuses, s0: Regs, es: seq<Inputs>): nat {
    if es == [] then 0
    else
      var s, i := Run(c, s0, es[..|es| - 1]), es[|es| - 1];
      if s.high && i.rstB then Streak(c, s0, es[..|es| - 1])
      else if i.rstB && s.st.WAIT_FW_TEST? && i.readyForFwPush then Streak(c, s0, es[..|es| - 1]) + 1
      else 0
  }

  predicate Counts(s: Regs, n: nat) {
    s.st.WAIT_FW_TEST? ==> s.wr == n <= 5
  }

  lemma EdgeCounts(c: Fuses, s: Regs, i: Inputs, n: nat)
    requires Counts(s, n)
    ensures Counts(Edge(c, s, i), if s.high && i.rstB then n
                                  else if i.rstB && s.st.WAIT_FW_TEST? && i.readyForFwPush then n + 1
                                  else 0)
  {
  }

  lemma {:induction false} RunCounts(c: Fuses, s0: Regs, es: seq<Inputs>)
    requires Initial(s0)
    ensures Counts(Run(c, s0, es), Streak(c, s0, es))
  {
    if es != [] {
      var front := es[..|es| - 1];
      RunCounts(c, s0, front);
      EdgeCounts(c, Run(c, s0, front), es[|es| - 1], Streak(c, s0, front));
    }
  }

  /** In every run the wait ends with a poll for the lock exactly at the sixth positive edge in a row
      that sees ready. */
  lemma PushAfterSixReady(c: Fuses, s0: Regs, es: seq<Inputs>, i: Inputs)
    requires Initial(s0) && i.rstB
    requires var s := Run(c, s0, es); s.st.WAIT_FW_TEST? && !s.high
    ensures Edge(c, Run(c, s0, es), i).st.POLL_LOCK? <==> Streak(c, s0, es) == 5 && i.readyForFwPush
  {
    RunCounts(c, s0, es);
  }

  /** The stepping id written is the word drawn at the edge that completed the last field entropy word. */
  lemma SteppingIsDrawn(c: Fuses, s: Regs, i: Inputs)
    requires s.st.WR_FE? && s.wr == FE_DWORDS - 1 && !s.high && i.rstB && XferEnd(s, i)
    ensures var s' := Edge(c, s, i);
            Paddr(s') == FUSE_SOC_STEPPING_ID && Pwrite(s'.st) && Pwdata(c, s') == i.random
  {
  }

  // ---------- A transfer, cycle by cycle ----------

  // The responder answers data at once; the breakpoint is set; nothing else is asked of the master.
  function Answer(data: Word): Inputs {
    Calm(data).(brkPoint := true)
  }

  // Reached between two transfers, or between the two cycles of one, with no error or detour pending.
  ghost predicate Undisturbed(reach: Regs -> bool, s: Regs, enable: bool) {
    && reach(s) && !s.high && s.enablePh == enable && |s.blob| == FW_NUM_DWORDS
    && !s.ooo && !s.noLock && !s.oooDone && !s.noLockDone && s.hwErrorWdata == 0
  }

  predicate Ordinary(st: ApbState) {
    Psel(st) && !ErrorAccess(st)
  }

  lemma SetupPhase(c: Fuses, reach: Regs -> bool, s: Regs, data: Word) returns (s': Regs)
    requires Inductive(c, reach) && Undisturbed(reach, s, false) && Ordinary(s.st)
    ensures Undisturbed(reach, s', true) && s'.st == s.st && s'.log == s.log && s'.blob == s.blob
    ensures s.st.WR_UDS? || s.st.WR_FE? || s.st.WR_DATAIN? ==> s'.wr == s.wr
    ensures s.st.RD_DATAOUT? ==> s'.rd == s.rd
    ensures s'.dlen == if s.st.RD_DLEN? then data else s.dlen
    ensures s'.executeRx == if s.st.WR_EXEC? then true else if s.st.RST_EXEC? then false else s.executeRx
  {
    s' := Cycle(c, s, Answer(data));
    KeptByCycle(c, reach, s, Answer(data));
  }

  lemma AccessPhase(c: Fuses, reach: Regs -> bool, s: Regs, data: Word) returns (s': Regs)
    requires Inductive(c, reach) && Undisturbed(reach, s, true) && Ordinary(s.st)
    ensures Undisturbed(reach, s', false) && !s'.statusSet && s'.dlen == s.dlen
    ensures s'.st == NextState(s, Answer(data)) && s'.log == s.log + [Transfer(c, s, Answer(data))]
    ensures s'.wr == NextWr(s, Answer(data)) && s'.rd == NextRd(s, Answer(data))
    ensures s'.executeRx == (s.executeRx || s'.st.WR_EXEC?)
  {
    s' := Cycle(c, s, Answer(data));
    KeptByCycle(c, reach, s, Answer(data));
  }

  // What a transfer begun in a state does; with a counter it may stay in the state.
  lemma Transact(c: Fuses, reach: Regs -> bool, s: Regs, data: Word) returns (mid: Regs, s': Regs)
    requires Inductive(c, reach) && Undisturbed(reach, s, false) && Ordinary(s.st)
    ensures Undisturbed(reach, s', false) && !s'.statusSet
    ensures mid.st == s.st && mid.enablePh && !mid.ooo && !mid.oooDone && !mid.noLockDone
    ensures s.st.WR_UDS? || s.st.WR_FE? || s.st.WR_DATAIN? ==> mid.wr == s.wr
    ensures s.st.RD_DATAOUT? ==> mid.rd == s.rd
    ensures mid.dlen == s'.dlen == if s.st.RD_DLEN? then data else s.dlen
    ensures s'.st == NextState(mid, Answer(data)) && s'.wr == NextWr(mid, Answer(data))
    ensures s'.rd == NextRd(mid, Answer(data))
    ensures s'.log == s.log + [Transfer(c, mid, Answer(data))]
    ensures s.st.WR_EXEC? ==> s'.executeRx
    ensures s.st.RST_EXEC? ==> !s'.executeRx || s'.st.WR_EXEC?
    ensures s.executeRx && !s.st.RST_EXEC? ==> s'.executeRx
    ensures !s.executeRx && !s.st.WR_EXEC? && !s'.st.WR_EXEC? ==> !s'.executeRx
  {
    mid := SetupPhase(c, reach, s, data);
    s' := AccessPhase(c, reach, mid, data);
  }

  // ---------- The boot and the push ----------

  // One transfer more in the log.
  predicate Logs(s: Regs, s': Regs, n: nat) {
    s.log <= s'.log && |s'.log| == |s.log| + n
  }

  lemma {:induction false} WriteFuses(c: Fuses, reach: Regs -> bool, s: Regs) returns (s': Regs)
    requires Inductive(c, reach) && Undisturbed(reach, s, false)
    requires (s.st.WR_UDS? && s.wr < UDS_DWORDS) || (s.st.WR_FE? && s.wr < FE_DWORDS)
    ensures Undisturbed(reach, s', false) && s'.st.WR_SOC_STEPPING_ID?
    ensures Logs(s, s', (if s.st.WR_UDS? then UDS_DWORDS + FE_DWORDS else FE_DWORDS) - s.wr)
    decreases (if s.st.WR_UDS? then UDS_DWORDS + FE_DWORDS else FE_DWORDS) - s.wr
  {
    var mid;
    mid, s' := Transact(c, reach, s, 0);
    if !s'.st.WR_SOC_STEPPING_ID? {
      s' := WriteFuses(c, reach, s');
    }
  }

  lemma StartBoot(c: Fuses, reach: Regs -> bool, s: Regs) returns (s': Regs)
    requires Inductive(c, reach) && Undisturbed(reach, s, false) && s.st.IDLE?
    ensures Undisturbed(reach, s', false) && s'.st.WR_UDS? && s'.wr == 0 && s'.log == s.log
  {
    var start := Answer(0).(start := true);
    KeptByCycle(c, reach, s, start);
    s' := Cycle(c, s, start);
  }

  // Stepping id and fuse-done, then, with the breakpoint set, a clear poll and boot-go.
  lemma FinishFuses(c: Fuses, reach: Regs -> bool, s: Regs) returns (s': Regs)
    requires Inductive(c, reach) && Undisturbed(reach, s, false) && s.st.WR_SOC_STEPPING_ID?
    ensures Undisturbed(reach, s', false) && s'.st.POLL_FLOW_ST? && Logs(s, s', 2)
  {
    var mid;
    mid, s' := Transact(c, reach, s, 0);
    mid, s' := Transact(c, reach, s', 0);
  }

  lemma PollAndGo(c: Fuses, reach: Regs -> bool, s: Regs) returns (s': Regs)
    requires Inductive(c, reach) && Undisturbed(reach, s, false) && s.st.POLL_FLOW_ST?
    ensures Undisturbed(reach, s', false) && s'.st.WAIT_FW_TEST? && s'.wr == 0 && Logs(s, s', 2)
    ensures s'.log[|s.log|] == Xfer(CPTRA_FLOW_STATUS, false, 0)
  {
    var mid;
    mid, s' := Transact(c, reach, s, 0);
    assert Transfer(c, mid, Answer(0)) == Xfer(CPTRA_FLOW_STATUS, false, 0);
    mid, s' := Transact(c, reach, s', 0);
  }

  lemma {:induction false} AwaitPush(c: Fuses, reach: Regs -> bool, s: Regs) returns (s': Regs)
    requires Inductive(c, reach) && Undisturbed(reach, s, false) && s.st.WAIT_FW_TEST? && s.wr <= 5
    ensures Undisturbed(reach, s', false) && s'.st.POLL_LOCK? && s'.log == s.log
    decreases 5 - s.wr
  {
    var ready := Answer(0).(readyForFwPush := true);
    KeptByCycle(c, reach, s, ready);
    s' := Cycle(c, s, ready);
    if s.wr < 5 {
      s' := AwaitPush(c, reach, s');
    }
  }

  lemma {:induction false} PushWords(c: Fuses, reach: Regs -> bool, s: Regs) returns (s': Regs)
    requires Inductive(c, reach) && Undisturbed(reach, s, false) && s.st.WR_DATAIN? && s.wr < FW_NUM_DWORDS
    ensures Undisturbed(reach, s', false) && s'.st.WR_EXEC? && Logs(s, s', FW_NUM_DWORDS - s.wr)
    decreases FW_NUM_DWORDS - s.wr
  {
    var mid;
    mid, s' := Transact(c, reach, s, 0);
    if s.wr < FW_NUM_DWORDS - 1 {
      s' := PushWords(c, reach, s');
    }
  }

  // The lock granted, command and length, the words, execute.
  lemma Push(c: Fuses, reach: Regs -> bool, s: Regs) returns (s': Regs)
    requires Inductive(c, reach) && Undisturbed(reach, s, false) && s.st.POLL_LOCK?
    ensures Undisturbed(reach, s', false) && s'.st.DONE? && s'.executeRx && !s'.statusSet
    ensures Logs(s, s', FW_NUM_DWORDS + 4)
    ensures s'.log[|s.log|] == Xfer(MBOX_LOCK, false, 1)
    ensures s'.log[|s'.log| - 1] == Xfer(MBOX_EXECUTE, true, 1)
  {
    s' := TakeLock(c, reach, s);
    s' := PushCommand(c, reach, s');
    s' := PushWords(c, reach, s');
    s' := WriteExecute(c, reach, s');
  }

  lemma TakeLock(c: Fuses, reach: Regs -> bool, s: Regs) returns (s': Regs)
    requires Inductive(c, reach) && Undisturbed(reach, s, false) && s.st.POLL_LOCK?
    ensures Undisturbed(reach, s', false) && s'.st.WR_CMD?
    ensures s'.log == s.log + [Xfer(MBOX_LOCK, false, 1)]
  {
    var mid;
    mid, s' := Transact(c, reach, s, 1);
    assert Transfer(c, mid, Answer(1)) == Xfer(MBOX_LOCK, false, 1);
  }

  lemma WriteExecute(c: Fuses, reach: Regs -> bool, s: Regs) returns (s': Regs)
    requires Inductive(c, reach) && Undisturbed(reach, s, false) && s.st.WR_EXEC?
    ensures Undisturbed(reach, s', false) && s'.st.DONE? && s'.executeRx && !s'.statusSet
    ensures s'.log == s.log + [Xfer(MBOX_EXECUTE, true, 1)]
  {
    var mid;
    mid, s' := Transact(c, reach, s, 0);
    assert Transfer(c, mid, Answer(0)) == Xfer(MBOX_EXECUTE, true, 1);
  }

  lemma PushCommand(c: Fuses, reach: Regs -> bool, s: Regs) returns (s': Regs)
    requires Inductive(c, reach) && Undisturbed(reach, s, false) && s.st.WR_CMD?
    ensures Undisturbed(reach, s', false) && s'.st.WR_DATAIN? && s'.wr == 0 && Logs(s, s', 2)
  {
    var mid;
    mid, s' := Transact(c, reach, s, 0);
    mid, s' := Transact(c, reach, s', 0);
  }

  // ---------- The answer of the firmware ----------

  lemma DataComes(c: Fuses, reach: Regs -> bool, s: Regs) returns (s': Regs)
    requires Inductive(c, reach) && Undisturbed(reach, s, false) && s.st.DONE? && !s.statusSet
    ensures Undisturbed(reach, s', false) && s'.log == s.log
    ensures if s.executeRx then s'.st.RD_DLEN? && s'.executeRx else s'.st.WR_STATUS? && !s'.executeRx
  {
    var avail := Answer(0).(dataAvail := true);
    KeptByCycle(c, reach, s, avail);
    s' := Cycle(c, s, avail);
  }

  lemma {:induction false} ReadWords(c: Fuses, reach: Regs -> bool, s: Regs) returns (s': Regs)
    requires Inductive(c, reach) && Undisturbed(reach, s, false) && s.st.RD_DATAOUT? && s.rd <= s.dlen
    ensures Undisturbed(reach, s', false) && s'.st.RST_EXEC? && Logs(s, s', s.dlen - s.rd + 1)
    ensures forall j :: |s.log| <= j < |s'.log| ==> IsRead(s'.log[j], MBOX_DATAOUT)
    decreases s.dlen - s.rd
  {
    var mid;
    mid, s' := Transact(c, reach, s, 0);
    assert IsRead(Transfer(c, mid, Answer(0)), MBOX_DATAOUT);
    if s.rd < s.dlen {
      s' := ReadWords(c, reach, s');
    }
  }

  // DLEN reads as n, n + 1 words, EXECUTE=0; then the master acknowledges data with STATUS=1.
  lemma Receive(c: Fuses, reach: Regs -> bool, s: Regs, n: Word) returns (s': Regs)
    requires Inductive(c, reach) && Undisturbed(reach, s, false) && s.st.DONE? && s.executeRx && !s.statusSet
    ensures Undisturbed(reach, s', false) && s'.st.DONE? && Logs(s, s', n + 4)
    ensures var at := |s.log|;
            && s'.log[at] == Xfer(MBOX_DLEN, false, n)
            && (forall j :: at < j < at + n + 2 ==> IsRead(s'.log[j], MBOX_DATAOUT))
            && s'.log[at + n + 2] == Xfer(MBOX_EXECUTE, true, 0)
            && s'.log[at + n + 3] == Xfer(MBOX_STATUS, true, 1)
  {
    var mid;
    s' := DataComes(c, reach, s);
    mid, s' := Transact(c, reach, s', n);
    assert Transfer(c, mid, Answer(n)) == Xfer(MBOX_DLEN, false, n);
    s' := ReadWords(c, reach, s');
    s' := Acknowledge(c, reach, s');
  }

  lemma Acknowledge(c: Fuses, reach: Regs -> bool, s: Regs) returns (s': Regs)
    requires Inductive(c, reach) && Undisturbed(reach, s, false) && s.st.RST_EXEC?
    ensures Undisturbed(reach, s', false) && s'.st.DONE?
    ensures s'.log == s.log + [Xfer(MBOX_EXECUTE, true, 0), Xfer(MBOX_STATUS, true, 1)]
  {
    var mid;
    mid, s' := Transact(c, reach, s, 0);
    assert Transfer(c, mid, Answer(0)) == Xfer(MBOX_EXECUTE, true, 0);
    s' := DataComes(c, reach, s');
    mid, s' := Transact(c, reach, s', 0);
    assert Transfer(c, mid, Answer(0)) == Xfer(MBOX_STATUS, true, 1);
  }

  // ---------- The whole language ----------

  // Fuses, stepping id, fuse-done, a clear poll, boot-go, lock, CMD, DLEN, 256 words, EXECUTE=1.
  ghost predicate WholeBoot(c: Fuses, log: seq<Xfer>)
    requires c.Valid()
  {
    && |log| == 12 + 8 + 2 + 2 + 3 + 256 + 1
    && (forall j :: 0 <= j < 12 ==> IsWrite(log[j], FUSE_UDS_SEED_0 + 4 * j, c.uds[j]))
    && (forall j :: 12 <= j < 20 ==> IsWrite(log[j], FUSE_FIELD_ENTROPY_0 + 4 * (j - 12), c.fe[j - 12]))
    && log[20].write && log[20].addr == FUSE_SOC_STEPPING_ID
    && IsWrite(log[21], CPTRA_FUSE_WR_DONE, 1)
    && FlowPoll(log[22], false) && IsWrite(log[23], CPTRA_BOOTFSM_GO, 1)
    && IsRead(log[24], MBOX_LOCK) && log[24].data != 0
    && IsWrite(log[25], MBOX_CMD, FW_COMMAND) && IsWrite(log[26], MBOX_DLEN, 4 * 256)
    && (forall j :: 27 <= j < 283 ==> log[j].write && log[j].addr == MBOX_DATAIN)
    && IsWrite(log[283], MBOX_EXECUTE, 1)
  }

  // From power-up to the end of the push.
  lemma Pushed(c: Fuses, reach: Regs -> bool) returns (s: Regs)
    requires (forall s0 :: Initial(s0) ==> reach(s0)) && Inductive(c, reach)
    ensures Undisturbed(reach, s, false) && s.st.DONE? && s.executeRx && !s.statusSet && |s.log| == 284
    ensures s.log[22] == Xfer(CPTRA_FLOW_STATUS, false, 0) && s.log[24] == Xfer(MBOX_LOCK, false, 1)
    ensures s.log[283] == Xfer(MBOX_EXECUTE, true, 1)
  {
    s := PowerUp(seq(FW_NUM_DWORDS, _ => 0), 0);
    assert Initial(s);
    s := StartBoot(c, reach, s);
    s := WriteFuses(c, reach, s);
    s := FinishFuses(c, reach, s);
    s := PollAndGo(c, reach, s);
    s := AwaitPush(c, reach, s);
    s := Push(c, reach, s);
  }

  lemma ReachableIsInductive(c: Fuses)
    ensures Inductive(c, (s: Regs) => Reachable(c, s)) && forall s0 :: Initial(s0) ==> Reachable(c, s0)
  {
    forall s0 | Initial(s0) ensures Reachable(c, s0) {
      assert Run(c, s0, []) == s0;
    }
    forall s, i: Inputs | Reachable(c, s) && i.rstB ensures Reachable(c, Edge(c, s, i)) {
      ReachableEdge(c, s, i);
    }
  }

  lemma WholeFromPositions(c: Fuses, s: Regs)
    requires c.Valid() && Reachable(c, s) && |s.log| == 284
    requires s.log[22] == Xfer(CPTRA_FLOW_STATUS, false, 0) && s.log[24] == Xfer(MBOX_LOCK, false, 1)
    requires s.log[283] == Xfer(MBOX_EXECUTE, true, 1)
    ensures WholeBoot(c, s.log)
  {
    forall j | 0 <= j < BOOT ensures FuseTransfer(c, s.log[j], j) {
      BootLanguage(c, s, j);
    }
    BootLanguage(c, s, 22);
    FirmwarePush(c, s, 283);
  }

  /** A run in which the log is the whole language ... */
  lemma BootRun(c: Fuses) returns (s: Regs)
    requires c.Valid()
    ensures Reachable(c, s) && s.st.DONE? && WholeBoot(c, s.log)
  {
    ReachableIsInductive(c);
    s := Pushed(c, (s: Regs) => Reachable(c, s));
    WholeFromPositions(c, s);
  }

  /** ... and for every n one that goes on with the firmware's answer of n + 1 words. */
  lemma ExchangeRun(c: Fuses, n: Word) returns (s: Regs)
    requires c.Valid()
    ensures Reachable(c, s) && s.st.DONE? && |s.log| == 284 + n + 4 && WholeBoot(c, s.log[..284])
    ensures s.log[284] == Xfer(MBOX_DLEN, false, n)
    ensures forall j :: 284 < j < 284 + n + 2 ==> IsRead(s.log[j], MBOX_DATAOUT)
    ensures s.log[284 + n + 2] == Xfer(MBOX_EXECUTE, true, 0)
    ensures s.log[284 + n + 3] == Xfer(MBOX_STATUS, true, 1)
  {
    ReachableIsInductive(c);
    var pushed;
    pushed, s := PushedAndAnswered(c, (s: Regs) => Reachable(c, s), n);
    WholeFromPositions(c, pushed);
    assert s.log[..284] == pushed.log;
  }

  lemma PushedAndAnswered(c: Fuses, reach: Regs -> bool, n: Word) returns (pushed: Regs, s: Regs)
    requires (forall s0 :: Initial(s0) ==> reach(s0)) && Inductive(c, reach)
    ensures reach(pushed) && reach(s) && s.st.DONE? && |pushed.log| == 284 && Logs(pushed, s, n + 4)
    ensures pushed.log[22] == Xfer(CPTRA_FLOW_STATUS, false, 0) && pushed.log[24] == Xfer(MBOX_LOCK, false, 1)
    ensures pushed.log[283] == Xfer(MBOX_EXECUTE, true, 1) && s.log[284] == Xfer(MBOX_DLEN, false, n)
    ensures forall j :: 284 < j < 284 + n + 2 ==> IsRead(s.log[j], MBOX_DATAOUT)
    ensures s.log[284 + n + 2] == Xfer(MBOX_EXECUTE, true, 0)
    ensures s.log[284 + n + 3] == Xfer(MBOX_STATUS, true, 1)
  {
    pushed := Pushed(c, reach);
    s := Receive(c, reach, pushed, n);
  }
}
