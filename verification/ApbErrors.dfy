/** The error detour of the APB master: what it reads, and what it writes back. */
module ApbErrors {
  import opened Apb
  import opened ApbLanguage
  import opened ApbHandshake
  import opened ApbDetour
  import opened ApbBoot

  predicate ErrorWrite(st: ApbState) {
    st.WR_HW_ERROR_FATAL? || st.WR_HW_ERROR_NON_FATAL?
  }

  predicate ErrorRead(st: ApbState) {
    st.RD_HW_ERROR_FATAL? || st.RD_HW_ERROR_NON_FATAL?
  }

  /** The error bits are captured on the negative edge of a cycle in which PREADY is high, and the same
      edge clears them again in the write: a write-one-to-clear access carries the captured bits if and
      only if PREADY was still low at the negative edge before the one that completes it. A non-fatal
      one leaves both done flags clear. */
  lemma ErrorWriteExactly(c: Fuses, s: Regs, n: Inputs, i: Inputs)
    requires ErrorWrite(s.st) && s.high && n.rstB && n.pwrgood && i.rstB
    requires XferEnd(Edge(c, s, n), i)
    ensures var after := Edge(c, Edge(c, s, n), i);
            && after.log == s.log + [Xfer(Paddr(s), true, if n.pready then 0 else s.hwErrorWdata)]
            && Paddr(s) == (if s.st.WR_HW_ERROR_FATAL? then CPTRA_HW_ERROR_FATAL else CPTRA_HW_ERROR_NON_FATAL)
            && (s.st.WR_HW_ERROR_NON_FATAL? ==> !after.oooDone && !after.noLockDone)
  {
  }

  lemma ErrorReadExactly(c: Fuses, s: Regs, n: Inputs)
    requires ErrorRead(s.st) && s.high && s.enablePh && n.rstB
    ensures Edge(c, s, n).hwErrorWdata == if !n.pwrgood then 0 else if n.pready then n.prdata else s.hwErrorWdata
  {
  }

  /** A command to access out of order, or without the lock, is remembered from any state on, until the
      last word of a visit. */
  lemma CommandsLatch(c: Fuses, s: Regs, n: Inputs)
    requires s.high && n.rstB
    ensures var s' := Edge(c, s, n);
            && (n.doOoo ==> s'.ooo) && (n.doNoLock ==> s'.noLock)
            && (!(s.st.RD_DATAOUT? && s.rd == s.dlen) ==>
                  (s'.ooo <==> s.ooo || n.doOoo) && (s'.noLock <==> s.noLock || n.doNoLock))
  {
  }

  // ---------- Leaving a state that selects nothing ----------

  // What such a state waits for.
  predicate Asked(s: Regs, i: Inputs) {
    || (s.st.IDLE? && i.start)
    || (s.st.WAIT_FW_TEST? && i.readyForFwPush && s.wr == 5)
    || (s.st.WAIT_ERROR_AXS? && (i.fatalPulse || i.nonFatalPulse || s.hwErrorWdata != 0 || i.doNoLock ||
                                 (s.ooo && !s.oooDone)))
    || (s.st.DONE? && i.dataAvail && (s.executeRx || !s.statusSet))
  }

  // The address selected then, and whether it is written; fatal errors come before non-fatal ones,
  // and both before what is left of earlier ones and before mailbox accesses.
  function FirstAccess(s: Regs, i: Inputs): (nat, bool) {
    if s.st.IDLE? then (0x30030200, true)
    else if s.st.WAIT_FW_TEST? then (0x30020000, false)
    else if s.st.DONE? then (if s.executeRx then (0x3002000c, false) else (0x3002001c, true))
    else if i.fatalPulse then (0x30030000, false)
    else if i.nonFatalPulse then (0x30030004, false)
    else if s.hwErrorWdata != 0 then (0x30030000, true)
    else if i.doNoLock then (0x3002000c, false)
    else (0x30020000, false)
  }

  lemma NextSelects(s: Regs, i: Inputs)
    requires !Psel(s.st) && !s.st.PRE_WR_CMD?
    ensures Psel(NextState(s, i)) <==> Asked(s, i)
  {
  }

  lemma UnselectedEdge(c: Fuses, s: Regs, i: Inputs) returns (s': Regs)
    requires !s.high && !Psel(s.st) && i.rstB
    ensures s' == Edge(c, s, i) == Posedge(c, s, i) && s'.log == s.log && s'.high && !s'.enablePh
    ensures s'.st == NextState(s, i) && s'.wr == NextWr(s, i) && s'.hwErrorWdata == s.hwErrorWdata
  {
    s' := Edge(c, s, i);
  }

  lemma NextAccess(s: Regs, i: Inputs, s': Regs)
    requires Asked(s, i) && s'.st == NextState(s, i) && s'.wr == NextWr(s, i)
    ensures FirstAccess(s, i) == (Paddr(s'), Pwrite(s'.st))
  {
  }

  lemma NeverBeforeCommand(c: Fuses, s: Regs)
    requires c.Valid() && Reachable(c, s)
    ensures !s.st.PRE_WR_CMD?
  {
    ReachableInv(c, s);
  }

  /** In every run the master selects a register exactly if it was asked to, and then the one asked for. */
  lemma SelectsExactly(c: Fuses, s: Regs, i: Inputs)
    requires c.Valid() && Reachable(c, s) && !s.high && !Psel(s.st) && i.rstB
    ensures var s' := Edge(c, s, i);
            && (Psel(s'.st) <==> Asked(s, i)) && s'.log == s.log
            && (Asked(s, i) ==> FirstAccess(s, i) == (Paddr(s'), Pwrite(s'.st)))
  {
    NeverBeforeCommand(c, s);
    NextSelects(s, i);
    var s' := UnselectedEdge(c, s, i);
    if Asked(s, i) {
      NextAccess(s, i, s');
    }
  }

  // Reached inside the detour, holding captured bits.
  ghost predicate InDetour(reach: Regs -> bool, s: Regs, enable: bool, bits: Word) {
    && reach(s) && !s.high && s.enablePh == enable && s.hwErrorWdata == bits
  }

  lemma DetourCycle(c: Fuses, reach: Regs -> bool, s: Regs, i: Inputs) returns (s': Regs)
    requires Inductive(c, reach) && reach(s) && !s.high && i.rstB
    ensures s' == Cycle(c, s, i) && reach(s')
  {
    KeptByCycle(c, reach, s, i);
    s' := Cycle(c, s, i);
  }

  lemma ReadError(c: Fuses, reach: Regs -> bool, s: Regs, bits: Word) returns (s': Regs)
    requires Inductive(c, reach) && Quiet(reach, s, false, false) && s.st.WAIT_FW_TEST?
    ensures InDetour(reach, s', false, bits) && s'.st.WR_HW_ERROR_NON_FATAL?
    ensures s'.log == s.log + [Xfer(CPTRA_HW_ERROR_NON_FATAL, false, bits)]
  {
    s' := DetourCycle(c, reach, s, Calm(0).(errorInjectionSeen := true));
    s' := DetourCycle(c, reach, s', Calm(0).(nonFatalPulse := true));
    assert s'.st.RD_HW_ERROR_NON_FATAL? && !s'.enablePh && s'.log == s.log;
    s' := SetUpRead(c, reach, s', bits);
    s' := CompleteRead(c, reach, s', bits);
  }

  lemma SetUpRead(c: Fuses, reach: Regs -> bool, s: Regs, bits: Word) returns (s': Regs)
    requires Inductive(c, reach) && reach(s) && !s.high && s.st.RD_HW_ERROR_NON_FATAL? && !s.enablePh
    ensures InDetour(reach, s', true, bits) && s'.st.RD_HW_ERROR_NON_FATAL? && s'.log == s.log
  {
    s' := DetourCycle(c, reach, s, Calm(bits));
  }

  lemma CompleteRead(c: Fuses, reach: Regs -> bool, s: Regs, bits: Word) returns (s': Regs)
    requires Inductive(c, reach) && InDetour(reach, s, true, bits) && s.st.RD_HW_ERROR_NON_FATAL?
    ensures InDetour(reach, s', false, bits) && s'.st.WR_HW_ERROR_NON_FATAL?
    ensures s'.log == s.log + [Xfer(CPTRA_HW_ERROR_NON_FATAL, false, bits)]
  {
    s' := DetourCycle(c, reach, s, Calm(bits));
  }

  // A responder that is ready in time for the negative edge, or only just for the positive one.
  lemma WriteError(c: Fuses, reach: Regs -> bool, s: Regs, bits: Word, early: bool) returns (s': Regs)
    requires Inductive(c, reach) && InDetour(reach, s, false, bits) && s.st.WR_HW_ERROR_NON_FATAL?
    ensures reach(s') && s'.st.WAIT_ERROR_AXS?
    ensures s'.log == s.log + [Xfer(CPTRA_HW_ERROR_NON_FATAL, true, if early then 0 else bits)]
  {
    s' := SetUpWrite(c, reach, s, bits, early);
    s' := CompleteWrite(c, reach, s', if early then 0 else bits);
  }

  lemma SetUpWrite(c: Fuses, reach: Regs -> bool, s: Regs, bits: Word, early: bool) returns (s': Regs)
    requires Inductive(c, reach) && InDetour(reach, s, false, bits) && s.st.WR_HW_ERROR_NON_FATAL?
    ensures InDetour(reach, s', true, if early then 0 else bits) && s'.st.WR_HW_ERROR_NON_FATAL? && s'.log == s.log
  {
    s' := DetourCycle(c, reach, s, Calm(0).(pready := early));
  }

  lemma CompleteWrite(c: Fuses, reach: Regs -> bool, s: Regs, bits: Word) returns (s': Regs)
    requires Inductive(c, reach) && InDetour(reach, s, true, bits) && s.st.WR_HW_ERROR_NON_FATAL?
    ensures reach(s') && s'.st.WAIT_ERROR_AXS?
    ensures s'.log == s.log + [Xfer(CPTRA_HW_ERROR_NON_FATAL, true, bits)]
  {
    s' := DetourCycle(c, reach, s, Calm(0));
  }

  lemma Detour(c: Fuses, reach: Regs -> bool, bits: Word, early: bool) returns (s: Regs)
    requires (forall s0 :: Initial(s0) ==> reach(s0)) && Inductive(c, reach)
    ensures reach(s) && s.st.WAIT_ERROR_AXS? && |s.log| >= 2
    ensures s.log[|s.log| - 2] == Xfer(CPTRA_HW_ERROR_NON_FATAL, false, bits)
    ensures s.log[|s.log| - 1] == Xfer(CPTRA_HW_ERROR_NON_FATAL, true, if early then 0 else bits)
  {
    s := ApbDetour.Boot(c, reach);
    s := ReadError(c, reach, s, bits);
    s := WriteError(c, reach, s, bits, early);
  }

  /** So a responder that holds PREADY over the whole cycle, as one clocked on the positive edge does,
      gets zero written to the error register it reported any bits in; one that raises PREADY after the
      negative edge gets the bits. */
  lemma ErrorDetourRun(c: Fuses, bits: Word, early: bool) returns (s: Regs)
    ensures Reachable(c, s) && s.st.WAIT_ERROR_AXS? && |s.log| >= 2
    ensures s.log[|s.log| - 2] == Xfer(CPTRA_HW_ERROR_NON_FATAL, false, bits)
    ensures s.log[|s.log| - 1] == Xfer(CPTRA_HW_ERROR_NON_FATAL, true, if early then 0 else bits)
  {
    ReachableIsInductive(c);
    s := Detour(c, (s: Regs) => Reachable(c, s), bits, early);
  }

  // ---------- Fatal errors ----------

  // Between two cycles of a detour.
  ghost predicate Stands(s: Regs, st: ApbState, enable: bool, bits: Word, log: seq<Xfer>) {
    s.st == st && !s.high && s.enablePh == enable && s.hwErrorWdata == bits && s.log == log
  }

  lemma BeforeSetUp(s: Regs, i: Inputs) returns (s': Regs)
    requires !s.enablePh && i.pwrgood
    ensures s' == Negedge(s, i) && Stands(s', s.st, false, s.hwErrorWdata, s.log)
  {
    s' := Negedge(s, i);
  }

  lemma UnselectedCycle(c: Fuses, s: Regs, i: Inputs) returns (s': Regs)
    requires !s.high && !Psel(s.st) && i.rstB && i.pwrgood
    ensures s' == Cycle(c, s, i) && Stands(s', NextState(s, i), false, s.hwErrorWdata, s.log)
  {
    s' := UnselectedEdge(c, s, i);
    s' := BeforeSetUp(s', i);
  }

  lemma FatalAsked(c: Fuses, s: Regs, i: Inputs, bits: Word, log: seq<Xfer>) returns (s': Regs)
    requires Stands(s, WAIT_ERROR_AXS, false, bits, log) && i.rstB && i.pwrgood && i.fatalPulse
    ensures s' == Cycle(c, s, i) && Stands(s', RD_HW_ERROR_FATAL, false, bits, log)
  {
    s' := UnselectedCycle(c, s, i);
  }

  lemma FatalSetUp(c: Fuses, s: Regs, was: Word, bits: Word, log: seq<Xfer>) returns (s': Regs)
    requires Stands(s, RD_HW_ERROR_FATAL, false, was, log)
    ensures s' == Cycle(c, s, Calm(bits)) && Stands(s', RD_HW_ERROR_FATAL, true, bits, log)
  {
    s' := Cycle(c, s, Calm(bits));
  }

  lemma FatalAccess(c: Fuses, s: Regs, bits: Word, log: seq<Xfer>) returns (s': Regs)
    requires Stands(s, RD_HW_ERROR_FATAL, true, bits, log)
    ensures s' == Cycle(c, s, Calm(bits))
    ensures Stands(s', ERROR, false, bits, log + [Xfer(CPTRA_HW_ERROR_FATAL, false, bits)])
  {
    s' := Cycle(c, s, Calm(bits));
  }

  /** A fatal pulse makes the master read the register, keep the bits and stop in the error state. */
  lemma FatalReadCycles(c: Fuses, s: Regs, was: Word, bits: Word) returns (s1: Regs, s2: Regs, s3: Regs)
    requires Stands(s, WAIT_ERROR_AXS, false, was, s.log)
    ensures s1 == Cycle(c, s, Calm(0).(fatalPulse := true)) && s2 == Cycle(c, s1, Calm(bits))
    ensures s3 == Cycle(c, s2, Calm(bits))
    ensures Stands(s3, ERROR, false, bits, s.log + [Xfer(CPTRA_HW_ERROR_FATAL, false, bits)])
  {
    s1 := FatalAsked(c, s, Calm(0).(fatalPulse := true), was, s.log);
    s2 := FatalSetUp(c, s1, was, bits, s.log);
    s3 := FatalAccess(c, s2, bits, s.log);
  }

  /** A fatal error is read, and then the master does nothing more until a reset, which keeps the bits. */
  lemma {:induction false} ErrorIsFinal(c: Fuses, s: Regs, es: seq<Inputs>)
    requires s.st.ERROR? && NoReset(es) && forall i :: 0 <= i < |es| ==> es[i].pwrgood
    ensures var after := Run(c, s, es); after.st.ERROR? && after.log == s.log && after.hwErrorWdata == s.hwErrorWdata
  {
    if es != [] {
      ErrorIsFinal(c, s, es[..|es| - 1]);
      ErrorStays(c, Run(c, s, es[..|es| - 1]), es[|es| - 1]);
    }
  }

  lemma ErrorStays(c: Fuses, s: Regs, i: Inputs)
    requires s.st.ERROR? && i.rstB && i.pwrgood
    ensures var s' := Edge(c, s, i); s'.st.ERROR? && s'.log == s.log && s'.hwErrorWdata == s.hwErrorWdata
  {
  }

  /** A reset puts the master where power-up does, in any state and at any edge; only the firmware
      words, the held stepping word, the clock and, with power good, the captured bits survive. */
  lemma ResetIsPowerUp(c: Fuses, s: Regs, i: Inputs)
    requires !i.rstB
    ensures Edge(c, s, i) ==
            PowerUp(s.blob, s.stepping).(high := !s.high, hwErrorWdata := if i.pwrgood then s.hwErrorWdata else 0)
    ensures var p := PowerUp(s.blob, s.stepping);
            && p.st.IDLE? && p.wr == p.rd == 0 && !p.enablePh && !p.statusSet && p.dlen == 0 && p.log == []
            && !p.ooo && !p.noLock && !p.oooDone && !p.noLockDone && !p.executeRx
  {
  }

  lemma FatalWriteAsked(c: Fuses, s: Regs, i: Inputs, bits: Word, log: seq<Xfer>) returns (s': Regs)
    requires Stands(s, WAIT_ERROR_AXS, false, bits, log) && bits != 0
    requires i.rstB && i.pwrgood && !i.fatalPulse && !i.nonFatalPulse
    ensures s' == Cycle(c, s, i) && Stands(s', WR_HW_ERROR_FATAL, false, bits, log)
  {
    s' := UnselectedCycle(c, s, i);
  }

  lemma FatalWriteSetUp(c: Fuses, s: Regs, bits: Word, early: bool, log: seq<Xfer>) returns (s': Regs)
    requires Stands(s, WR_HW_ERROR_FATAL, false, bits, log)
    ensures s' == Cycle(c, s, Calm(0).(pready := early))
    ensures Stands(s', WR_HW_ERROR_FATAL, true, if early then 0 else bits, log)
  {
    s' := Cycle(c, s, Calm(0).(pready := early));
  }

  lemma FatalWriteAccess(c: Fuses, s: Regs, bits: Word, log: seq<Xfer>) returns (s': Regs)
    requires Stands(s, WR_HW_ERROR_FATAL, true, bits, log)
    ensures s' == Cycle(c, s, Calm(0)) && s'.st.WAIT_ERROR_AXS?
    ensures s'.log == log + [Xfer(CPTRA_HW_ERROR_FATAL, true, bits)]
  {
    s' := Cycle(c, s, Calm(0));
  }

  /** Bits captured earlier, as by a fatal read before the reset, are written back to the fatal register
      from the error wait, under the same condition. */
  lemma CapturedBitsWrittenBack(c: Fuses, s: Regs, bits: Word, early: bool) returns (s1: Regs, s2: Regs, s3: Regs)
    requires Stands(s, WAIT_ERROR_AXS, false, bits, s.log) && bits != 0
    ensures s1 == Cycle(c, s, Calm(0)) && s2 == Cycle(c, s1, Calm(0).(pready := early))
    ensures s3 == Cycle(c, s2, Calm(0)) && s3.st.WAIT_ERROR_AXS?
    ensures s3.log == s.log + [Xfer(CPTRA_HW_ERROR_FATAL, true, if early then 0 else bits)]
  {
    s1 := FatalWriteAsked(c, s, Calm(0), bits, s.log);
    s2 := FatalWriteSetUp(c, s1, bits, early, s.log);
    s3 := FatalWriteAccess(c, s2, if early then 0 else bits, s.log);
  }

  // ---------- Accesses without the lock ----------

  // In a visit that reads DLEN as zero, asked for by a no-lock command.
  ghost predicate Visiting(s: Regs, st: ApbState, enable: bool, log: seq<Xfer>) {
    && s.st == st && !s.high && s.enablePh == enable && s.log == log
    && s.noLock && s.rd == s.dlen == 0
  }

  lemma NoLockAsked(c: Fuses, s: Regs, log: seq<Xfer>) returns (s': Regs)
    requires Stands(s, WAIT_ERROR_AXS, false, 0, log) && s.dlen == 0
    ensures s' == Cycle(c, s, Calm(0).(doNoLock := true)) && Visiting(s', RD_DLEN, false, log)
  {
    s' := Cycle(c, s, Calm(0).(doNoLock := true));
  }

  lemma NoLockSetUp(c: Fuses, s: Regs, log: seq<Xfer>) returns (s': Regs)
    requires Visiting(s, RD_DLEN, false, log)
    ensures s' == Cycle(c, s, Calm(0)) && Visiting(s', RD_DLEN, true, log)
  {
    s' := Cycle(c, s, Calm(0));
  }

  lemma NoLockDlen(c: Fuses, s: Regs, log: seq<Xfer>) returns (s': Regs)
    requires Visiting(s, RD_DLEN, true, log)
    ensures s' == Cycle(c, s, Calm(0)) && s'.st.RD_DATAOUT? && !s'.high && !s'.enablePh
    ensures s'.rd == s'.dlen == 0 && s'.noLockDone && s'.log == log + [Xfer(MBOX_DLEN, false, 0)]
  {
    s' := Cycle(c, s, Calm(0));
  }

  lemma NoLockDataout(c: Fuses, s: Regs, log: seq<Xfer>) returns (s1: Regs, s2: Regs)
    requires s.st.RD_DATAOUT? && !s.high && !s.enablePh && s.rd == s.dlen == 0 && s.noLockDone && s.log == log
    ensures s1 == Cycle(c, s, Calm(0)) && s2 == Cycle(c, s1, Calm(0))
    ensures s2.st.WAIT_ERROR_AXS? && s2.log == log + [Xfer(MBOX_DATAOUT, false, 0)]
  {
    s1 := NoLockWait(c, s, log);
    s2 := Cycle(c, s1, Calm(0));
  }

  lemma NoLockWait(c: Fuses, s: Regs, log: seq<Xfer>) returns (s': Regs)
    requires s.st.RD_DATAOUT? && !s.high && !s.enablePh && s.rd == s.dlen == 0 && s.noLockDone && s.log == log
    ensures s' == Cycle(c, s, Calm(0)) && s'.st.RD_DATAOUT? && !s'.high && s'.enablePh
    ensures s'.rd == s'.dlen == 0 && s'.noLockDone && s'.log == log
  {
    s' := Cycle(c, s, Calm(0));
  }

  /** Asked for an access without the lock, the master reads DLEN and DATAOUT, takes no lock and returns
      to the error wait. */
  lemma NoLockVisit(c: Fuses, s: Regs) returns (s1: Regs, s2: Regs, s3: Regs, s4: Regs, s5: Regs)
    requires Stands(s, WAIT_ERROR_AXS, false, 0, s.log) && s.dlen == 0
    ensures s1 == Cycle(c, s, Calm(0).(doNoLock := true)) && s2 == Cycle(c, s1, Calm(0)) && s3 == Cycle(c, s2, Calm(0))
    ensures s4 == Cycle(c, s3, Calm(0)) && s5 == Cycle(c, s4, Calm(0)) && s5.st.WAIT_ERROR_AXS?
    ensures s5.log == s.log + [Xfer(MBOX_DLEN, false, 0), Xfer(MBOX_DATAOUT, false, 0)]
  {
    s1 := NoLockAsked(c, s, s.log);
    s2 := NoLockSetUp(c, s1, s.log);
    s3 := NoLockDlen(c, s2, s.log);
    s4, s5 := NoLockDataout(c, s3, s3.log);
  }

  // ---------- One acknowledgement ----------

  ghost predicate Available(es: seq<Inputs>) {
    forall i :: 0 <= i < |es| ==> es[i].dataAvail
  }

  lemma AcknowledgedStays(c: Fuses, s: Regs, i: Inputs)
    requires s.st.DONE? && s.statusSet && !s.executeRx && i.rstB && i.dataAvail
    ensures var s' := Edge(c, s, i); s'.st.DONE? && s'.statusSet && !s'.executeRx && s'.log == s.log
  {
  }

  /** Data that stays available after its acknowledgement is not acknowledged twice. */
  lemma {:induction false} NoSecondStatus(c: Fuses, s: Regs, es: seq<Inputs>)
    requires s.st.DONE? && s.statusSet && !s.executeRx && NoReset(es) && Available(es)
    ensures var after := Run(c, s, es);
            after.st.DONE? && after.statusSet && !after.executeRx && after.log == s.log
  {
    if es != [] {
      NoSecondStatus(c, s, es[..|es| - 1]);
      AcknowledgedStays(c, Run(c, s, es[..|es| - 1]), es[|es| - 1]);
    }
  }

  /** ... and the write of the acknowledgement marks it. */
  lemma StatusMarks(c: Fuses, s: Regs, i: Inputs, n: Inputs)
    requires s.st.WR_STATUS? && !s.high && !s.executeRx && i.rstB && n.rstB && i.dataAvail && XferEnd(s, i)
    ensures var after := Edge(c, Edge(c, s, i), n);
            after.st.DONE? && after.statusSet && !after.executeRx && after.log == s.log + [Xfer(MBOX_STATUS, true, 1)]
  {
  }
}
