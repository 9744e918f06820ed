/** A run of the APB master in which an out-of-order visit does reset EXECUTE. */
module ApbDetour {
  import opened Apb
  import opened ApbLanguage
  import opened ApbHandshake

  // A ready responder that answers data, and nothing else going on.
  function Calm(data: Word): Inputs {
    Inputs(true, true, true, data, false, false, false, false, false, false, false, false, false, false, false, 0)
  }

  // A whole clock cycle over which the inputs do not change.
  function Cycle(c: Fuses, s: Regs, i: Inputs): Regs {
    Negedge(Posedge(c, s, i), i)
  }

  // A property that every edge keeps as long as no reset comes.
  ghost predicate Inductive(c: Fuses, reach: Regs -> bool) {
    forall s, i: Inputs :: reach(s) && i.rstB ==> reach(Edge(c, s, i))
  }

  lemma KeptByCycle(c: Fuses, reach: Regs -> bool, s: Regs, i: Inputs)
    requires Inductive(c, reach) && reach(s) && !s.high && i.rstB
    ensures reach(Cycle(c, s, i))
  {
    var mid := Edge(c, s, i);
    assert reach(mid) && mid.high;
    assert reach(Edge(c, mid, i));
  }

  lemma ReachableEdge(c: Fuses, s: Regs, i: Inputs)
    requires Reachable(c, s)
    ensures Reachable(c, Edge(c, s, i))
  {
    var s0, es :| Initial(s0) && Run(c, s0, es) == s;
    RunExtends(c, s0, es, i);
  }

  lemma RunExtends(c: Fuses, s0: Regs, es: seq<Inputs>, i: Inputs)
    ensures Run(c, s0, es + [i]) == Edge(c, Run(c, s0, es), i)
  {
    assert (es + [i])[..|es|] == es;
  }

  // Reached from begin without a reset.
  ghost predicate Continues(c: Fuses, begin: Regs, s: Regs) {
    exists es :: NoReset(es) && s == Run(c, begin, es)
  }

  lemma ContinuesEdge(c: Fuses, begin: Regs, s: Regs, i: Inputs)
    requires Continues(c, begin, s) && i.rstB
    ensures Continues(c, begin, Edge(c, s, i))
  {
    var es :| NoReset(es) && s == Run(c, begin, es);
    RunExtends(c, begin, es, i);
    assert NoReset(es + [i]);
  }

  // Reached, with the clock low, and no flag up but the two that are latched.
  ghost predicate Calmly(reach: Regs -> bool, s: Regs, enable: bool, ooo: bool, noLock: bool) {
    && reach(s) && !s.high && s.enablePh == enable && s.ooo == ooo && s.noLock == noLock
    && !s.oooDone && !s.noLockDone && s.hwErrorWdata == 0 && s.rd == 0 && s.dlen == 0
  }

  ghost predicate Quiet(reach: Regs -> bool, s: Regs, ooo: bool, noLock: bool) {
    Calmly(reach, s, false, ooo, noLock)
  }

  predicate Simple(st: ApbState) {
    st.WR_UDS? || st.WR_FE? || st.WR_SOC_STEPPING_ID? || st.WR_FUSE_DONE? || st.POLL_LOCK?
  }

  lemma SetupCycle(c: Fuses, reach: Regs -> bool, s: Regs, data: Word, ooo: bool, noLock: bool) returns (s': Regs)
    requires Inductive(c, reach)
    requires Quiet(reach, s, ooo, noLock) && (Simple(s.st) || s.st.RD_DLEN?) && (s.st.RD_DLEN? ==> data == 0)
    ensures Calmly(reach, s', true, ooo, noLock)
    ensures s'.st == s.st && (s.st.WR_UDS? || s.st.WR_FE? ==> s'.wr == s.wr)
  {
    s' := Cycle(c, s, Calm(data));
    KeptByCycle(c, reach, s, Calm(data));
  }

  lemma AccessCycle(c: Fuses, reach: Regs -> bool, s: Regs, data: Word, ooo: bool, noLock: bool) returns (s': Regs)
    requires Inductive(c, reach)
    requires Calmly(reach, s, true, ooo, noLock) && Simple(s.st)
    ensures Quiet(reach, s', ooo, noLock)
    ensures s'.st == NextState(s, Calm(data)) && s'.wr == NextWr(s, Calm(data))
  {
    s' := Cycle(c, s, Calm(data));
    KeptByCycle(c, reach, s, Calm(data));
  }

  lemma {:induction false} WriteUds(c: Fuses, reach: Regs -> bool, s: Regs) returns (s': Regs)
    requires Inductive(c, reach)
    requires Quiet(reach, s, false, false) && s.st.WR_UDS? && s.wr < UDS_DWORDS
    ensures Quiet(reach, s', false, false) && s'.st.WR_FE? && s'.wr == 0
    decreases UDS_DWORDS - s.wr
  {
    s' := SetupCycle(c, reach, s, 0, false, false);
    s' := AccessCycle(c, reach, s', 0, false, false);
    if s.wr < UDS_DWORDS - 1 {
      s' := WriteUds(c, reach, s');
    }
  }

  lemma {:induction false} WriteFe(c: Fuses, reach: Regs -> bool, s: Regs) returns (s': Regs)
    requires Inductive(c, reach)
    requires Quiet(reach, s, false, false) && s.st.WR_FE? && s.wr < FE_DWORDS
    ensures Quiet(reach, s', false, false) && s'.st.WR_SOC_STEPPING_ID?
    decreases FE_DWORDS - s.wr
  {
    s' := SetupCycle(c, reach, s, 0, false, false);
    s' := AccessCycle(c, reach, s', 0, false, false);
    if s.wr < FE_DWORDS - 1 {
      s' := WriteFe(c, reach, s');
    }
  }

  lemma PoweredUp(c: Fuses, reach: Regs -> bool) returns (s: Regs)
    requires forall s0 :: Initial(s0) ==> reach(s0)
    ensures Quiet(reach, s, false, false) && s.st.IDLE?
  {
    s := PowerUp(seq(FW_NUM_DWORDS, _ => 0), 0);
    assert Initial(s);
  }

  lemma Start(c: Fuses, reach: Regs -> bool, s: Regs) returns (s': Regs)
    requires Inductive(c, reach)
    requires Quiet(reach, s, false, false) && s.st.IDLE?
    ensures Quiet(reach, s', false, false) && s'.st.WR_UDS? && s'.wr == 0
  {
    var start := Calm(0).(start := true);
    KeptByCycle(c, reach, s, start);
    s' := Cycle(c, s, start);
  }

  lemma FinishBoot(c: Fuses, reach: Regs -> bool, s: Regs) returns (s': Regs)
    requires Inductive(c, reach)
    requires Quiet(reach, s, false, false) && s.st.WR_SOC_STEPPING_ID?
    ensures Quiet(reach, s', false, false) && s'.st.WAIT_FW_TEST?
  {
    s' := SetupCycle(c, reach, s, 0, false, false);
    s' := AccessCycle(c, reach, s', 0, false, false);
    s' := SetupCycle(c, reach, s', 0, false, false);
    s' := AccessCycle(c, reach, s', 0, false, false);
  }

  lemma Boot(c: Fuses, reach: Regs -> bool) returns (s: Regs)
    requires (forall s0 :: Initial(s0) ==> reach(s0)) && Inductive(c, reach)
    ensures Quiet(reach, s, false, false) && s.st.WAIT_FW_TEST?
  {
    s := PoweredUp(c, reach);
    s := Start(c, reach, s);
    s := WriteUds(c, reach, s);
    s := WriteFe(c, reach, s);
    s := FinishBoot(c, reach, s);
  }

  // A no-lock access may be asked for first; the out-of-order access takes the mailbox lock.
  lemma ReachVisit(c: Fuses, reach: Regs -> bool, noLock: bool) returns (s: Regs)
    requires (forall s0 :: Initial(s0) ==> reach(s0)) && Inductive(c, reach)
    ensures Quiet(reach, s, true, noLock) && s.st.RD_DLEN?
  {
    s := Boot(c, reach);
    s := AskNoLock(c, reach, s, noLock);
    s := AskOutOfOrder(c, reach, s, noLock);
    s := GoForLock(c, reach, s, noLock);
    s := SetupCycle(c, reach, s, 1, true, noLock);
    s := AccessCycle(c, reach, s, 1, true, noLock);
  }

  lemma GoForLock(c: Fuses, reach: Regs -> bool, s: Regs, noLock: bool) returns (s': Regs)
    requires Inductive(c, reach)
    requires Quiet(reach, s, true, noLock) && s.st.WAIT_ERROR_AXS?
    ensures Quiet(reach, s', true, noLock) && s'.st.POLL_LOCK?
  {
    KeptByCycle(c, reach, s, Calm(0));
    s' := Cycle(c, s, Calm(0));
  }

  lemma AskNoLock(c: Fuses, reach: Regs -> bool, s: Regs, noLock: bool) returns (s': Regs)
    requires Inductive(c, reach)
    requires Quiet(reach, s, false, false) && s.st.WAIT_FW_TEST?
    ensures Quiet(reach, s', false, noLock) && s'.st.WAIT_FW_TEST?
  {
    var i := Calm(0).(doNoLock := noLock);
    KeptByCycle(c, reach, s, i);
    s' := Cycle(c, s, i);
  }

  lemma AskOutOfOrder(c: Fuses, reach: Regs -> bool, s: Regs, noLock: bool) returns (s': Regs)
    requires Inductive(c, reach)
    requires Quiet(reach, s, false, noLock) && s.st.WAIT_FW_TEST?
    ensures Quiet(reach, s', true, noLock) && s'.st.WAIT_ERROR_AXS?
  {
    var i := Calm(0).(errorInjectionSeen := true, doOoo := true);
    KeptByCycle(c, reach, s, i);
    s' := Cycle(c, s, i);
  }

  // DLEN reads as zero, and the command that resets both done flags comes in the only DATAOUT read.
  lemma Visit(c: Fuses, reach: Regs -> bool, s: Regs, noLock: bool) returns (s': Regs)
    requires Inductive(c, reach)
    requires Quiet(reach, s, true, noLock) && s.st.RD_DLEN?
    ensures reach(s') && !s'.high && s'.st.RD_DATAOUT? && s'.visitOoo && s'.cleared && !s'.noLockDone
    ensures NextState(s', Calm(0)).RST_EXEC?
  {
    s' := SetupCycle(c, reach, s, 0, true, noLock);
    s' := EnterVisit(c, reach, s', noLock);
    s' := ResetFlags(c, reach, s');
  }

  lemma EnterVisit(c: Fuses, reach: Regs -> bool, s: Regs, noLock: bool) returns (s': Regs)
    requires Inductive(c, reach)
    requires Calmly(reach, s, true, true, noLock) && s.st.RD_DLEN?
    ensures Entered(reach, s')
  {
    KeptByCycle(c, reach, s, Calm(0));
    s' := Cycle(c, s, Calm(0));
  }

  // The first negative edge of the read has turned the latched flags into the done flags.
  ghost predicate Entered(reach: Regs -> bool, s: Regs) {
    && reach(s) && !s.high && s.st.RD_DATAOUT? && !s.enablePh && s.visitOoo
    && !s.ooo && !s.noLock && s.rd == 0 && s.dlen == 0
  }

  lemma ResetFlags(c: Fuses, reach: Regs -> bool, s: Regs) returns (s': Regs)
    requires Inductive(c, reach)
    requires Entered(reach, s)
    ensures reach(s') && !s'.high && s'.st.RD_DATAOUT? && s'.visitOoo && s'.cleared && !s'.noLockDone
    ensures NextState(s', Calm(0)).RST_EXEC?
  {
    var resets := Calm(0).(resetOooDone := true, resetNoLockDone := true);
    KeptByCycle(c, reach, s, resets);
    s' := Cycle(c, s, resets);
  }

  lemma BeginVisit(c: Fuses, noLock: bool) returns (begin: Regs)
    ensures Quiet((s: Regs) => Reachable(c, s), begin, true, noLock) && begin.st.RD_DLEN?
  {
    var reach := (s: Regs) => Reachable(c, s);
    forall s0 | Initial(s0) ensures reach(s0) {
      assert Run(c, s0, []) == s0;
    }
    forall s, i: Inputs | reach(s) && i.rstB ensures reach(Edge(c, s, i)) {
      ReachableEdge(c, s, i);
    }
    begin := ReachVisit(c, reach, noLock);
  }

  lemma EndVisit(c: Fuses, begin: Regs, noLock: bool) returns (end: Regs)
    requires Quiet((s: Regs) => Reachable(c, s), begin, true, noLock) && begin.st.RD_DLEN?
    ensures Reachable(c, end) && Continues(c, begin, end)
    ensures !end.high && end.st.RD_DATAOUT? && end.visitOoo && end.cleared && !end.noLockDone
    ensures NextState(end, Calm(0)).RST_EXEC?
  {
    var reach := (s: Regs) => Reachable(c, s) && Continues(c, begin, s);
    assert Run(c, begin, []) == begin;
    assert reach(begin);
    forall s, i: Inputs | reach(s) && i.rstB ensures reach(Edge(c, s, i)) {
      ReachableEdge(c, s, i);
      ContinuesEdge(c, begin, s, i);
    }
    end := Visit(c, reach, begin, noLock);
  }

  /** A visit that begins with the out-of-order flag latched, with or without a no-lock access latched
      too, goes on without a reset and still resets EXECUTE: the exception in the rule for such visits
      is reachable. */
  lemma OutOfOrderResetsExecute(c: Fuses, noLock: bool) returns (begin: Regs, end: Regs, i: Inputs)
    requires c.Valid()
    ensures Reachable(c, begin) && begin.st.RD_DLEN? && begin.ooo && begin.noLock == noLock
    ensures exists es :: NoReset(es) && end == Run(c, begin, es)
    ensures Reachable(c, end) && !end.high && end.st.RD_DATAOUT? && end.visitOoo
    ensures end.cleared && !end.noLockDone && NextState(end, i).RST_EXEC?
  {
    begin := BeginVisit(c, noLock);
    end := EndVisit(c, begin, noLock);
    i := Calm(0);
  }
}
