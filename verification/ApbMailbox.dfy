/** The APB master's visits to the mailbox's DATAOUT register. */
module ApbMailbox {
  import opened Apb
  import opened ApbLanguage

  // The log ends with a read of DLEN and k reads of DATAOUT.
  predicate VisitLog(log: seq<Xfer>, k: nat) {
    && k < |log| && IsRead(log[|log| - 1 - k], MBOX_DLEN)
    && forall j :: |log| - k <= j < |log| ==> IsRead(log[j], MBOX_DATAOUT)
  }

  predicate VisitInv(s: Regs) {
    s.st.RD_DATAOUT? ==>
      && s.outReads == s.rd <= s.dlen && VisitLog(s.log, s.rd)
      && (s.visitOoo ==> OooHeld(s))
  }

  // The latched flag lasts until the negative edge in the last read turns it into the done flag.
  predicate OooHeld(s: Regs) {
    && (s.rd < s.dlen ==> s.ooo && !s.cleared)
    && (s.rd == s.dlen ==> (s.oooDone <==> !s.cleared) || (s.high && s.ooo && !s.cleared))
  }

  lemma PosedgeKeepsVisit(c: Fuses, s: Regs, i: Inputs)
    requires VisitInv(s) && !s.high
    ensures VisitInv(Posedge(c, s, i))
  {
    var s' := Posedge(c, s, i);
    if s'.st.RD_DATAOUT? {
      if s.st.RD_DATAOUT? {
        assert XferEnd(s, i) ==> s'.log == s.log + [Transfer(c, s, i)];
      } else {
        assert s.st.RD_DLEN? && s'.log == s.log + [Transfer(c, s, i)];
      }
    }
  }

  lemma NegedgeKeepsVisit(s: Regs, i: Inputs)
    requires VisitInv(s) && s.high
    ensures VisitInv(Negedge(s, i))
  {
  }

  lemma {:induction false} RunVisits(c: Fuses, s0: Regs, es: seq<Inputs>)
    requires Initial(s0)
    ensures VisitInv(Run(c, s0, es))
  {
    if es != [] {
      RunVisits(c, s0, es[..|es| - 1]);
      var s, i := Run(c, s0, es[..|es| - 1]), es[|es| - 1];
      EdgeKeepsVisit(c, s, i);
    }
  }

  lemma EdgeKeepsVisit(c: Fuses, s: Regs, i: Inputs)
    requires VisitInv(s)
    ensures VisitInv(Edge(c, s, i))
  {
    if i.rstB {
      if s.high {
        NegedgeKeepsVisit(s, i);
      } else {
        PosedgeKeepsVisit(c, s, i);
      }
    }
  }

  lemma ReachableVisit(c: Fuses, s: Regs)
    requires Reachable(c, s)
    ensures VisitInv(s)
  {
    var s0, es :| Initial(s0) && Run(c, s0, es) == s;
    RunVisits(c, s0, es);
  }

  /** When a visit to DATAOUT ends, the log ends with the read of DLEN that began it and exactly
      dlen + 1 reads of DATAOUT. A visit begun with the out-of-order flag latched ends in
      WAIT_ERROR_AXS and does not reset EXECUTE, except exactly when a done-flag reset arrived in
      its last read and the no-lock done flag is not set either. */
  lemma DataoutVisit(c: Fuses, s: Regs, i: Inputs)
    requires Reachable(c, s) && !s.high && s.st.RD_DATAOUT? && !NextState(s, i).RD_DATAOUT?
    ensures VisitLog(Posedge(c, s, i).log, s.dlen + 1)
    ensures s.visitOoo ==> NextState(s, i) == if s.cleared && !s.noLockDone then RST_EXEC else WAIT_ERROR_AXS
  {
    ReachableVisit(c, s);
    VisitEnds(s, i);
    VisitGrows(s.log, Transfer(c, s, i), s.rd);
  }

  lemma VisitEnds(s: Regs, i: Inputs)
    requires VisitInv(s) && !s.high && s.st.RD_DATAOUT? && !NextState(s, i).RD_DATAOUT?
    ensures XferEnd(s, i) && s.rd == s.dlen
    ensures s.visitOoo ==> NextState(s, i) == if s.cleared && !s.noLockDone then RST_EXEC else WAIT_ERROR_AXS
  {
  }

  lemma VisitGrows(log: seq<Xfer>, x: Xfer, k: nat)
    requires VisitLog(log, k) && IsRead(x, MBOX_DATAOUT)
    ensures VisitLog(log + [x], k + 1)
  {
  }

  /** dlen does not move during a visit ... */
  lemma DlenHolds(c: Fuses, s: Regs, i: Inputs)
    requires s.st.RD_DATAOUT?
    ensures Negedge(s, i).dlen == s.dlen && Posedge(c, s, i).dlen == s.dlen
  {
  }

  /** ... and it is the very word the log shows for the DLEN read exactly if the negative edge of the
      cycle that completes the read had captured that word: then, if it already saw PREADY, or earlier. */
  lemma DlenOfVisit(c: Fuses, s: Regs, n: Inputs, i: Inputs)
    requires s.st.RD_DLEN? && XferEnd(Negedge(s, n), i)
    ensures var t := Posedge(c, Negedge(s, n), i);
            && t.st.RD_DATAOUT? && t.log[|t.log| - 1] == Xfer(MBOX_DLEN, false, i.prdata)
            && (t.dlen == t.log[|t.log| - 1].data <==> i.prdata == if n.pready then n.prdata else s.dlen)
  {
  }
}
