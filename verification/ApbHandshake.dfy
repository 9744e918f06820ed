/** The bus handshake of the APB master over whole transfers: section 4.1 of the AMBA APB Protocol
    Specification (IHI 0024C). */
module ApbHandshake {
  import opened Apb
  import opened ApbLanguage

  // What the responder sees of the master in half a clock cycle, with the state that drives it.
  datatype Bus = Bus(psel: bool, penable: bool, paddr: nat, pwrite: bool)

  datatype Half = Half(st: ApbState, high: bool, bus: Bus, pwdata: Word)

  function Show(c: Fuses, s: Regs): Half {
    Half(s.st, s.high, Bus(Psel(s.st), s.enablePh, Paddr(s), Pwrite(s.st)), Pwdata(c, s))
  }

  // Write data the negative edge may clear, and read states, whose write data is ignored.
  predicate DataMayChange(st: ApbState) {
    !Pwrite(st) || st.WR_HW_ERROR_FATAL? || st.WR_HW_ERROR_NON_FATAL?
  }

  // The rising edge that ends this half completes a transfer.
  predicate Completes(h: Half, pready: bool) {
    !h.high && h.bus.psel && h.bus.penable && pready
  }

  // ---------- One edge ----------

  // The same transfer, one edge on: an access cycle from the rising edge on.
  predicate Held(h: Half, next: Half) {
    && next.st == h.st
    && next.bus == (if h.high then h.bus else h.bus.(penable := true))
    && (!DataMayChange(h.st) ==> next.pwdata == h.pwdata)
  }

  predicate Follows(h: Half, pready: bool, next: Half) {
    && next.high == !h.high
    && (h.high ==> next.bus == h.bus)
    && (h.bus.psel && !Completes(h, pready) ==> Held(h, next))
    && (next.bus.penable && !h.high ==> h.bus.psel && !Completes(h, pready))
  }

  lemma PosedgeFollows(c: Fuses, s: Regs, i: Inputs)
    requires !s.high
    ensures Follows(Show(c, s), i.pready, Show(c, Posedge(c, s, i)))
  {
    if Psel(s.st) && !XferEnd(s, i) {
      TransferHolds(s, i);
    }
  }

  lemma NegedgeFollows(c: Fuses, s: Regs, i: Inputs)
    requires s.high
    ensures Follows(Show(c, s), i.pready, Show(c, Negedge(s, i)))
  {
  }

  // ---------- Stretches of a run ----------

  // The halves before, between and after the edges of a stretch.
  ghost function Stretch(c: Fuses, s: Regs, es: seq<Inputs>): (hs: seq<Half>)
    ensures |hs| == |es| + 1
  {
    seq(|es| + 1, j requires 0 <= j <= |es| => Show(c, Run(c, s, es[..j])))
  }

  // A reset takes select and enable away.
  predicate Links(h: Half, i: Inputs, next: Half) {
    if i.rstB then Follows(h, i.pready, next) else !next.bus.psel && !next.bus.penable
  }

  ghost predicate Linked(hs: seq<Half>, es: seq<Inputs>) {
    |hs| == |es| + 1 && forall j :: 0 <= j < |es| ==> Links(hs[j], es[j], hs[j + 1])
  }

  lemma EdgeLinks(c: Fuses, s: Regs, es: seq<Inputs>, j: nat)
    requires j < |es|
    ensures Links(Show(c, Run(c, s, es[..j])), es[j], Show(c, Run(c, s, es[..j + 1])))
  {
    var now := Run(c, s, es[..j]);
    assert es[..j + 1][..j] == es[..j];
    if es[j].rstB {
      if now.high {
        NegedgeFollows(c, now, es[j]);
      } else {
        PosedgeFollows(c, now, es[j]);
      }
    }
  }

  lemma StretchLinked(c: Fuses, s: Regs, es: seq<Inputs>)
    ensures Linked(Stretch(c, s, es), es)
  {
    var hs := Stretch(c, s, es);
    forall j | 0 <= j < |es| ensures Links(hs[j], es[j], hs[j + 1]) {
      EdgeLinks(c, s, es, j);
    }
  }

  // No edge of from..until completes a transfer.
  ghost predicate Pending(hs: seq<Half>, es: seq<Inputs>, from: nat, until: nat)
    requires until <= |es| <= |hs|
  {
    forall j :: from <= j < until ==> !Completes(hs[j], es[j].pready)
  }

  ghost predicate NoReset(es: seq<Inputs>) {
    forall j :: 0 <= j < |es| ==> es[j].rstB
  }

  // The halves after k, up to until, are access cycles of the transfer that k drives.
  ghost predicate AccessOf(hs: seq<Half>, k: nat, until: nat)
    requires k <= until < |hs|
  {
    forall j :: k < j <= until ==>
      && hs[j].st == hs[k].st && hs[j].bus == hs[k].bus.(penable := true)
      && (!DataMayChange(hs[k].st) ==> hs[j].pwdata == hs[k].pwdata)
  }

  // The last half of a setup cycle: selected, not enabled, the clock about to rise.
  predicate Setup(h: Half) {
    h.bus.psel && !h.bus.penable && !h.high
  }

  lemma {:induction false} SetupOf(hs: seq<Half>, es: seq<Inputs>, until: nat) returns (k: nat)
    requires Linked(hs, es) && until <= |es| && !hs[0].bus.penable && hs[until].bus.penable
    ensures k < until && Setup(hs[k]) && (k > 0 ==> hs[k - 1].bus == hs[k].bus)
    ensures AccessOf(hs, k, until) && Pending(hs, es, k, until)
    decreases until
  {
    assert Links(hs[until - 1], es[until - 1], hs[until]);
    if hs[until - 1].bus.penable {
      k := SetupOf(hs, es, until - 1);
    } else {
      k := until - 1;
      if k > 0 {
        assert Links(hs[k - 1], es[k - 1], hs[k]);
      }
    }
  }

  lemma {:induction false} HeldFrom(hs: seq<Half>, es: seq<Inputs>, until: nat)
    requires Linked(hs, es) && NoReset(es) && until <= |es| && hs[0].bus.psel && Pending(hs, es, 0, until)
    ensures hs[until].st == hs[0].st && hs[until].high == (if until % 2 == 0 then hs[0].high else !hs[0].high)
    ensures !DataMayChange(hs[0].st) ==> hs[until].pwdata == hs[0].pwdata
    ensures hs[until].bus == if until > (if hs[0].high then 1 else 0) then hs[0].bus.(penable := true) else hs[0].bus
    decreases until
  {
    if until > 0 {
      HeldFrom(hs, es, until - 1);
      assert Links(hs[until - 1], es[until - 1], hs[until]);
    }
  }

  // ---------- Results ----------

  /** Every access cycle has a setup cycle of the same transfer before it: in every stretch, resets or
      not, that starts with PENABLE low, as every run does, and ends with it high, some earlier cycle
      is a setup cycle, and all that follow it are access cycles of its transfer, none of them
      completing it. */
  lemma AccessNeedsSetup(c: Fuses, s: Regs, es: seq<Inputs>) returns (k: nat)
    requires !s.enablePh && Run(c, s, es).enablePh
    ensures var hs := Stretch(c, s, es);
            && k < |es| && Setup(hs[k]) && (k > 0 ==> hs[k - 1].bus == hs[k].bus)
            && AccessOf(hs, k, |es|) && Pending(hs, es, k, |es|)
  {
    var hs := Stretch(c, s, es);
    StretchLinked(c, s, es);
    assert es[..|es|] == es;
    assert hs[0].bus.penable == s.enablePh && hs[|es|].bus.penable;
    k := SetupOf(hs, es, |es|);
  }

  /** In every run PENABLE implies PSEL, and from any selected half cycle on, as long as no reset comes
      and no edge completes the transfer, select, address and direction are fixed, PENABLE is high
      after the first rising edge, and write data is fixed too (but not that of the
      write-one-to-clear error registers). */
  lemma HandshakeHolds(c: Fuses, s: Regs, es: seq<Inputs>)
    requires c.Valid() && Reachable(c, s) && NoReset(es)
    requires Pending(Stretch(c, s, es), es, 0, |es|)
    ensures s.enablePh ==> Psel(s.st)
    ensures Psel(s.st) ==>
              var first, last := Show(c, s), Show(c, Run(c, s, es));
              && last.bus == (if |es| > (if s.high then 1 else 0) then first.bus.(penable := true) else first.bus)
              && (!DataMayChange(s.st) ==> last.pwdata == first.pwdata)
  {
    ReachableInv(c, s);
    StretchLinked(c, s, es);
    assert es[..|es|] == es && es[..0] == [];
    if Psel(s.st) {
      HeldFrom(Stretch(c, s, es), es, |es|);
    }
  }

  /** The transfer that completes is the one set up: what PREADY logs has the address, the direction
      and, for writes, the data driven ever since the transfer was selected. */
  lemma CompletedAsSetUp(c: Fuses, s: Regs, es: seq<Inputs>, i: Inputs)
    requires c.Valid() && Reachable(c, s) && NoReset(es) && Psel(s.st) && i.rstB
    requires Pending(Stretch(c, s, es), es, 0, |es|)
    requires Completes(Show(c, Run(c, s, es)), i.pready)
    ensures var now := Run(c, s, es);
            exists x :: Edge(c, now, i).log == now.log + [x] && x.addr == Paddr(s) && x.write == Pwrite(s.st)
                        && (!DataMayChange(s.st) ==> x.data == Pwdata(c, s))
  {
    HandshakeHolds(c, s, es);
    var now := Run(c, s, es);
    TransferLogged(c, now, i);
    assert Show(c, now).bus.paddr == Paddr(s);
  }

  lemma TransferLogged(c: Fuses, s: Regs, i: Inputs)
    requires i.rstB && Completes(Show(c, s), i.pready)
    ensures Edge(c, s, i).log == s.log + [Transfer(c, s, i)]
    ensures Transfer(c, s, i) == Xfer(Paddr(s), Pwrite(s.st), if Pwrite(s.st) then Pwdata(c, s) else i.prdata)
  {
  }
}
