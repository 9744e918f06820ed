/** What caliptra_isr.c relies on from the core: CSRs, trap entry and mret (RISC-V Privileged
    Architecture, section 3.1.6.1), and an interrupt controller that only delivers priorities
    above meicurpl. */
module Hart {
  const MAX_PRIORITY: nat := 15

  // A program address: thread code, or a point of an interrupt service routine.
  datatype Pc = Thread(addr: nat) | Isr(routine: Routine, point: Point)

  // A routine laid down by the nonstd_veer_isr macro for a vector, or one of the short handlers
  // (std_rv_nop_machine, std_rv_mtvec_mti, nonstd_veer_mtvec_mcei) that touch none of these CSRs.
  datatype Routine = Macro(vec: nat) | Short

  // The statements of the macro, in order. A short handler starts at Return.
  datatype Point =
    | Enter | ReadCidpl | ReadCurpl | ReadMepc | ReadMstatus | ReadMie | WriteCurpl | Open
    | LoadCount | StoreCount | Service | Close
    | RestoreCurpl | RestoreMepc | RestoreMstatus | RestoreMie | Leave | Return

  // The bits of mie the firmware uses: software, timer, external, correctable error.
  datatype Irq = MSI | MTI | MEI | MCEI

  // mstatus, field by field; other holds the positions of the remaining bits that are set.
  datatype Mstatus = Mstatus(mie: bool, mpie: bool, mpp: bv2, other: set<nat>) {
    // csrrs and csrrc, and the bitwise and of two register values.
    function Set(mask: Mstatus): Mstatus {
      Mstatus(mie || mask.mie, mpie || mask.mpie, mpp | mask.mpp, other + mask.other)
    }

    function Clear(mask: Mstatus): Mstatus {
      Mstatus(mie && !mask.mie, mpie && !mask.mpie, mpp & !mask.mpp, other - mask.other)
    }

    function And(mask: Mstatus): Mstatus {
      Mstatus(mie && mask.mie, mpie && mask.mpie, mpp & mask.mpp, other * mask.other)
    }
  }

  const MACHINE: bv2 := 3
  const MSTATUS_MIE := Mstatus(true, false, 0, {})
  const MSTATUS_MPIE := Mstatus(false, true, 0, {})
  const MSTATUS_MPP := Mstatus(false, false, 3, {})
  const MIE_RESTORED := {MSI, MTI, MEI}

  datatype Csrs = Csrs(meicurpl: nat, meicidpl: nat, mepc: Pc, mstatus: Mstatus, mie: set<Irq>)

  // Trap entry from machine mode.
  function TrapStatus(m: Mstatus): Mstatus {
    m.(mie := false, mpie := m.mie, mpp := MACHINE)
  }

  function Trap(c: Csrs, pc: Pc): Csrs {
    c.(mepc := pc, mstatus := TrapStatus(c.mstatus))
  }

  // mret; lowest is the least privileged mode the core implements.
  function MretStatus(m: Mstatus, lowest: bv2): Mstatus {
    m.(mie := m.mpie, mpie := true, mpp := lowest)
  }

  // The value csrrs leaves in mstatus at the end of the macro.
  function OrRestored(now: Mstatus, saved: Mstatus): Mstatus {
    now.Set(saved.And(MSTATUS_MPIE.Set(MSTATUS_MPP)))
  }

  predicate SameButStack(a: Mstatus, b: Mstatus) {
    a.mie == b.mie && a.other == b.other
  }

  /** The csrrs that restores mstatus can only set bits. It gives back the value read on entry,
      whatever mpie and mpp the service left, exactly when that value has all of them set: and
      every trap entry out of code that runs with interrupts enabled sets them. */
  lemma OrRestoreSuffices(saved: Mstatus)
    ensures (forall now :: SameButStack(now, saved) ==> OrRestored(now, saved) == saved)
            <==> saved.mpie && saved.mpp == MACHINE
    ensures forall m: Mstatus :: m.mie ==> TrapStatus(m).mpie && TrapStatus(m).mpp == MACHINE
  {
    var full := saved.(mpie := true, mpp := MACHINE);
    assert SameButStack(full, saved);
    assert OrRestored(full, saved).mpie && OrRestored(full, saved).mpp == MACHINE;
    forall now | SameButStack(now, saved) && saved.mpie && saved.mpp == MACHINE
      ensures OrRestored(now, saved) == saved
    {
      assert OrRestored(now, saved).other == saved.other;
    }
  }

  /** mret against trap entry: out of code with any mstatus, in machine mode, the pair gives back the
      interrupt enable and the bits outside the trap stack, and all of mstatus exactly if its trap
      fields already were what mret leaves there. */
  lemma TrapThenMret(m: Mstatus, lowest: bv2)
    ensures var back := MretStatus(TrapStatus(m), lowest);
            && SameButStack(back, m)
            && (back == m <==> m.mpie && m.mpp == lowest)
  {
  }
}
