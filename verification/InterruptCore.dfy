/** The macro as straight-line code: a core that takes a finite tree of interrupts, updating its
    CSRs and intr_count in place. */
module InterruptCore {
  import opened Hart
  import opened InterruptRuns
  import opened InterruptBounds

  // One interrupt and those that arrive while it is served: before the load of intr_count,
  // between its load and its store, and after. Undeliverable ones stay pending and change nothing.
  datatype Tree =
    | Short
    | Pic(vec: nat, early: seq<Tree>, between: seq<Tree>, late: seq<Tree>)

  // The macros of the tree that are served at a threshold: those above it and above every macro
  // around them. A vector without a macro is served by a handler that lets nothing in.
  function Served(k: Config, t: Tree, threshold: nat): nat {
    match t
    case Short => 0
    case Pic(vec, early, between, late) =>
      if k.priority(vec) <= threshold || !k.isMacro(vec) then 0
      else
        var own := k.priority(vec);
        1 + AllServed(k, early, own) + AllServed(k, between, own) + AllServed(k, late, own)
  }

  function AllServed(k: Config, ts: seq<Tree>, threshold: nat): nat {
    if ts == [] then 0 else Served(k, ts[0], threshold) + AllServed(k, ts[1..], threshold)
  }

  // What they add to intr_count: a store puts back what its load took plus one, so whatever was
  // served in between is lost.
  function Added(k: Config, t: Tree, threshold: nat): nat {
    match t
    case Short => 0
    case Pic(vec, early, between, late) =>
      if k.priority(vec) <= threshold || !k.isMacro(vec) then 0
      else 1 + AllAdded(k, early, k.priority(vec)) + AllAdded(k, late, k.priority(vec))
  }

  function AllAdded(k: Config, ts: seq<Tree>, threshold: nat): nat {
    if ts == [] then 0 else Added(k, ts[0], threshold) + AllAdded(k, ts[1..], threshold)
  }

  /** A tree adds at least one for each macro served at its root and at most one for each macro served
      in it, and all of them exactly if nothing is ever served between a load and a store. */
  lemma {:induction false} AddedIsServed(k: Config, t: Tree, threshold: nat)
    ensures Added(k, t, threshold) <= Served(k, t, threshold)
    ensures Served(k, t, threshold) > 0 ==> Added(k, t, threshold) > 0
    ensures Added(k, t, threshold) == Served(k, t, threshold) <==> NothingBetween(k, t, threshold)
    decreases t, 1
  {
    if t.Pic? && k.priority(t.vec) > threshold && k.isMacro(t.vec) {
      AllAddedIsServed(k, t.early, k.priority(t.vec));
      AllAddedIsServed(k, t.between, k.priority(t.vec));
      AllAddedIsServed(k, t.late, k.priority(t.vec));
    }
  }

  lemma {:induction false} AllAddedIsServed(k: Config, ts: seq<Tree>, threshold: nat)
    ensures AllAdded(k, ts, threshold) <= AllServed(k, ts, threshold)
    ensures AllAdded(k, ts, threshold) == AllServed(k, ts, threshold) <==> NoneBetween(k, ts, threshold)
    decreases ts, 0
  {
    if ts != [] {
      AddedIsServed(k, ts[0], threshold);
      AllAddedIsServed(k, ts[1..], threshold);
    }
  }

  // No macro is served between the load and the store of another.
  predicate NothingBetween(k: Config, t: Tree, threshold: nat) {
    match t
    case Short => true
    case Pic(vec, early, between, late) =>
      k.priority(vec) > threshold && k.isMacro(vec) ==>
        && AllServed(k, between, k.priority(vec)) == 0
        && NoneBetween(k, early, k.priority(vec)) && NoneBetween(k, late, k.priority(vec))
  }

  predicate NoneBetween(k: Config, ts: seq<Tree>, threshold: nat) {
    ts == [] || (NothingBetween(k, ts[0], threshold) && NoneBetween(k, ts[1..], threshold))
  }

  class Core {
    var meicurpl: nat
    var meicidpl: nat
    var mepc: Pc
    var mstatus: Mstatus
    var mie: set<Irq>
    var pc: Pc
    var intrCount: nat
    const lowest: bv2

    constructor (lowest: bv2)
      ensures this.lowest == lowest && intrCount == 0
    {
      this.lowest := lowest;
      meicurpl, meicidpl, mepc, mie, pc, intrCount := 0, 0, Thread(0), {}, Thread(0), 0;
      mstatus := Mstatus(false, false, 0, {});
    }

    method EnterTrap(handler: Routine, cidpl: nat)
      modifies this
      ensures mepc == old(pc) && mstatus == TrapStatus(old(mstatus)) && meicidpl == cidpl
      ensures meicurpl == old(meicurpl) && mie == old(mie) && intrCount == old(intrCount)
      ensures pc == Isr(handler, if handler.Macro? then Enter else Return)
    {
      mepc := pc;
      mstatus := TrapStatus(mstatus);
      meicidpl := cidpl;
      pc := Isr(handler, if handler.Macro? then Enter else Return);
    }

    method Mret()
      modifies this
      ensures pc == mepc == old(mepc) && mstatus == MretStatus(old(mstatus), lowest)
      ensures meicidpl == old(meicidpl) && meicurpl == old(meicurpl) && mie == old(mie) && intrCount == old(intrCount)
    {
      pc := mepc;
      mstatus := MretStatus(mstatus, lowest);
    }

    /** A tree of interrupts arriving at one point of running code is served exactly as far as its
        priorities and the threshold allow, and not at all with interrupts or external interrupts off;
        it leaves that code its program counter, threshold, interrupt enables and the rest of mstatus.
        What the code may lose are mepc and the trap fields of mstatus. */
    method Arrive(k: Config, t: Tree) returns (served: nat)
      modifies this
      ensures t.Short? ==> meicidpl == old(meicidpl)
      ensures pc == old(pc) && meicurpl == old(meicurpl) && mie == old(mie)
      ensures mstatus.mie == old(mstatus).mie && mstatus.other == old(mstatus).other
      ensures served == if old(mstatus.mie && MEI in mie) then Served(k, t, old(meicurpl)) else 0
      ensures intrCount == old(intrCount) +
                if old(mstatus.mie && MEI in mie) then Added(k, t, old(meicurpl)) else 0
      decreases t, 1
    {
      served := 0;
      if !mstatus.mie {
        return;
      }
      match t
      case Short =>
        EnterTrap(Routine.Short, meicidpl);
        Mret();
      case Pic(vec, _, _, _) =>
        if MEI in mie && k.priority(vec) > meicurpl {
          if k.isMacro(vec) {
            EnterTrap(Macro(vec), k.priority(vec));
            served := IsrMacro(k, t);
          } else {
            EnterTrap(Routine.Short, k.priority(vec));
          }
          Mret();
        }
    }

    method ArriveAll(k: Config, ts: seq<Tree>) returns (served: nat)
      modifies this
      ensures pc == old(pc) && meicurpl == old(meicurpl) && mie == old(mie)
      ensures mstatus.mie == old(mstatus).mie && mstatus.other == old(mstatus).other
      ensures served == if old(mstatus.mie && MEI in mie) then AllServed(k, ts, old(meicurpl)) else 0
      ensures intrCount == old(intrCount) +
                if old(mstatus.mie && MEI in mie) then AllAdded(k, ts, old(meicurpl)) else 0
      decreases ts, 0
    {
      served := 0;
      if ts != [] {
        served := Arrive(k, ts[0]);
        var more := ArriveAll(k, ts[1..]);
        served := served + more;
      }
    }

    /** The nonstd_veer_isr macro: whatever is served inside its window, it returns with meicurpl, mepc,
        mstatus and mie exactly as it found them, having let in what its own priority allows. */
    method IsrMacro(k: Config, t: Tree) returns (served: nat)
      requires t.Pic? && mstatus == TrapStatus(mstatus.(mie := true)) && meicidpl == k.priority(t.vec)
      modifies this
      ensures meicurpl == old(meicurpl) && mepc == old(mepc) && mstatus == old(mstatus) && mie == old(mie)
      ensures var own := k.priority(t.vec);
              served == 1 +
                if MEI in mie then AllServed(k, t.early, own) + AllServed(k, t.between, own) + AllServed(k, t.late, own)
                else 0
      ensures intrCount == old(intrCount) + 1 +
                if MEI in mie then AllAdded(k, t.early, k.priority(t.vec)) + AllAdded(k, t.late, k.priority(t.vec))
                else 0
      decreases t, 0
    {
      pc := Isr(Macro(t.vec), ReadCidpl);
      var cidpl := meicidpl;
      var prevMeicurpl := meicurpl;
      var prevMepc := mepc;
      var prevMstatus := mstatus;
      var prevMie := mie;
      meicurpl := cidpl;
      mstatus := mstatus.Set(MSTATUS_MIE);
      pc := Isr(Macro(t.vec), LoadCount);
      served := ArriveAll(k, t.early);
      var tmp := intrCount;
      pc := Isr(Macro(t.vec), StoreCount);
      var more := ArriveAll(k, t.between);
      intrCount := tmp + 1;
      served := served + 1 + more;
      pc := Isr(Macro(t.vec), Service);
      more := ArriveAll(k, t.late);
      served := served + more;
      pc := Isr(Macro(t.vec), Close);
      mstatus := mstatus.Clear(MSTATUS_MIE);
      meicurpl := prevMeicurpl;
      mepc := prevMepc;
      OrRestoreSuffices(prevMstatus);
      mstatus := OrRestored(mstatus, prevMstatus);
      mie := mie + prevMie * MIE_RESTORED;
      pc := Isr(Macro(t.vec), Return);
    }
  }

  lemma OneServed(k: Config, t: Tree, threshold: nat)
    ensures AllServed(k, [t], threshold) == Served(k, t, threshold)
    ensures AllServed(k, [], threshold) == 0
  {
    assert [t][1..] == [];
  }

  /** With the table init_interrupts writes: an error interrupt is served; it is served, too, when it
      comes between load and store of a notification, and the pair then adds only one; a notification
      that comes inside an error's service waits. */
  lemma InitTableServes(lowest: bv2, error: nat, notif: nat)
    requires error in {1, 3, 5, 7, 9, 11, 19, 21} && notif == error + 1
    ensures Served(InitConfig(lowest), Pic(error, [], [], []), 0) == 1
    ensures Served(InitConfig(lowest), Pic(notif, [], [Pic(error, [], [], [])], []), 0) == 2
    ensures Added(InitConfig(lowest), Pic(notif, [], [Pic(error, [], [], [])], []), 0) == 1
    ensures Served(InitConfig(lowest), Pic(error, [], [Pic(notif, [], [], [])], []), 0) == 1
  {
    var k := InitConfig(lowest);
    var e, n := Pic(error, [], [], []), Pic(notif, [], [], []);
    assert k.priority(error) == 8 && k.priority(notif) == 7 && k.isMacro(error) && k.isMacro(notif);
    OneServed(k, e, 7);
    OneServed(k, e, 8);
    OneServed(k, n, 8);
  }
}
