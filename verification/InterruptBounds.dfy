/** How deep interrupt service nests, and what it leaves in intr_count and isr_active. */
module InterruptBounds {
  import opened Hart
  import opened InterruptRuns

  // ---------- Nesting ----------

  function Depth(st: Stack): nat {
    match st
    case Base => 0
    case Push(_, rest) => 1 + Depth(rest)
  }

  // Every routine that was interrupted runs the macro, and each macro in progress has a higher
  // priority than the macro below it.
  predicate Climbs(k: Config, st: Stack) {
    match st
    case Base => true
    case Push(f, rest) =>
      && Climbs(k, rest)
      && (rest.Push? ==>
            rest.top.routine.Macro?
            && (f.routine.Macro? ==> k.priority(f.routine.vec) > k.priority(rest.top.routine.vec)))
  }

  // All vectors that run the macro have priorities in lo..hi.
  ghost predicate MacroRange(k: Config, lo: nat, hi: nat) {
    forall v :: k.isMacro(v) ==> lo <= k.priority(v) <= hi
  }

  lemma {:induction false} NestingClimbs(k: Config, st: Stack, pc: Pc, c: Csrs, lo: nat, hi: nat)
    requires StackOk(k, st, pc, c) && MacroRange(k, lo, hi)
    ensures Climbs(k, st)
    ensures st.Push? && c.mstatus.mie ==>
              && st.top.routine.Macro? && c.meicurpl == k.priority(st.top.routine.vec)
              && lo + Depth(st) - 1 <= c.meicurpl
    ensures st.Push? && st.top.routine.Macro? ==> lo + Depth(st) - 1 <= hi
    ensures Depth(st) <= hi - lo + 2 || hi < lo
    ensures hi < lo ==> Depth(st) <= 1
  {
    if st.Push? {
      NestingClimbs(k, st.rest, st.top.resume, st.top.before, lo, hi);
    }
  }

  /** At every moment of every run, for any priority table: the macros in progress climb strictly
      in priority, at most 15 of them, with at most one short handler on top. */
  lemma NestingIsBounded(k: Config, s0: State, es: seq<Event>)
    requires Initial(s0) && ValidConfig(k)
    ensures var st := Run(k, s0, es).stack;
            && Climbs(k, st) && Depth(st) <= MAX_PRIORITY + 1
            && (st.Push? && st.top.routine.Macro? ==> Depth(st) <= MAX_PRIORITY)
  {
    var s := Run(k, s0, es);
    RunInv(k, s0, es);
    NestingClimbs(k, s.stack, s.pc, s.csrs, 0, MAX_PRIORITY);
    MacrosAboveZero(k, s.stack, s.pc, s.csrs);
  }

  lemma {:induction false} MacrosAboveZero(k: Config, st: Stack, pc: Pc, c: Csrs)
    requires StackOk(k, st, pc, c) && ValidConfig(k)
    ensures st.Push? && c.mstatus.mie ==> Depth(st) <= c.meicurpl <= MAX_PRIORITY
    ensures st.Push? && st.top.routine.Macro? ==> Depth(st) <= MAX_PRIORITY
    ensures Depth(st) <= MAX_PRIORITY + 1
  {
    if st.Push? {
      MacrosAboveZero(k, st.rest, st.top.resume, st.top.before);
    }
  }

  // ---------- The table init_interrupts writes ----------

  const PIC_TOTAL_INT: nat := 31
  const VEC_MAX_ASSIGNED: nat := 22
  const GATEWAY_ACTIVE_HI_LEVEL: nat := 0

  // Vectors 13..18 (QSPI, UART, I3C) have priorities 4 and 3, the other assigned ones 8 and 7:
  // odd vectors are the error interrupts.
  function InitPriority(vec: nat): nat {
    if vec == 0 || vec > VEC_MAX_ASSIGNED then 0
    else if 13 <= vec <= 18 then (if vec % 2 == 1 then 4 else 3)
    else if vec % 2 == 1 then 8 else 7
  }

  // The vector table: vectors 13..18 and those above 22 go to std_rv_nop_machine.
  predicate InitIsMacro(vec: nat) {
    1 <= vec <= VEC_MAX_ASSIGNED && !(13 <= vec <= 18)
  }

  /** The two tables, vector by vector. */
  lemma InitTables()
    ensures seq(32, v requires 0 <= v => InitPriority(v))
         == [0, 8, 7, 8, 7, 8, 7, 8, 7, 8, 7, 8, 7, 4, 3, 4, 3, 4, 3, 8, 7, 8, 7, 0, 0, 0, 0, 0, 0, 0, 0, 0]
    ensures forall v: nat :: InitIsMacro(v) <==> v in {1, 2, 3, 4, 5, 6, 7, 8, 9, 10, 11, 12, 19, 20, 21, 22}
  {
  }

  function InitConfig(lowest: bv2): Config {
    Config((v: nat) => InitPriority(v), (v: nat) => InitIsMacro(v), lowest)
  }

  /** With that table at most two macros nest, plus one short handler. */
  lemma InitNesting(lowest: bv2, s0: State, es: seq<Event>)
    requires Initial(s0)
    ensures var st := Run(InitConfig(lowest), s0, es).stack;
            && Climbs(InitConfig(lowest), st) && Depth(st) <= 3
            && (st.Push? && st.top.routine.Macro? ==> Depth(st) <= 2)
  {
    var k := InitConfig(lowest);
    var s := Run(k, s0, es);
    RunInv(k, s0, es);
    assert MacroRange(k, 7, 8);
    NestingClimbs(k, s.stack, s.pc, s.csrs, 7, 8);
  }

  // The set-up of the PIC's register arrays by init_interrupts: the priorities ...
  method InitAcceleratorPriorities(meipls: array<nat>)
    requires meipls.Length == PIC_TOTAL_INT + 1
    modifies meipls
    ensures forall v :: 1 <= v <= 12 ==> meipls[v] == InitPriority(v)
    ensures forall v :: 0 <= v <= PIC_TOTAL_INT && !(1 <= v <= 12) ==> meipls[v] == old(meipls[v])
  {
    // DOE, ECC, HMAC: error, notification
    meipls[1] := 8;
    meipls[2] := 7;
    meipls[3] := 8;
    meipls[4] := 7;
    meipls[5] := 8;
    meipls[6] := 7;
    // KV, SHA512, SHA256: error, notification
    meipls[7] := 8;
    meipls[8] := 7;
    meipls[9] := 8;
    meipls[10] := 7;
    meipls[11] := 8;
    meipls[12] := 7;
  }

  method InitPeripheralPriorities(meipls: array<nat>)
    requires meipls.Length == PIC_TOTAL_INT + 1
    modifies meipls
    ensures forall v :: 13 <= v <= 22 ==> meipls[v] == InitPriority(v)
    ensures forall v :: 0 <= v <= PIC_TOTAL_INT && !(13 <= v <= 22) ==> meipls[v] == old(meipls[v])
  {
    // QSPI, UART, I3C: error, notification
    meipls[13] := 4;
    meipls[14] := 3;
    meipls[15] := 4;
    meipls[16] := 3;
    meipls[17] := 4;
    meipls[18] := 3;
    // SOC_IFC, SHA512_ACC: error, notification
    meipls[19] := 8;
    meipls[20] := 7;
    meipls[21] := 8;
    meipls[22] := 7;
  }

  method InitPriorities(meipls: array<nat>)
    requires meipls.Length == PIC_TOTAL_INT + 1
    modifies meipls
    ensures forall v :: 1 <= v <= PIC_TOTAL_INT ==> meipls[v] == InitPriority(v)
    ensures meipls[0] == old(meipls[0])
  {
    InitAcceleratorPriorities(meipls);
    InitPeripheralPriorities(meipls);
    var undef := VEC_MAX_ASSIGNED + 1;
    while undef <= PIC_TOTAL_INT
      invariant VEC_MAX_ASSIGNED < undef <= PIC_TOTAL_INT + 1
      invariant forall v :: 1 <= v < undef ==> meipls[v] == InitPriority(v)
      invariant meipls[0] == old(meipls[0])
    {
      meipls[undef] := 0;
      undef := undef + 1;
    }
  }

  // ... then gateways and enables. The uint8_t counters stay below 33 and do not wrap.
  method InitGateways(meies: array<nat>, meigwctrls: array<nat>, meigwclrs: array<nat>)
    requires meies.Length == meigwctrls.Length == meigwclrs.Length == PIC_TOTAL_INT + 1
    requires meies != meigwctrls && meies != meigwclrs && meigwctrls != meigwclrs
    modifies meies, meigwctrls, meigwclrs
    ensures forall v :: 1 <= v <= PIC_TOTAL_INT ==>
              && (meies[v] == if InitPriority(v) > 0 then 1 else 0)
              && meigwctrls[v] == GATEWAY_ACTIVE_HI_LEVEL && meigwclrs[v] == 0
    ensures meies[0] == old(meies[0]) && meigwctrls[0] == old(meigwctrls[0]) && meigwclrs[0] == old(meigwclrs[0])
  {
    var vec := 1;
    while vec <= PIC_TOTAL_INT
      invariant 1 <= vec <= PIC_TOTAL_INT + 1
      invariant forall v :: 1 <= v < vec ==> meies[v] == if InitPriority(v) > 0 then 1 else 0
      invariant forall v :: 1 <= v < vec ==> meigwctrls[v] == GATEWAY_ACTIVE_HI_LEVEL && meigwclrs[v] == 0
      invariant meies[0] == old(meies[0]) && meigwctrls[0] == old(meigwctrls[0]) && meigwclrs[0] == old(meigwclrs[0])
    {
      meigwctrls[vec] := GATEWAY_ACTIVE_HI_LEVEL;
      meigwclrs[vec] := 0;
      meies[vec] := if vec <= VEC_MAX_ASSIGNED then 1 else 0;
      vec := vec + 1;
    }
  }

  // ---------- Counting ----------

  // Has the routine that will continue at pc stored its increment?
  function Stored(f: Frame, pc: Pc): nat {
    if f.routine.Macro? && pc.Isr? && Rank(pc.point) > Rank(StoreCount) then 1 else 0
  }

  // intr_count never fell below what a routine found on entry, plus its own increment, and a
  // value loaded is at least what it found; low counts the outermost increments.
  predicate Counted(st: Stack, pc: Pc, count: nat, low: int) {
    match st
    case Base => low <= count
    case Push(f, rest) =>
      && f.countAtEntry + Stored(f, pc) <= count
      && (pc.Isr? && pc.point.StoreCount? ==> f.countAtEntry <= f.tmp <= count)
      && Counted(rest, f.resume, f.countAtEntry, if rest.Base? then low - Stored(f, pc) else low)
  }

  lemma {:induction false} CountedBounds(st: Stack, pc: Pc, count: nat, low: int)
    requires Counted(st, pc, count, low)
    ensures low <= count
  {
    if st.Push? {
      CountedBounds(st.rest, st.top.resume, st.top.countAtEntry,
                    if st.rest.Base? then low - Stored(st.top, pc) else low);
    }
  }

  // No routine was interrupted between its load and its store.
  predicate NoneTorn(st: Stack) {
    match st
    case Base => true
    case Push(f, rest) => !(f.resume.Isr? && f.resume.point.StoreCount?) && NoneTorn(rest)
  }

  // Routines between their write of 0xfb and their write of 0xfc.
  function ActiveIn(st: Stack, pc: Pc): nat {
    match st
    case Base => 0
    case Push(f, rest) =>
      (if f.routine.Macro? && pc.Isr? && Rank(Enter) < Rank(pc.point) <= Rank(Leave) then 1 else 0)
      + ActiveIn(rest, f.resume)
  }

  // Until a trap tears an increment, intr_count is exact and so is a value just loaded from it.
  predicate Exact(s: State, c0: nat) {
    && NoneTorn(s.stack) && s.intrCount == c0 + s.stores
    && (s.stack.Push? && s.pc.Isr? && s.pc.point.StoreCount? ==> s.stack.top.tmp == s.intrCount)
  }

  predicate CountInv(s: State, c0: nat) {
    && Counted(s.stack, s.pc, s.intrCount, c0 + s.outermost)
    && s.intrCount + s.missed <= c0 + s.stores && (s.missed == 0 ==> s.intrCount == c0 + s.stores)
    && (!s.torn ==> s.missed == 0 && Exact(s, c0))
    && s.active == ActiveIn(s.stack, s.pc)
  }

  lemma StoreKeepsCount(k: Config, s: State, c0: nat)
    requires CountInv(s, c0) && s.stack.Push? && s.pc.Isr? && s.pc.routine == s.stack.top.routine
    requires s.pc.point.StoreCount? && s.stack.top.routine.Macro?
    ensures CountInv(Execute(k, s), c0)
  {
    var Push(f, rest) := s.stack;
    var low := if rest.Base? then c0 + s.outermost - Stored(f, s.pc) else c0 + s.outermost;
    assert Counted(rest, f.resume, f.countAtEntry, low);
    CountedBounds(rest, f.resume, f.countAtEntry, low);
  }

  // A statement of the routine on top that is not its return.
  predicate AtStatement(s: State) {
    && s.stack.Push? && s.pc.Isr? && s.pc.routine == s.stack.top.routine
    && !s.pc.point.Return? && s.stack.top.routine.Macro?
  }

  lemma StatementKeepsActive(k: Config, s: State)
    requires AtStatement(s) && s.active == ActiveIn(s.stack, s.pc)
    ensures Execute(k, s).active == ActiveIn(Execute(k, s).stack, Execute(k, s).pc)
  {
  }

  lemma StatementKeepsCounted(k: Config, s: State, low: int)
    requires AtStatement(s) && !s.pc.point.StoreCount?
    requires Counted(s.stack, s.pc, s.intrCount, low)
    ensures Counted(Execute(k, s).stack, Execute(k, s).pc, s.intrCount, low)
  {
  }

  lemma StatementKeepsCount(k: Config, s: State, c0: nat)
    requires CountInv(s, c0) && AtStatement(s)
    ensures CountInv(Execute(k, s), c0)
  {
    if s.pc.point.StoreCount? {
      StoreKeepsCount(k, s, c0);
    } else {
      StatementKeepsActive(k, s);
      StatementKeepsCounted(k, s, c0 + s.outermost);
    }
  }

  lemma ReturnKeepsCount(k: Config, s: State, c0: nat)
    requires Inv(k, s) && CountInv(s, c0) && s.stack.Push? && s.pc.point.Return?
    ensures CountInv(Execute(k, s), c0)
  {
    var Push(f, rest) := s.stack;
    assert FrameOk(k, f, Return, s.csrs);
    assert s.csrs.mepc == f.resume;
    assert Counted(rest, f.resume, f.countAtEntry,
                   if rest.Base? then c0 + s.outermost - Stored(f, s.pc) else c0 + s.outermost);
  }

  lemma TrapKeepsCount(k: Config, s: State, r: Routine, cidpl: nat, c0: nat)
    requires Inv(k, s) && CountInv(s, c0)
    ensures CountInv(TakeTrap(s, r, cidpl), c0)
  {
  }

  lemma NextKeepsCount(k: Config, s: State, e: Event, c0: nat)
    requires Inv(k, s) && CountInv(s, c0)
    ensures CountInv(Next(k, s, e), c0)
  {
    if Accepted(k, s, e) {
      match e
      case Step =>
        if s.pc.point.Return? {
          ReturnKeepsCount(k, s, c0);
        } else {
          assert FrameOk(k, s.stack.top, s.pc.point, s.csrs);
          StatementKeepsCount(k, s, c0);
        }
      case External(v) => TrapKeepsCount(k, s, if k.isMacro(v) then Macro(v) else Short, k.priority(v), c0);
      case Local(_) => TrapKeepsCount(k, s, Short, s.csrs.meicidpl, c0);
      case ThreadStep(_, _, _, _, _) =>
    }
  }

  lemma {:induction false} RunCounts(k: Config, s0: State, es: seq<Event>)
    requires Initial(s0)
    ensures CountInv(Run(k, s0, es), s0.intrCount)
  {
    if es != [] {
      RunInv(k, s0, es[..|es| - 1]);
      RunCounts(k, s0, es[..|es| - 1]);
      NextKeepsCount(k, Run(k, s0, es[..|es| - 1]), es[|es| - 1], s0.intrCount);
    }
  }

  /** In every run intr_count has gone up by at least the increments of the macros that
      interrupted thread code and at most the increments of all macros; by exactly all of them if and
      only if no store found intr_count other than the value its macro had loaded, as when no trap
      came between a load and a store. isr_active is the number of macros between their two writes,
      and stays below 16. */
  lemma CountingUnderPreemption(k: Config, s0: State, es: seq<Event>)
    requires Initial(s0) && ValidConfig(k)
    ensures var s := Run(k, s0, es);
            && s0.intrCount + s.outermost <= s.intrCount <= s0.intrCount + s.stores
            && (s.intrCount == s0.intrCount + s.stores <==> s.missed == 0)
            && (!s.torn ==> s.missed == 0)
            && s.active == ActiveIn(s.stack, s.pc) <= MAX_PRIORITY
  {
    var s := Run(k, s0, es);
    RunCounts(k, s0, es);
    CountedBounds(s.stack, s.pc, s.intrCount, s0.intrCount + s.outermost);
    NestingIsBounded(k, s0, es);
    ActiveAtMostDepth(s.stack, s.pc);
  }

  lemma {:induction false} ActiveAtMostDepth(st: Stack, pc: Pc)
    ensures ActiveIn(st, pc) <= Depth(st)
    ensures st.Push? && st.top.routine.Short? ==> ActiveIn(st, pc) < Depth(st)
  {
    if st.Push? {
      ActiveAtMostDepth(st.rest, st.top.resume);
    }
  }
}
