/** Preemptive interrupt service: every interleaving of thread code, the nonstd_veer_isr macro one
    statement at a time, and interrupts. */
module InterruptRuns {
  import opened Hart

  // The PIC set-up (priority of each vector, and which vectors run the macro) and the core's
  // least privileged mode.
  datatype Config = Config(priority: nat -> nat, isMacro: nat -> bool, lowest: bv2)

  ghost predicate ValidConfig(k: Config) {
    forall v :: k.priority(v) <= MAX_PRIORITY
  }

  // A routine in progress: its local variables, then history that no step reads.
  datatype Frame = Frame(
    routine: Routine,
    meicidpl: nat, prevMeicurpl: nat, prevMepc: Pc, prevMstatus: Mstatus, prevMie: set<Irq>, tmp: nat,
    resume: Pc,                // history: where it interrupted
    before: Csrs,              // history: the CSRs just before the trap
    entry: Csrs,               // history: the CSRs just after it
    countAtEntry: nat)         // history: intr_count at the trap

  // The routines in progress, innermost first.
  datatype Stack = Base | Push(top: Frame, rest: Stack)

  datatype State = State(
    csrs: Csrs,
    pc: Pc,
    stack: Stack,
    intrCount: nat,
    active: int,               // the test bench's isr_active
    stores: nat,               // history: increments of intr_count completed
    outermost: nat,            // history: those completed by a routine that interrupted thread code
    missed: nat,               // history: stores that found intr_count other than the value loaded
    torn: bool)                // history: was a trap ever taken between load and store?

  datatype Event =
    | Step                                                     // the running routine's next statement
    | ThreadStep(addr: nat, mstatus: Mstatus, mie: set<Irq>, mepc: Pc, meicurpl: nat)
    | External(vec: nat)
    | Local(irq: Irq)

  predicate Accepted(k: Config, s: State, e: Event) {
    match e
    case Step => s.pc.Isr? && s.stack.Push?
    case ThreadStep(_, _, _, _, _) => s.pc.Thread?
    case External(v) => s.csrs.mstatus.mie && MEI in s.csrs.mie && k.priority(v) > s.csrs.meicurpl
    case Local(irq) => s.csrs.mstatus.mie && irq != MEI && irq in s.csrs.mie
  }

  function TakeTrap(s: State, r: Routine, cidpl: nat): State {
    var c := Trap(s.csrs, s.pc).(meicidpl := cidpl);
    s.(csrs := c,
       pc := Isr(r, if r.Macro? then Enter else Return),
       stack := Push(Frame(r, 0, 0, s.pc, s.csrs.mstatus, {}, 0, s.pc, s.csrs, c, s.intrCount), s.stack),
       torn := s.torn || (s.pc.Isr? && s.pc.point.StoreCount?))
  }

  /** An interrupt is taken exactly if interrupts are on and its own is enabled, an external one also
      only above the threshold; otherwise it changes nothing. Its routine is the vector's macro, or a
      short handler for other vectors, the timer and the correctable errors. */
  lemma DeliveredExactly(k: Config, s: State, e: Event)
    requires e.External? || e.Local?
    ensures var on := s.csrs.mstatus.mie &&
                      if e.External? then MEI in s.csrs.mie && k.priority(e.vec) > s.csrs.meicurpl
                      else e.irq != MEI && e.irq in s.csrs.mie;
            var s' := Next(k, s, e);
            if on then
              && s'.stack.Push? && s'.stack.rest == s.stack && s'.stack.top.resume == s'.csrs.mepc == s.pc
              && s'.stack.top.routine == (if e.External? && k.isMacro(e.vec) then Macro(e.vec) else Short)
              && !s'.csrs.mstatus.mie
              && s'.csrs.meicidpl == if e.External? then k.priority(e.vec) else s.csrs.meicidpl
            else s' == s
  {
  }

  // Between routines the thread may leave any values in the CSRs it can write.
  lemma ThreadIsFree(k: Config, s: State, addr: nat, c: Csrs)
    requires s.pc.Thread? && c.meicidpl == s.csrs.meicidpl
    ensures var s' := Next(k, s, ThreadStep(addr, c.mstatus, c.mie, c.mepc, c.meicurpl));
            s'.csrs == c && s'.pc == Thread(addr) && s'.stack == s.stack && s'.intrCount == s.intrCount
  {
  }

  function After(p: Point): Point {
    match p
    case Enter => ReadCidpl case ReadCidpl => ReadCurpl case ReadCurpl => ReadMepc
    case ReadMepc => ReadMstatus case ReadMstatus => ReadMie case ReadMie => WriteCurpl
    case WriteCurpl => Open case Open => LoadCount case LoadCount => StoreCount
    case StoreCount => Service case Service => Close case Close => RestoreCurpl
    case RestoreCurpl => RestoreMepc case RestoreMepc => RestoreMstatus
    case RestoreMstatus => RestoreMie case RestoreMie => Leave case Leave => Return
    case Return => Return
  }

  // What a statement does to the routine's own variables.
  function Locals(f: Frame, p: Point, c: Csrs, intrCount: nat): Frame {
    match p
    case ReadCidpl => f.(meicidpl := c.meicidpl)
    case ReadCurpl => f.(prevMeicurpl := c.meicurpl)
    case ReadMepc => f.(prevMepc := c.mepc)
    case ReadMstatus => f.(prevMstatus := c.mstatus)
    case ReadMie => f.(prevMie := c.mie)
    case LoadCount => f.(tmp := intrCount)
    case _ => f
  }

  // What it does to the CSRs.
  function Writes(f: Frame, p: Point, c: Csrs): Csrs {
    match p
    case WriteCurpl => c.(meicurpl := f.meicidpl)
    case Open => c.(mstatus := c.mstatus.Set(MSTATUS_MIE))
    case Close => c.(mstatus := c.mstatus.Clear(MSTATUS_MIE))
    case RestoreCurpl => c.(meicurpl := f.prevMeicurpl)
    case RestoreMepc => c.(mepc := f.prevMepc)
    case RestoreMstatus => c.(mstatus := OrRestored(c.mstatus, f.prevMstatus))
    case RestoreMie => c.(mie := c.mie + f.prevMie * MIE_RESTORED)
    case _ => c
  }

  function Execute(k: Config, s: State): State
    requires s.pc.Isr? && s.stack.Push?
  {
    var Push(f, rest) := s.stack;
    var p := s.pc.point;
    if p.Return? then
      s.(csrs := s.csrs.(mstatus := MretStatus(s.csrs.mstatus, k.lowest)), pc := s.csrs.mepc, stack := rest)
    else
      var s' := s.(stack := Push(Locals(f, p, s.csrs, s.intrCount), rest), csrs := Writes(f, p, s.csrs),
                   pc := s.pc.(point := After(p)));
      match p
      case Enter => s'.(active := s.active + 1)
      case Leave => s'.(active := s.active - 1)
      case StoreCount => s'.(intrCount := f.tmp + 1, stores := s.stores + 1,
                             missed := s.missed + if s.intrCount == f.tmp then 0 else 1,
                             outermost := s.outermost + if rest.Base? then 1 else 0)
      case _ => s'
  }

  function Next(k: Config, s: State, e: Event): State {
    if !Accepted(k, s, e) then s else
    match e
    case Step => Execute(k, s)
    case ThreadStep(a, m, i, p, l) =>
      s.(pc := Thread(a), csrs := s.csrs.(mstatus := m, mie := i, mepc := p, meicurpl := l))
    case External(v) => TakeTrap(s, if k.isMacro(v) then Macro(v) else Short, k.priority(v))
    case Local(_) => TakeTrap(s, Short, s.csrs.meicidpl)
  }

  // ---------- The invariant ----------

  function Rank(p: Point): nat {
    match p
    case Enter => 0 case ReadCidpl => 1 case ReadCurpl => 2 case ReadMepc => 3 case ReadMstatus => 4
    case ReadMie => 5 case WriteCurpl => 6 case Open => 7 case LoadCount => 8 case StoreCount => 9
    case Service => 10 case Close => 11 case RestoreCurpl => 12 case RestoreMepc => 13
    case RestoreMstatus => 14 case RestoreMie => 15 case Leave => 16 case Return => 17
  }

  // The statements run in this order, none left out.
  lemma StatementsInOrder(p: Point)
    ensures if p.Return? then After(p) == p else Rank(After(p)) == Rank(p) + 1
  {
  }

  predicate InWindow(p: Point) {
    Rank(LoadCount) <= Rank(p) <= Rank(Close)
  }

  // What holds of a routine about to execute p, given the CSRs it will find.
  predicate FrameOk(k: Config, f: Frame, p: Point, c: Csrs) {
    var n := Rank(p);
    && f.entry == Trap(f.before, f.resume).(meicidpl := f.entry.meicidpl) && f.before.mstatus.mie
    && c.mie == f.entry.mie && c.mstatus.other == f.entry.mstatus.other
    && c.mstatus.mie == InWindow(p)
    && c.meicurpl == (if 7 <= n <= 12 then f.entry.meicidpl else f.entry.meicurpl)
    && (n <= 7 || n >= 14 ==> c.mepc == f.entry.mepc)
    && (n <= 7 || n >= 15 ==> c.mstatus == f.entry.mstatus)
    && (n <= 1 ==> c.meicidpl == f.entry.meicidpl)
    && (f.routine.Short? ==> p.Return?)
    && (f.routine.Macro? ==>
          && f.entry.meicidpl == k.priority(f.routine.vec) && f.entry.meicidpl > f.entry.meicurpl
          && k.isMacro(f.routine.vec)
          && (2 <= n < 17 ==> f.meicidpl == f.entry.meicidpl)
          && (3 <= n < 17 ==> f.prevMeicurpl == f.entry.meicurpl)
          && (4 <= n < 17 ==> f.prevMepc == f.entry.mepc)
          && (5 <= n < 17 ==> f.prevMstatus == f.entry.mstatus)
          && (6 <= n < 17 ==> f.prevMie == f.entry.mie))
  }

  // Each routine, given the program point and the CSRs it will continue with, is in order; the
  // routine below will continue where this one interrupted, with the CSRs as they were then.
  predicate StackOk(k: Config, st: Stack, pc: Pc, c: Csrs) {
    match st
    case Base => pc.Thread?
    case Push(f, rest) =>
      && pc.Isr? && pc.routine == f.routine && FrameOk(k, f, pc.point, c)
      && StackOk(k, rest, f.resume, f.before)
  }

  predicate Inv(k: Config, s: State) {
    StackOk(k, s.stack, s.pc, s.csrs)
  }

  // Saving the context and opening the window, serving, and restoring the context.
  lemma SavingKeepsFrame(k: Config, f: Frame, p: Point, c: Csrs, intrCount: nat)
    requires FrameOk(k, f, p, c) && Rank(p) <= Rank(Open)
    ensures FrameOk(k, Locals(f, p, c, intrCount), After(p), Writes(f, p, c))
  {
  }

  lemma RestoringKeepsFrame(k: Config, f: Frame, p: Point, c: Csrs, intrCount: nat)
    requires FrameOk(k, f, p, c) && Rank(Close) <= Rank(p) < Rank(Return)
    ensures FrameOk(k, Locals(f, p, c, intrCount), After(p), Writes(f, p, c))
  {
    if p.RestoreMstatus? {
      OrRestoreSuffices(f.prevMstatus);
    }
  }

  lemma StatementKeepsFrame(k: Config, f: Frame, p: Point, c: Csrs, intrCount: nat)
    requires FrameOk(k, f, p, c) && !p.Return?
    ensures FrameOk(k, Locals(f, p, c, intrCount), After(p), Writes(f, p, c))
  {
    if Rank(p) <= Rank(Open) {
      SavingKeepsFrame(k, f, p, c, intrCount);
    } else if Rank(p) >= Rank(Close) {
      RestoringKeepsFrame(k, f, p, c, intrCount);
    }
  }

  /** The last restore puts back the software, timer and external enables, should the service have
      cleared them, and never the enable of correctable errors. */
  lemma EnablesComeBack(k: Config, s: State, irq: Irq)
    requires s.stack.Push? && s.pc.Isr? && s.pc.point.RestoreMie?
    ensures irq in Next(k, s, Step).csrs.mie <==>
            irq in s.csrs.mie || (irq != MCEI && irq in s.stack.top.prevMie)
  {
  }

  lemma StatementKeepsInv(k: Config, s: State)
    requires Inv(k, s) && s.stack.Push? && !s.pc.point.Return?
    ensures Inv(k, Execute(k, s))
  {
    StatementKeepsFrame(k, s.stack.top, s.pc.point, s.csrs, s.intrCount);
  }

  lemma TrapKeepsInv(k: Config, s: State, r: Routine, cidpl: nat)
    requires Inv(k, s) && s.csrs.mstatus.mie
    requires r.Macro? ==> k.isMacro(r.vec) && cidpl == k.priority(r.vec) > s.csrs.meicurpl
    ensures Inv(k, TakeTrap(s, r, cidpl))
  {
  }

  // An mret hands the interrupted routine CSRs it can go on with.
  lemma ReturnResumesFrame(k: Config, f: Frame, p: Point, g: Frame, c: Csrs)
    requires FrameOk(k, f, p, g.before) && FrameOk(k, g, Return, c)
    ensures FrameOk(k, f, p, c.(mstatus := MretStatus(c.mstatus, k.lowest)))
  {
  }

  lemma ReturnKeepsInv(k: Config, s: State)
    requires Inv(k, s) && s.stack.Push? && s.pc.point.Return?
    ensures Inv(k, Execute(k, s))
  {
    var Push(g, rest) := s.stack;
    assert FrameOk(k, g, Return, s.csrs) && StackOk(k, rest, g.resume, g.before);
    if rest.Push? {
      ReturnResumesFrame(k, rest.top, g.resume.point, g, s.csrs);
    }
  }

  lemma NextKeepsInv(k: Config, s: State, e: Event)
    requires Inv(k, s)
    ensures Inv(k, Next(k, s, e))
  {
    if Accepted(k, s, e) {
      match e
      case Step =>
        if s.pc.point.Return? {
          ReturnKeepsInv(k, s);
        } else {
          StatementKeepsInv(k, s);
        }
      case External(v) => TrapKeepsInv(k, s, if k.isMacro(v) then Macro(v) else Short, k.priority(v));
      case Local(_) => TrapKeepsInv(k, s, Short, s.csrs.meicidpl);
      case ThreadStep(_, _, _, _, _) =>
    }
  }

  // Runs start in thread code, with any CSRs.
  predicate Initial(s: State) {
    s.stack.Base? && s.pc.Thread? && s.active == 0 && s.stores == 0 && s.outermost == 0 && s.missed == 0 && !s.torn
  }

  function Run(k: Config, s0: State, es: seq<Event>): State {
    if es == [] then s0 else Next(k, Run(k, s0, es[..|es| - 1]), es[|es| - 1])
  }

  lemma {:induction false} RunInv(k: Config, s0: State, es: seq<Event>)
    requires Initial(s0)
    ensures Inv(k, Run(k, s0, es))
  {
    if es != [] {
      RunInv(k, s0, es[..|es| - 1]);
      NextKeepsInv(k, Run(k, s0, es[..|es| - 1]), es[|es| - 1]);
    }
  }

  /** Context restoration, in every run: a routine about to return finds meicurpl, mepc, mstatus
      and mie as its trap left them, whatever preempted it, and its mret resumes the interrupted
      code where it stood, with interrupts on again and the same threshold and enables. */
  lemma ContextIsRestored(k: Config, s0: State, es: seq<Event>)
    requires Initial(s0)
    ensures var s := Run(k, s0, es);
            s.stack.Push? ==>
            s.pc.Isr? &&
            (s.pc.point.Return? ==>
              var f, s' := s.stack.top, Next(k, s, Step);
              && s.csrs.(meicidpl := f.entry.meicidpl) == f.entry
              && f.entry == Trap(f.before, f.resume).(meicidpl := f.entry.meicidpl)
              && s'.pc == f.resume && s'.stack == s.stack.rest
              && s'.csrs.mstatus.mie && s'.csrs.mstatus.other == f.before.mstatus.other
              && s'.csrs.meicurpl == f.before.meicurpl && s'.csrs.mie == f.before.mie)
  {
    RunInv(k, s0, es);
  }
}
