/** A run with the firmware's own priority table in which an increment of intr_count is lost. */
module InterruptLoss {
  import opened Hart
  import opened InterruptRuns
  import opened InterruptBounds

  // A property of the runs from one initial state; every such run has the invariant.
  ghost predicate Inductive(k: Config, reach: State -> bool) {
    && (forall s :: reach(s) ==> Inv(k, s))
    && (forall s, e :: reach(s) ==> reach(Next(k, s, e)))
  }

  // A macro in progress, on top of the given stack, with the count history so far.
  ghost predicate InMacro(reach: State -> bool, s: State, p: Point, resume: Pc, rest: Stack, count: nat) {
    && reach(s) && s.stack.Push? && s.stack.top.routine.Macro? && s.pc == Isr(s.stack.top.routine, p)
    && s.stack.top.resume == resume && s.stack.rest == rest
    && MEI in s.csrs.mie && s.intrCount == s.stores == count && s.missed == 0
  }

  // One statement that is neither the load nor the store of intr_count, nor the return.
  lemma Statement(k: Config, reach: State -> bool, s: State, p: Point, resume: Pc, rest: Stack, count: nat)
    returns (s': State)
    requires Inductive(k, reach) && InMacro(reach, s, p, resume, rest, count)
    requires !p.StoreCount? && !p.Return?
    ensures InMacro(reach, s', After(p), resume, rest, count)
    ensures s'.stack.top.routine == s.stack.top.routine
    ensures p.LoadCount? ==> s'.stack.top.tmp == count
  {
    s' := Next(k, s, Step);
  }

  lemma Ranks(p: Point, q: Point)
    ensures !p.Return? ==> Rank(After(p)) == Rank(p) + 1
    ensures Rank(p) == Rank(q) ==> p == q
    ensures Rank(p) <= Rank(Return)
  {
  }

  // All statements from p up to, not including, to; if the load is among them, the last of them.
  lemma {:induction false} Statements(k: Config, reach: State -> bool, s: State, p: Point, to: Point, resume: Pc,
                                      rest: Stack, count: nat) returns (s': State)
    requires Inductive(k, reach) && InMacro(reach, s, p, resume, rest, count)
    requires Rank(p) < Rank(to) && (Rank(to) <= Rank(StoreCount) || Rank(StoreCount) < Rank(p))
    ensures InMacro(reach, s', to, resume, rest, count)
    ensures s'.stack.top.routine == s.stack.top.routine
    ensures to == StoreCount ==> s'.stack.top.tmp == count
    decreases Rank(to) - Rank(p)
  {
    Ranks(p, StoreCount);
    Ranks(to, Return);
    s' := Statement(k, reach, s, p, resume, rest, count);
    Ranks(After(p), to);
    if Rank(p) + 1 < Rank(to) {
      s' := Statements(k, reach, s', After(p), to, resume, rest, count);
    } else {
      Ranks(p, LoadCount);
    }
  }

  // An interrupt taken from thread code, or from a macro that has just loaded intr_count.
  lemma Interrupted(k: Config, reach: State -> bool, s: State, vec: nat) returns (s': State)
    requires Inductive(k, reach) && reach(s) && k.isMacro(vec) && Accepted(k, s, External(vec))
    requires s.intrCount == s.stores && s.missed == 0
    ensures InMacro(reach, s', Enter, s.pc, s.stack, s.intrCount) && s'.stack.top.routine == Macro(vec)
  {
    s' := Next(k, s, External(vec));
  }

  // The nested macro stores its own increment and returns to the one it interrupted.
  lemma Nested(k: Config, reach: State -> bool, s: State, resume: Pc, rest: Stack) returns (s': State)
    requires Inductive(k, reach) && InMacro(reach, s, Enter, resume, rest, 0)
    ensures reach(s') && s'.pc == resume && s'.stack == rest && s'.intrCount == s'.stores == 1 && s'.missed == 0
  {
    s' := Statements(k, reach, s, Enter, StoreCount, resume, rest, 0);
    s' := Stores(k, reach, s', resume, rest);
    s' := Statements(k, reach, s', Service, Return, resume, rest, 1);
    s' := Returns(k, reach, s', resume, rest);
  }

  lemma Stores(k: Config, reach: State -> bool, s: State, resume: Pc, rest: Stack) returns (s': State)
    requires Inductive(k, reach) && InMacro(reach, s, StoreCount, resume, rest, 0) && s.stack.top.tmp == 0
    ensures InMacro(reach, s', Service, resume, rest, 1)
  {
    s' := Next(k, s, Step);
  }

  lemma Returns(k: Config, reach: State -> bool, s: State, resume: Pc, rest: Stack) returns (s': State)
    requires Inductive(k, reach) && InMacro(reach, s, Return, resume, rest, 1)
    ensures reach(s') && s'.pc == resume && s'.stack == rest && s'.intrCount == s'.stores == 1 && s'.missed == 0
  {
    assert FrameOk(k, s.stack.top, Return, s.csrs);
    s' := Next(k, s, Step);
  }

  // Thread code with interrupts on and nothing counted yet.
  function Quiet(): State {
    State(Csrs(0, 0, Thread(0), Mstatus(true, false, 0, {}), {MEI}), Thread(0), Base, 0, 0, 0, 0, 0, false)
  }

  // Vector 2 is served up to its store; vector 1 then preempts it.
  lemma Preempted(k: Config, reach: State -> bool) returns (s: State)
    requires Inductive(k, reach) && reach(Quiet()) && k.isMacro(1) && k.isMacro(2)
    requires k.priority(1) == 8 && k.priority(2) == 7
    ensures reach(s) && s.pc.Isr? && s.pc.point.StoreCount? && s.stack.Push? && s.stack.top.tmp == 0
    ensures s.intrCount == s.stores == 1 && s.missed == 0
  {
    s := Interrupted(k, reach, Quiet(), 2);
    s := Statements(k, reach, s, Enter, StoreCount, Thread(0), Base, 0);
    assert FrameOk(k, s.stack.top, StoreCount, s.csrs);
    var resume, rest := s.pc, s.stack;
    s := Interrupted(k, reach, s, 1);
    s := Nested(k, reach, s, resume, rest);
  }

  ghost predicate Reaches(k: Config, s0: State, s: State) {
    exists es :: Run(k, s0, es) == s
  }

  lemma ReachesIsInductive(k: Config, s0: State)
    requires Initial(s0)
    ensures Inductive(k, (s: State) => Reaches(k, s0, s)) && Reaches(k, s0, s0)
  {
    assert Run(k, s0, []) == s0;
    forall s | Reaches(k, s0, s) ensures Inv(k, s) {
      var es :| Run(k, s0, es) == s;
      RunInv(k, s0, es);
    }
    forall s, e | Reaches(k, s0, s) ensures Reaches(k, s0, Next(k, s, e)) {
      var es :| Run(k, s0, es) == s;
      assert (es + [e])[..|es|] == es;
      assert Run(k, s0, es + [e]) == Next(k, s, e);
    }
  }

  /** With the table init_interrupts writes, one preemption between load and store loses an increment:
      two macros have counted and intr_count has gone up by one. */
  lemma IncrementIsLost(lowest: bv2) returns (s0: State, es: seq<Event>)
    ensures Initial(s0)
    ensures var s := Run(InitConfig(lowest), s0, es);
            s.stores == 2 && s.missed == 1 && s.intrCount == s0.intrCount + 1
  {
    var k := InitConfig(lowest);
    s0 := Quiet();
    ReachesIsInductive(k, s0);
    var s := Preempted(k, (s: State) => Reaches(k, s0, s));
    var s' := Next(k, s, Step);
    assert s'.stores == 2 && s'.missed == 1 && s'.intrCount == 1;
    assert Reaches(k, s0, s');
    es :| Run(k, s0, es) == s';
  }
}
