/** When can the two threads of the bridge block each other? */
module BridgeDeadlock {
  import opened RingBuffer
  import opened JtagDpi
  import opened Bridge

  // Both threads spin: the server on a full buf_in, the host on a full buf_out.
  predicate Deadlocked(s: State) {
    && s.server.InCheck? && s.bufIn.IsFull()
    && s.host.RespCheck? && s.bufOut.IsFull()
  }

  // Read commands the client wrote and has no answer to yet.
  function Unanswered(s: State): int {
    Reads(s.sent) - |s.got|
  }

  // The client of this run never lets more than w read commands go unanswered.
  ghost predicate Windowed(w: nat, es: seq<Event>) {
    forall i :: 0 <= i <= |es| ==> Unanswered(Run(es[..i])) <= w
  }

  lemma {:induction false} ReadsAppend(a: seq<Byte>, b: seq<Byte>)
    ensures Reads(a + b) == Reads(a) + Reads(b)
  {
    if b == [] {
      assert a + b == a;
    } else {
      ReadsAppend(a, b[..|b| - 1]);
      assert (a + b)[..|a + b| - 1] == a + b[..|b| - 1];
    }
  }

  /** A host spinning on a full buf_out has 1024 answers the client has not read. */
  lemma HostBlockedNeedsWindow(s: State)
    requires Inv(s) && s.host.RespCheck? && s.bufOut.IsFull()
    ensures Unanswered(s) >= BUFSIZE_BYTE
  {
    s.bufOut.FullAndEmpty();
    ReadsAppend(Commands(s.log), InLine(s));
    assert |OutLine(s)| == |s.got| + |s.outNet| + |s.server.Outgoing()| + (BUFSIZE_BYTE - 1) + 1;
    assert |OutLine(s)| == Reads(Commands(s.log)) by {
      AnswerAt(s.log, s.samples, 0);
    }
  }

  lemma NoDeadlockBelow(w: nat, es: seq<Event>)
    requires w < BUFSIZE_BYTE && Windowed(w, es)
    ensures !Deadlocked(Run(es))
    ensures !(Run(es).host.RespCheck? && Run(es).bufOut.IsFull())
  {
    assert es[..|es|] == es;
    RunInv(es);
    if Run(es).host.RespCheck? && Run(es).bufOut.IsFull() {
      HostBlockedNeedsWindow(Run(es));
    }
  }

  // ---------- A run that deadlocks ----------

  function Copies(b: Byte, n: nat): (q: seq<Byte>)
    ensures |q| == n
  {
    seq(n, _ => b)
  }

  lemma {:induction false} ReadsOfCopies(b: Byte, n: nat)
    ensures Reads(Copies(b, n)) == if b == 'R' then n else 0
  {
    if n > 0 {
      ReadsOfCopies(b, n - 1);
      assert Copies(b, n)[..n - 1] == Copies(b, n - 1);
    }
  }

  lemma OnlyWritesRaiseUnanswered(s: State, e: Event)
    requires !e.ClientWrite?
    ensures Unanswered(Next(s, e)) <= Unanswered(s)
  {
  }

  // A property of the initial state that every step keeps, so long as it stays inside the window.
  ghost predicate Inductive(reach: State -> bool) {
    && reach(INIT)
    && (forall s :: reach(s) ==> Unanswered(s) <= BUFSIZE_BYTE)
    && (forall s, e :: reach(s) && Unanswered(Next(s, e)) <= BUFSIZE_BYTE ==> reach(Next(s, e)))
  }

  lemma KeptByStep(reach: State -> bool, s: State, e: Event)
    requires Inductive(reach) && reach(s) && !e.ClientWrite?
    ensures reach(Next(s, e))
  {
    OnlyWritesRaiseUnanswered(s, e);
  }

  // The client writes n copies of b; nothing else moves.
  lemma {:induction false} WriteCopies(reach: State -> bool, s: State, b: Byte, n: nat)
    requires Inductive(reach) && reach(s) && !s.host.Stopped?
    requires Unanswered(s) + (if b == 'R' then n else 0) <= BUFSIZE_BYTE
    ensures reach(s.(sent := s.sent + Copies(b, n), inNet := s.inNet + Copies(b, n)))
  {
    if n == 0 {
      assert s.sent + Copies(b, 0) == s.sent && s.inNet + Copies(b, 0) == s.inNet;
    } else {
      var mid := s.(sent := s.sent + Copies(b, n - 1), inNet := s.inNet + Copies(b, n - 1));
      WriteCopies(reach, s, b, n - 1);
      assert mid.sent + [b] == s.sent + Copies(b, n);
      assert mid.inNet + [b] == s.inNet + Copies(b, n);
      ReadsOfCopies(b, n);
      ReadsAppend(s.sent, Copies(b, n));
      assert reach(Next(mid, ClientWrite(b)));
    }
  }

  // Four steps of the server move one byte from the socket into buf_in.
  lemma Receive(reach: State -> bool, s: State) returns (s': State)
    requires Inductive(reach) && reach(s)
    requires s.server.Recv? && s.inNet != [] && !s.host.Stopped? && !s.bufIn.IsFull()
    ensures reach(s')
    ensures s' == s.(inNet := s.inNet[1..], bufIn := s'.bufIn)
    ensures s'.bufIn.Contents() == s.bufIn.Contents() + [s.inNet[0]]
  {
    s.bufIn.StoreKeepsQueue(s.inNet[0]);
    s.bufIn.Store(s.inNet[0]).PublishWriteAppends();
    s' := s;
    for i := 0 to 4
      invariant reach(s')
      invariant s' == match i
                      case 0 => s
                      case 1 => s.(inNet := s.inNet[1..], server := InCheck(s.inNet[0]))
                      case 2 => s.(inNet := s.inNet[1..], server := InStore(s.inNet[0]))
                      case 3 => s.(inNet := s.inNet[1..], server := InPublish(s.inNet[0]),
                                   bufIn := s.bufIn.Store(s.inNet[0]))
                      case _ => s.(inNet := s.inNet[1..], bufIn := s.bufIn.Store(s.inNet[0]).PublishWrite())
    {
      KeptByStep(reach, s', ServerStep(true));
      s' := Next(s', ServerStep(true));
    }
  }

  // What the host leaves alone.
  predicate SameButHost(s: State, s': State) {
    s'.server == s.server && s'.inNet == s.inNet && s'.sent == s.sent && s'.got == s.got
  }

  lemma HostSteps(reach: State -> bool, s: State) returns (s': State)
    requires Inductive(reach) && reach(s)
    ensures reach(s') && s' == Next(s, HostStep(false)) && SameButHost(s, s')
  {
    KeptByStep(reach, s, HostStep(false));
    s' := Next(s, HostStep(false));
  }

  // Three steps of the host start a tick and load a read command, two more consume it.
  lemma LoadRead(reach: State -> bool, s: State) returns (s': State)
    requires Inductive(reach) && reach(s) && s.host.Idle? && s.bufIn.Contents() == ['R']
    ensures reach(s') && SameButHost(s, s')
    ensures s'.host == Publish('R') && s'.bufIn == s.bufIn && s'.bufOut == s.bufOut
  {
    s.bufIn.FullAndEmpty();
    s.bufIn.PublishReadDropsHead();
    assert s.bufIn.Load() == s.bufIn.Contents()[0] == 'R';
    s' := HostSteps(reach, s);
    s' := HostSteps(reach, s');
    s' := HostSteps(reach, s');
  }

  lemma Consume(reach: State -> bool, s: State) returns (s': State)
    requires Inductive(reach) && reach(s) && s.host.Idle? && s.bufIn.Contents() == ['R']
    ensures reach(s') && SameButHost(s, s')
    ensures s'.host.RespCheck? && s'.bufIn.Contents() == [] && s'.bufOut == s.bufOut
  {
    s' := LoadRead(reach, s);
    s.bufIn.FullAndEmpty();
    s.bufIn.PublishReadDropsHead();
    s' := HostSteps(reach, s');
    s' := HostSteps(reach, s');
  }

  // Three more steps store the answer, one ends the tick.
  lemma Respond(reach: State -> bool, s: State) returns (s': State)
    requires Inductive(reach) && reach(s) && s.host.RespCheck? && !s.bufOut.IsFull()
    ensures reach(s') && SameButHost(s, s')
    ensures s'.host.Idle? && |s'.bufOut.Contents()| == |s.bufOut.Contents()| + 1 && s'.bufIn == s.bufIn
  {
    s.bufOut.StoreKeepsQueue(s.host.resp);
    s.bufOut.Store(s.host.resp).PublishWriteAppends();
    s' := HostSteps(reach, s);
    s' := HostSteps(reach, s');
    s' := HostSteps(reach, s');
    s' := HostSteps(reach, s');
  }

  // 1024 read commands are in; answered of them are in buf_out, the host is free.
  ghost predicate Flooded(s: State, answered: nat) {
    && answered < BUFSIZE_BYTE && s.server.Recv? && s.host.Idle?
    && s.inNet == Copies('R', BUFSIZE_BYTE - answered) + Copies('B', BUFSIZE_BYTE)
    && s.bufIn.Contents() == [] && |s.bufOut.Contents()| == answered
  }

  lemma Flood(reach: State -> bool) returns (s: State)
    requires Inductive(reach)
    ensures reach(s) && Flooded(s, 0)
  {
    var asks, blinks := Copies('R', BUFSIZE_BYTE), Copies('B', BUFSIZE_BYTE);
    assert [] + asks == asks;
    WriteCopies(reach, INIT, 'R', BUFSIZE_BYTE);
    ReadsOfCopies('R', BUFSIZE_BYTE);
    var asked := INIT.(sent := asks, inNet := asks);
    WriteCopies(reach, asked, 'B', BUFSIZE_BYTE);
    s := asked.(sent := asks + blinks, inNet := asks + blinks);
    KeptByStep(reach, s, ServerStep(true));
    s := Next(s, ServerStep(true));
  }

  lemma {:induction false} FillAnswers(reach: State -> bool, answered: nat) returns (s: State)
    requires Inductive(reach) && answered < BUFSIZE_BYTE
    ensures reach(s) && Flooded(s, answered)
  {
    if answered == 0 {
      s := Flood(reach);
    } else {
      s := FillAnswers(reach, answered - 1);
      s := TakeRead(reach, s, answered - 1);
      s.bufOut.FullAndEmpty();
      s := Respond(reach, s);
    }
  }

  // The server receives the next read command and the host consumes it.
  lemma TakeRead(reach: State -> bool, s: State, answered: nat) returns (s': State)
    requires Inductive(reach) && reach(s) && Flooded(s, answered)
    ensures reach(s') && s'.server.Recv? && s'.host.RespCheck?
    ensures s'.inNet == Copies('R', BUFSIZE_BYTE - answered - 1) + Copies('B', BUFSIZE_BYTE)
    ensures s'.bufIn.Contents() == [] && |s'.bufOut.Contents()| == answered
  {
    s.bufIn.FullAndEmpty();
    assert s.inNet[0] == 'R';
    assert s.inNet[1..] == Copies('R', BUFSIZE_BYTE - answered - 1) + Copies('B', BUFSIZE_BYTE);
    s' := Receive(reach, s);
    s' := Consume(reach, s');
  }

  // With the host blocked, the server fills buf_in with n more bytes.
  lemma {:induction false} FillCommands(reach: State -> bool, n: nat) returns (s: State)
    requires Inductive(reach) && n < BUFSIZE_BYTE
    ensures reach(s) && s.server.Recv? && s.host.RespCheck? && s.bufOut.IsFull()
    ensures s.inNet == Copies('B', BUFSIZE_BYTE - n) && |s.bufIn.Contents()| == n
  {
    if n == 0 {
      s := FillAnswers(reach, BUFSIZE_BYTE - 1);
      s := TakeRead(reach, s, BUFSIZE_BYTE - 1);
      s.bufOut.FullAndEmpty();
      assert Copies('R', 0) + Copies('B', BUFSIZE_BYTE) == Copies('B', BUFSIZE_BYTE);
    } else {
      s := FillCommands(reach, n - 1);
      s.bufIn.FullAndEmpty();
      assert Copies('B', BUFSIZE_BYTE - n + 1)[1..] == Copies('B', BUFSIZE_BYTE - n);
      s := Receive(reach, s);
    }
  }

  lemma BlockServer(reach: State -> bool) returns (s: State)
    requires Inductive(reach)
    ensures reach(s) && Deadlocked(s)
  {
    s := FillCommands(reach, BUFSIZE_BYTE - 1);
    s.bufIn.FullAndEmpty();
    KeptByStep(reach, s, ServerStep(true));
    s := Next(s, ServerStep(true));
  }

  // Some run inside a window of 1024 reaches the state.
  ghost predicate ReachedInWindow(s: State) {
    exists es :: Windowed(BUFSIZE_BYTE, es) && Run(es) == s
  }

  lemma Extend(es: seq<Event>, e: Event)
    requires Windowed(BUFSIZE_BYTE, es) && Unanswered(Next(Run(es), e)) <= BUFSIZE_BYTE
    ensures Windowed(BUFSIZE_BYTE, es + [e]) && Run(es + [e]) == Next(Run(es), e)
  {
    var more := es + [e];
    assert more[..|es|] == es;
    forall i | 0 <= i <= |more| ensures Unanswered(Run(more[..i])) <= BUFSIZE_BYTE {
      if i <= |es| {
        assert more[..i] == es[..i];
      } else {
        assert more[..i] == more;
      }
    }
  }

  lemma WindowIsInductive()
    ensures Inductive((s: State) => ReachedInWindow(s))
  {
    assert Windowed(BUFSIZE_BYTE, []) && Run([]) == INIT;
    forall s | ReachedInWindow(s) ensures Unanswered(s) <= BUFSIZE_BYTE {
      var es :| Windowed(BUFSIZE_BYTE, es) && Run(es) == s;
      assert es[..|es|] == es;
    }
    forall s, e | ReachedInWindow(s) && Unanswered(Next(s, e)) <= BUFSIZE_BYTE ensures ReachedInWindow(Next(s, e)) {
      var es :| Windowed(BUFSIZE_BYTE, es) && Run(es) == s;
      Extend(es, e);
    }
  }

  lemma DeadlockedRun() returns (es: seq<Event>)
    ensures Windowed(BUFSIZE_BYTE, es) && Deadlocked(Run(es))
  {
    WindowIsInductive();
    var s := BlockServer((s: State) => ReachedInWindow(s));
    es :| Windowed(BUFSIZE_BYTE, es) && Run(es) == s;
  }

  /** The bridge is free of deadlock exactly for clients that keep at most 1023 read commands
      unanswered: with one more, some run blocks both threads for good. */
  lemma DeadlockFreeExactly(w: nat)
    ensures (forall es :: Windowed(w, es) ==> !Deadlocked(Run(es))) <==> w <= 1023
  {
    if w < BUFSIZE_BYTE {
      forall es | Windowed(w, es) ensures !Deadlocked(Run(es)) {
        NoDeadlockBelow(w, es);
      }
    } else {
      var es := DeadlockedRun();
      assert Windowed(w, es) && Deadlocked(Run(es));
    }
  }

  /** Blocked for good: no later step of anyone ends a deadlock. */
  lemma {:induction false} DeadlockIsForever(es: seq<Event>, more: seq<Event>)
    requires Deadlocked(Run(es))
    ensures Deadlocked(Run(es + more))
  {
    if more == [] {
      assert es + more == es;
    } else {
      DeadlockIsForever(es, more[..|more| - 1]);
      assert (es + more)[..|es + more| - 1] == es + more[..|more| - 1];
    }
  }
}
