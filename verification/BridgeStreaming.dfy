/** Inside the window every command is executed within a bounded number of fair rounds, even while the
    client goes on writing. */
module BridgeStreaming {
  import opened RingBuffer
  import opened JtagDpi
  import opened Bridge
  import opened BridgeDeadlock
  import opened BridgeLiveness
  import opened BridgeStop

  function Excess(n: nat, behind: nat): nat {
    if n > behind then n - behind else 0
  }

  // How far the answers in the bridge, and those commands in it that have at least behind others sent
  // after them, still have to travel; writes and reads of the client do not change it.
  ghost function WorkBefore(s: State, behind: nat): nat {
    var inServer := Excess(behind, |s.inNet|);
    var inRing := Excess(inServer, |s.server.Incoming()|);
    8 * Excess(|s.inNet|, behind) + 7 * Excess(|s.server.Incoming()|, inServer)
    + 6 * Excess(|s.bufIn.Contents()|, inRing) + 5 * |s.host.Command()| + 4 * |s.host.Answer()|
    + 3 * |s.bufOut.Contents()| + 2 * |s.server.Outgoing()|
  }

  // Command j was sent and is not executed yet.
  predicate Waiting(s: State, j: nat) {
    |s.log| <= j < |s.sent|
  }

  ghost function WorkTo(s: State, j: nat): nat
    requires Waiting(s, j)
  {
    WorkBefore(s, |s.sent| - 1 - j)
  }

  lemma LineLength(s: State)
    requires Inv(s)
    ensures |s.sent| - |s.log| == |s.host.Command()| + |s.bufIn.Contents()| + |s.server.Incoming()| + |s.inNet|
  {
  }

  // A bound that does not look into the bridge.
  lemma WorkIsBounded(s: State, j: nat)
    requires Inv(s) && Waiting(s, j)
    ensures WorkTo(s, j) <= 8 * (j + 1 - |s.log|) + 3 * (BUFSIZE_BYTE - 1) + 6
  {
    LineLength(s);
  }

  // Host or server is bound to move something next, and the server only if the command waits before it.
  ghost predicate Busy(s: State, behind: nat) {
    && !Critical(s).ClientMover?
    && (Critical(s).ServerMover? ==> s.bufIn.Contents() == [] && behind < |s.inNet| + |s.server.Incoming()|)
  }

  lemma SomeoneMoves(s: State, j: nat)
    requires Inv(s) && Waiting(s, j)
    ensures Busy(s, |s.sent| - 1 - j)
    ensures |s.sent| - 1 - j < |s.host.Command()| + |s.bufIn.Contents()| + |s.server.Incoming()| + |s.inNet|
  {
    LineLength(s);
  }

  // One step before the goal: less work left, or the same and the critical thread nearer to moving.
  ghost predicate Nearer(s: State, behind: nat, s': State, behind': nat, steps: nat) {
    || WorkBefore(s', behind') < WorkBefore(s, behind)
    || (WorkBefore(s', behind') == WorkBefore(s, behind) && Critical(s') == Critical(s)
        && Distance(s') <= Distance(s) - steps)
  }

  lemma SameLoads(s: State, s': State, behind: nat)
    requires s.inNet == s'.inNet
    requires s.server.Incoming() == s'.server.Incoming() && s.server.Outgoing() == s'.server.Outgoing()
    requires s.host.Command() == s'.host.Command() && s.host.Answer() == s'.host.Answer()
    requires s.bufIn.Contents() == s'.bufIn.Contents() && s.bufOut.Contents() == s'.bufOut.Contents()
    ensures WorkBefore(s', behind) == WorkBefore(s, behind)
  {
  }

  // ---------- The host ----------

  lemma HostStaysNear(s: State, tdo: bool, behind: nat)
    requires HostInv(s) && !s.host.Publish? && !s.host.Exec? && !s.host.RespPublish? && !s.host.Stopped?
    requires !(s.host.RespCheck? && s.bufOut.IsFull())
    ensures Nearer(s, behind, HostNext(s, tdo), behind, If(Critical(s).HostMover?, 1))
  {
    var s' := HostNext(s, tdo);
    s.bufIn.FullAndEmpty();
    HostMovesQueues(s, tdo);
    SameLoads(s, s', behind);
    SameBytes(s, s');
  }

  // A command on its way from the ring into the host: counted, unless it is behind.
  lemma HostTakes(s: State, tdo: bool, behind: nat)
    requires HostInv(s) && s.host.Publish? && behind < |s.bufIn.Contents()| + |s.server.Incoming()| + |s.inNet|
    ensures WorkBefore(HostNext(s, tdo), behind) < WorkBefore(s, behind)
  {
    HostMovesQueues(s, tdo);
  }

  lemma HostExecutes(s: State, tdo: bool, behind: nat)
    requires s.host.Exec?
    ensures WorkBefore(HostNext(s, tdo), behind) < WorkBefore(s, behind)
  {
    var s' := HostNext(s, tdo);
    ExecLeavesQueues(s, s.host.cmd);
    assert s'.host.Command() == [] && |s'.host.Answer()| <= 1 == |s.host.Command()|;
  }

  lemma ExecLeavesQueues(s: State, cmd: Byte)
    ensures var s' := ExecNext(s, cmd);
            && s'.inNet == s.inNet && s'.server == s.server && s'.bufIn == s.bufIn && s'.bufOut == s.bufOut
  {
  }

  lemma HostAnswers(s: State, tdo: bool, behind: nat)
    requires HostInv(s) && s.host.RespPublish?
    ensures WorkBefore(HostNext(s, tdo), behind) < WorkBefore(s, behind)
  {
    HostMovesQueues(s, tdo);
  }

  lemma HostNearer(s: State, tdo: bool, behind: nat)
    requires HostInv(s) && !s.host.Stopped? && !(s.host.RespCheck? && s.bufOut.IsFull())
    requires behind < |s.host.Command()| + |s.bufIn.Contents()| + |s.server.Incoming()| + |s.inNet|
    ensures Nearer(s, behind, HostNext(s, tdo), behind, If(Critical(s).HostMover?, 1))
  {
    if s.host.Publish? {
      HostTakes(s, tdo, behind);
    } else if s.host.Exec? {
      HostExecutes(s, tdo, behind);
    } else if s.host.RespPublish? {
      HostAnswers(s, tdo, behind);
    } else {
      HostStaysNear(s, tdo, behind);
    }
  }

  // ---------- The server ----------

  lemma ServerReceives(s: State, ok: bool, behind: nat)
    requires ServerInv(s) && Busy(s, behind) && s.server.Recv?
    ensures Nearer(s, behind, ServerNext(s, ok), behind, If(Critical(s).ServerMover? && ok, 1))
  {
    var s' := ServerNext(s, ok);
    if s.inNet == [] {
      SameLoads(s, s', behind);
      SameBytes(s, s');
    } else {
      assert |s'.inNet| == |s.inNet| - 1 && |s'.server.Incoming()| == 1;
      assert behind < |s.inNet| ==> WorkBefore(s', behind) < WorkBefore(s, behind);
    }
  }

  lemma ServerPublishes(s: State, ok: bool, behind: nat)
    requires ServerInv(s) && Busy(s, behind) && s.server.InPublish?
    ensures Nearer(s, behind, ServerNext(s, ok), behind, If(Critical(s).ServerMover? && ok, 1))
  {
    ServerMovesQueues(s, ok);
  }

  lemma ServerWaits(s: State, ok: bool, behind: nat)
    requires ServerInv(s) && Busy(s, behind) && (s.server.Poll? || s.server.InCheck? || s.server.InStore?)
    ensures Nearer(s, behind, ServerNext(s, ok), behind, If(Critical(s).ServerMover? && ok, 1))
  {
    var s' := ServerNext(s, ok);
    s.bufIn.FullAndEmpty();
    ServerMovesQueues(s, ok);
    SameLoads(s, s', behind);
    SameBytes(s, s');
  }

  lemma ServerDrains(s: State, ok: bool, behind: nat)
    requires ServerInv(s) && Busy(s, behind)
    requires s.server.OutCheck? || s.server.OutLoad? || (s.server.Send? && !ok)
    ensures Nearer(s, behind, ServerNext(s, ok), behind, If(Critical(s).ServerMover? && ok, 1))
  {
    var s' := ServerNext(s, ok);
    s.bufOut.FullAndEmpty();
    SameLoads(s, s', behind);
    SameBytes(s, s');
  }

  lemma ServerSends(s: State, ok: bool, behind: nat)
    requires ServerInv(s) && (s.server.OutPublish? || (s.server.Send? && ok))
    ensures WorkBefore(ServerNext(s, ok), behind) < WorkBefore(s, behind)
  {
    ServerMovesQueues(s, ok);
  }

  lemma ServerNearer(s: State, ok: bool, behind: nat)
    requires ServerInv(s) && Busy(s, behind)
    ensures Nearer(s, behind, ServerNext(s, ok), behind, If(Critical(s).ServerMover? && ok, 1))
  {
    match s.server
    case Recv => ServerReceives(s, ok, behind);
    case InPublish(_) => ServerPublishes(s, ok, behind);
    case OutPublish(_) => ServerSends(s, ok, behind);
    case Send(_) =>
      if ok {
        ServerSends(s, ok, behind);
      } else {
        ServerDrains(s, ok, behind);
      }
    case OutCheck => ServerDrains(s, ok, behind);
    case OutLoad => ServerDrains(s, ok, behind);
    case _ => ServerWaits(s, ok, behind);
  }

  // ---------- The client ----------

  lemma WriteKeepsNear(s: State, b: Byte, behind: nat)
    requires Busy(s, behind) && !s.host.Stopped?
    ensures Nearer(s, behind, Next(s, ClientWrite(b)), behind + 1, 0)
  {
  }

  lemma ReadKeepsNear(s: State, behind: nat)
    requires Busy(s, behind) && !s.host.Stopped?
    ensures Nearer(s, behind, Next(s, ClientRead), behind, 0)
  {
    SameLoads(s, Next(s, ClientRead), behind);
  }

  // ---------- Whole schedules ----------

  // Command j is executed, or some steps nearer to being so.
  ghost predicate Advances(s: State, s': State, j: nat, steps: nat)
    requires Waiting(s, j)
  {
    || s'.host.Stopped? || |s'.log| > j
    || (Waiting(s', j) && Nearer(s, |s.sent| - 1 - j, s', |s'.sent| - 1 - j, steps))
  }

  lemma NearerAdvances(s: State, s': State, j: nat, behind: nat, behind': nat, steps: nat)
    requires Waiting(s, j) && behind == |s.sent| - 1 - j && j + 1 + behind' == |s'.sent|
    requires Nearer(s, behind, s', behind', steps)
    ensures Advances(s, s', j, steps)
  {
  }

  lemma HostAdvances(s: State, tdo: bool, j: nat, behind: nat)
    requires HostInv(s) && Waiting(s, j) && !s.host.Stopped? && !(s.host.RespCheck? && s.bufOut.IsFull())
    requires behind == |s.sent| - 1 - j
    requires behind < |s.host.Command()| + |s.bufIn.Contents()| + |s.server.Incoming()| + |s.inNet|
    ensures Advances(s, HostNext(s, tdo), j, If(Critical(s).HostMover?, 1))
  {
    HostNearer(s, tdo, behind);
    HostLeavesSent(s, tdo);
    NearerAdvances(s, HostNext(s, tdo), j, behind, behind, If(Critical(s).HostMover?, 1));
  }

  lemma HostLeavesSent(s: State, tdo: bool)
    ensures HostNext(s, tdo).sent == s.sent
  {
  }

  lemma ServerAdvances(s: State, ok: bool, j: nat, behind: nat)
    requires ServerInv(s) && Waiting(s, j) && behind == |s.sent| - 1 - j && Busy(s, behind)
    ensures Advances(s, ServerNext(s, ok), j, If(Critical(s).ServerMover? && ok, 1))
  {
    ServerNearer(s, ok, behind);
    ServerLeavesSent(s, ok);
    NearerAdvances(s, ServerNext(s, ok), j, behind, behind, If(Critical(s).ServerMover? && ok, 1));
  }

  lemma ServerLeavesSent(s: State, ok: bool)
    ensures ServerNext(s, ok).sent == s.sent
  {
  }

  lemma WriteAdvances(s: State, b: Byte, j: nat, behind: nat)
    requires Waiting(s, j) && !s.host.Stopped? && behind == |s.sent| - 1 - j && Busy(s, behind)
    ensures Advances(s, Next(s, ClientWrite(b)), j, 0)
  {
    WriteKeepsNear(s, b, behind);
    NearerAdvances(s, Next(s, ClientWrite(b)), j, behind, behind + 1, 0);
  }

  lemma ReadAdvances(s: State, j: nat, behind: nat)
    requires Waiting(s, j) && !s.host.Stopped? && behind == |s.sent| - 1 - j && Busy(s, behind)
    ensures Advances(s, Next(s, ClientRead), j, 0)
  {
    ReadKeepsNear(s, behind);
    NearerAdvances(s, Next(s, ClientRead), j, behind, behind, 0);
  }

  lemma StepAdvances(s: State, e: Event, j: nat)
    requires Live(s) && Waiting(s, j)
    ensures Advances(s, Next(s, e), j, If(StepOf(Critical(s), e), 1))
  {
    SomeoneMoves(s, j);
    var behind := |s.sent| - 1 - j;
    match e
    case HostStep(tdo) =>
      if s.host.RespCheck? && s.bufOut.IsFull() {
        HostBlockedNeedsWindow(s);
      }
      HostAdvances(s, tdo, j, behind);
    case ServerStep(ok) => ServerAdvances(s, ok, j, behind);
    case ClientWrite(b) => WriteAdvances(s, b, j, behind);
    case ClientRead => ReadAdvances(s, j, behind);
  }

  // The client keeps inside the window all along a schedule.
  ghost predicate Courteous(s: State, es: seq<Event>) {
    forall i :: 0 <= i <= |es| ==> Unanswered(RunFrom(s, es[..i])) < BUFSIZE_BYTE
  }

  lemma CourteousPrefix(s: State, es: seq<Event>, n: nat)
    requires Courteous(s, es) && n <= |es|
    ensures Courteous(s, es[..n]) && Unanswered(RunFrom(s, es[..n])) < BUFSIZE_BYTE
  {
    forall i | 0 <= i <= n ensures Unanswered(RunFrom(s, es[..n][..i])) < BUFSIZE_BYTE {
      assert es[..n][..i] == es[..i];
    }
  }

  lemma CourteousSuffix(s: State, a: seq<Event>, b: seq<Event>)
    requires Courteous(s, a + b)
    ensures Courteous(s, a) && Courteous(RunFrom(s, a), b)
  {
    assert (a + b)[..|a|] == a;
    CourteousPrefix(s, a + b, |a|);
    forall i | 0 <= i <= |b| ensures Unanswered(RunFrom(RunFrom(s, a), b[..i])) < BUFSIZE_BYTE {
      RunFromSplits(s, a, b[..i]);
      assert (a + b)[..|a| + i] == a + b[..i];
    }
  }

  // The log never gets shorter.
  lemma {:induction false} Executed(s: State, es: seq<Event>)
    ensures |RunFrom(s, es).log| >= |s.log|
  {
    if es != [] {
      Executed(s, es[..|es| - 1]);
      LogGrows(RunFrom(s, es[..|es| - 1]), es[|es| - 1]);
    }
  }

  lemma LogGrows(s: State, e: Event)
    ensures |Next(s, e).log| >= |s.log| && |Next(s, e).sent| >= |s.sent|
  {
  }

  lemma Chain(s: State, mid: State, next: State, e: Event, j: nat, steps: nat)
    requires Waiting(s, j) && Waiting(mid, j) && !mid.host.Stopped?
    requires Advances(s, mid, j, steps) && Advances(mid, next, j, If(StepOf(Critical(mid), e), 1))
    ensures Advances(s, next, j, steps + If(StepOf(Critical(s), e), 1))
  {
  }

  lemma {:induction false} StretchAdvances(s: State, es: seq<Event>, j: nat)
    requires Inv(s) && !s.host.Stopped? && Courteous(s, es) && Waiting(s, j)
    ensures Advances(s, RunFrom(s, es), j, Steps(Critical(s), es))
  {
    if es != [] {
      var front, e := es[..|es| - 1], es[|es| - 1];
      var mid := RunFrom(s, front);
      CourteousPrefix(s, es, |front|);
      StretchAdvances(s, front, j);
      if mid.host.Stopped? {
      } else if |mid.log| > j {
        LogGrows(mid, e);
      } else {
        InvFrom(s, front);
        StepAdvances(mid, e, j);
        Chain(s, mid, RunFrom(s, es), e, j, Steps(Critical(s), front));
      }
    }
  }

  lemma RoundAdvances(s: State, round: seq<Event>, j: nat)
    requires Inv(s) && !s.host.Stopped? && Courteous(s, round) && Waiting(s, j) && FairThreads(round)
    ensures var s' := RunFrom(s, round);
            s'.host.Stopped? || |s'.log| > j || (Waiting(s', j) && WorkTo(s', j) < WorkTo(s, j))
  {
    StretchAdvances(s, round, j);
    SomeoneMoves(s, j);
  }

  lemma {:induction false} RoundsAdvance(s: State, rounds: seq<seq<Event>>, j: nat)
    requires Inv(s) && !s.host.Stopped? && Courteous(s, Flatten(rounds)) && Waiting(s, j)
    requires forall i :: 0 <= i < |rounds| ==> FairThreads(rounds[i])
    ensures var s' := RunFrom(s, Flatten(rounds));
            s'.host.Stopped? || |s'.log| > j || (Waiting(s', j) && WorkTo(s', j) + |rounds| <= WorkTo(s, j))
  {
    if rounds != [] {
      var n := |rounds| - 1;
      var front := Flatten(rounds[..n]);
      var mid := RunFrom(s, front);
      CourteousSuffix(s, front, rounds[n]);
      RunFromSplits(s, front, rounds[n]);
      RoundsAdvance(s, rounds[..n], j);
      InvFrom(s, front);
      if mid.host.Stopped? {
        StoppedStays(mid, rounds[n]);
      } else if |mid.log| > j {
        Executed(mid, rounds[n]);
      } else {
        RoundAdvances(mid, rounds[n], j);
      }
    }
  }

  /** From any state of any run, for any command byte j the client has sent: a schedule that keeps inside
      the window and gives host and server their fair steps, the client writing and reading as it likes,
      executes it within 8 rounds for each command before it and a constant number more, unless the
      stream itself ended the connection. */
  lemma CommandsKeepMoving(es: seq<Event>, s: State, rounds: seq<seq<Event>>, j: nat)
    requires Reached(es, s) && j < |s.sent| && Courteous(s, Flatten(rounds))
    requires forall r <- rounds :: FairThreads(r)
    requires |rounds| > 8 * (j + 1 - |s.log|) + 3 * (BUFSIZE_BYTE - 1) + 6
    ensures var s' := RunFrom(s, Flatten(rounds));
            s'.host.Stopped? || (|s'.log| > j && |s'.sent| > j && s'.log[j].cmd == s'.sent[j] == s.sent[j])
  {
    RunInv(es);
    var s' := RunFrom(s, Flatten(rounds));
    InvFrom(s, Flatten(rounds));
    SentStays(s, Flatten(rounds));
    if s.host.Stopped? {
      StoppedStays(s, Flatten(rounds));
    } else if |s.log| > j {
      Executed(s, Flatten(rounds));
      ExecutedAt(s', j);
    } else {
      WorkIsBounded(s, j);
      RoundsAdvance(s, rounds, j);
      if !s'.host.Stopped? {
        ExecutedAt(s', j);
      }
    }
  }

  /** ... and if the client sends only bytes after which the host goes on, without exception. */
  lemma PoliteCommandsAreExecuted(es: seq<Event>, s: State, rounds: seq<seq<Event>>, j: nat)
    requires Reached(es, s) && j < |s.sent| && Courteous(s, Flatten(rounds))
    requires Polite(RunFrom(s, Flatten(rounds)).sent)
    requires forall r <- rounds :: FairThreads(r)
    requires |rounds| > 8 * (j + 1 - |s.log|) + 3 * (BUFSIZE_BYTE - 1) + 6
    ensures var s' := RunFrom(s, Flatten(rounds));
            |s'.log| > j && |s'.sent| > j && s'.log[j].cmd == s'.sent[j] == s.sent[j]
  {
    CommandsKeepMoving(es, s, rounds, j);
    StopsExactly(es);
    RunInv(es);
    InvFrom(s, Flatten(rounds));
    StopsFrom(s, Flatten(rounds));
    PoliteNeverEnds(RunFrom(s, Flatten(rounds)));
  }

  lemma {:induction false} SentStays(s: State, es: seq<Event>)
    ensures s.sent <= RunFrom(s, es).sent
  {
    if es != [] {
      SentStays(s, es[..|es| - 1]);
    }
  }

  lemma ExecutedAt(s: State, j: nat)
    requires Inv(s) && j < |s.log|
    ensures j < |s.sent| && s.log[j].cmd == s.sent[j]
  {
    ExecutedIsPrefix(s);
    assert Commands(s.log)[j] == s.sent[j];
  }
}
