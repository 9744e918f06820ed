/** Inside the window every fair schedule delivers every command and every answer. */
module BridgeLiveness {
  import opened RingBuffer
  import opened JtagDpi
  import opened Bridge
  import opened BridgeDeadlock
  import opened BridgeStop

  function If(b: bool, n: nat): nat {
    if b then n else 0
  }

  // How far the bytes in the bridge still have to travel.
  ghost function Work(s: State): nat {
    8 * |s.inNet| + 7 * |s.server.Incoming()| + 6 * |s.bufIn.Contents()| + 5 * |s.host.Command()|
    + 4 * |s.host.Answer()| + 3 * |s.bufOut.Contents()| + 2 * |s.server.Outgoing()| + |s.outNet|
  }

  ghost predicate HostHasWork(s: State) {
    s.bufIn.Contents() != [] || s.host.Command() != [] || s.host.Answer() != []
  }

  ghost predicate ServerHasWork(s: State) {
    s.inNet != [] || s.server.Incoming() != [] || s.server.Outgoing() != [] || s.bufOut.Contents() != []
  }

  // Whose steps are bound to move a byte next.
  datatype Mover = HostMover | ServerMover | ClientMover

  ghost function Critical(s: State): Mover {
    if HostHasWork(s) then HostMover else if ServerHasWork(s) then ServerMover else ClientMover
  }

  predicate StepOf(m: Mover, e: Event) {
    match m
    case HostMover => e.HostStep?
    case ServerMover => e.ServerStep? && e.sendOk
    case ClientMover => e.ClientRead?
  }

  // A bound on the steps the critical thread needs before it moves a byte.
  ghost function Distance(s: State): (d: nat)
    ensures 1 <= d <= 5
  {
    match Critical(s)
    case HostMover =>
      (match s.host
       case RespPublish(_) => 1 case RespStore(_) => 2 case RespCheck(_) => 3
       case Exec(_) => 1 case Publish(_) => 1 case Load => 2 case Check => 3 case Idle => 4
       case Finish => 5 case Stopped => 5)
    case ServerMover =>
      (match s.server
       case InCheck(_) => 3 case InStore(_) => 2 case InPublish(_) => 1
       case OutCheck => 3 case OutLoad => 2 case OutPublish(_) => 1 case Send(_) => 1
       case Recv => if s.inNet != [] then 1 else 4
       case Poll => if s.inNet != [] then 2 else 4)
    case ClientMover => 1
  }

  ghost predicate Live(s: State) {
    Inv(s) && !s.host.Stopped? && Unanswered(s) < BUFSIZE_BYTE
  }

  // A step moved a byte, or left all in place and, taken by the critical thread, brought it nearer
  // to moving one.
  ghost predicate Moves(s: State, s': State, near: bool) {
    || Work(s') < Work(s)
    || (Work(s') == Work(s) && Critical(s') == Critical(s)
        && (Work(s) == 0 || Distance(s') <= Distance(s) - If(near, 1)))
  }

  lemma SameBytes(s: State, s': State)
    requires s.inNet == s'.inNet && s.outNet == s'.outNet
    requires s.server.Incoming() == s'.server.Incoming() && s.server.Outgoing() == s'.server.Outgoing()
    requires s.host.Command() == s'.host.Command() && s.host.Answer() == s'.host.Answer()
    requires s.bufIn.Contents() == s'.bufIn.Contents() && s.bufOut.Contents() == s'.bufOut.Contents()
    ensures Work(s') == Work(s) && Critical(s') == Critical(s)
  {
  }

  lemma HostConsumeMoves(s: State, tdo: bool)
    requires HostInv(s) && (s.host.Load? || s.host.Check?)
    ensures Moves(s, HostNext(s, tdo), Critical(s).HostMover?)
  {
  }

  lemma HostTakeMoves(s: State, tdo: bool)
    requires HostInv(s) && s.host.Publish?
    ensures Work(HostNext(s, tdo)) < Work(s)
  {
    HostMovesQueues(s, tdo);
  }

  lemma HostExecMoves(s: State, tdo: bool)
    requires HostInv(s) && (s.host.Exec? || s.host.Idle? || s.host.Finish?)
    ensures HostNext(s, tdo).host.Stopped? || Moves(s, HostNext(s, tdo), Critical(s).HostMover?)
  {
  }

  lemma HostAnswerMoves(s: State, tdo: bool)
    requires HostInv(s) && (s.host.RespCheck? || s.host.RespStore?)
    requires !(s.host.RespCheck? && s.bufOut.IsFull())
    ensures Moves(s, HostNext(s, tdo), Critical(s).HostMover?)
  {
    HostMovesQueues(s, tdo);
    SameBytes(s, HostNext(s, tdo));
  }

  lemma HostPublishMoves(s: State, tdo: bool)
    requires HostInv(s) && s.host.RespPublish?
    ensures Work(HostNext(s, tdo)) < Work(s)
  {
    HostMovesQueues(s, tdo);
  }

  lemma HostStepMoves(s: State, tdo: bool)
    requires HostInv(s) && !s.host.Stopped? && !(s.host.RespCheck? && s.bufOut.IsFull())
    ensures HostNext(s, tdo).host.Stopped? || Moves(s, HostNext(s, tdo), Critical(s).HostMover?)
  {
    match s.host
    case Check => HostConsumeMoves(s, tdo);
    case Load => HostConsumeMoves(s, tdo);
    case Publish(_) => HostTakeMoves(s, tdo);
    case RespCheck(_) => HostAnswerMoves(s, tdo);
    case RespStore(_) => HostAnswerMoves(s, tdo);
    case RespPublish(_) => HostPublishMoves(s, tdo);
    case _ => HostExecMoves(s, tdo);
  }

  lemma ServerInMoves(s: State, ok: bool)
    requires ServerInv(s) && (s.server.Poll? || s.server.Recv? || s.server.Incoming() != [])
    ensures Moves(s, ServerNext(s, ok), Critical(s).ServerMover? && ok)
  {
    s.bufIn.FullAndEmpty();
    ServerMovesQueues(s, ok);
  }

  lemma ServerOutMoves(s: State, ok: bool)
    requires ServerInv(s) && (s.server.OutCheck? || s.server.OutLoad? || (s.server.Send? && !ok))
    ensures Moves(s, ServerNext(s, ok), Critical(s).ServerMover? && ok)
  {
    s.bufOut.FullAndEmpty();
    SameBytes(s, ServerNext(s, ok));
  }

  lemma ServerSendMoves(s: State, ok: bool)
    requires ServerInv(s) && (s.server.OutPublish? || (s.server.Send? && ok))
    ensures Work(ServerNext(s, ok)) < Work(s)
  {
    ServerMovesQueues(s, ok);
  }

  lemma ServerStepMoves(s: State, ok: bool)
    requires ServerInv(s)
    ensures Moves(s, ServerNext(s, ok), Critical(s).ServerMover? && ok)
  {
    if s.server.Poll? || s.server.Recv? || s.server.Incoming() != [] {
      ServerInMoves(s, ok);
    } else if s.server.OutPublish? || (s.server.Send? && ok) {
      ServerSendMoves(s, ok);
    } else {
      ServerOutMoves(s, ok);
    }
  }

  lemma LiveStays(s: State, e: Event)
    requires Live(s) && !e.ClientWrite?
    ensures Next(s, e).host.Stopped? || Live(Next(s, e))
  {
    NextKeepsInv(s, e);
    OnlyWritesRaiseUnanswered(s, e);
  }

  lemma StopsAtExec(s: State, e: Event)
    requires !s.host.Stopped? && Next(s, e).host.Stopped?
    ensures e.HostStep? && s.host.Exec? && !Proceeds(s.host.cmd)
  {
    match e
    case HostStep(tdo) =>
      if s.host.Exec? {
        ExecStops(s, s.host.cmd);
      } else {
        OthersDoNotStop(s, tdo);
      }
    case ServerStep(ok) => ServerKeepsLogs(s, ok);
    case _ =>
  }

  // One step of anyone but a writing client.
  lemma StepMoves(s: State, e: Event)
    requires Live(s) && !e.ClientWrite?
    ensures var s' := Next(s, e);
            if s'.host.Stopped? then e.HostStep? && s.host.Exec? && !Proceeds(s.host.cmd)
            else Live(s') && Moves(s, s', StepOf(Critical(s), e))
  {
    LiveStays(s, e);
    if Next(s, e).host.Stopped? {
      StopsAtExec(s, e);
    }
    match e
    case HostStep(tdo) =>
      if s.host.RespCheck? && s.bufOut.IsFull() {
        HostBlockedNeedsWindow(s);
      }
      HostStepMoves(s, tdo);
    case ServerStep(ok) => ServerStepMoves(s, ok);
    case ClientRead => ReadMoves(s);
  }

  lemma ReadMoves(s: State)
    ensures s.host.Stopped? || Moves(s, Next(s, ClientRead), Critical(s).ClientMover?)
  {
  }

  function RunFrom(s: State, es: seq<Event>): State {
    if es == [] then s else Next(RunFrom(s, es[..|es| - 1]), es[|es| - 1])
  }

  function Steps(m: Mover, es: seq<Event>): nat {
    if es == [] then 0 else Steps(m, es[..|es| - 1]) + If(StepOf(m, es[|es| - 1]), 1)
  }

  // A stretch of a schedule in which the host and the server each take five steps (of the server's,
  // five at which send would succeed) ...
  predicate FairThreads(es: seq<Event>) {
    Steps(HostMover, es) >= 5 && Steps(ServerMover, es) >= 5
  }

  // ... and one in which the client, too, takes five, and writes nothing.
  predicate FairRound(es: seq<Event>) {
    && (forall e <- es :: !e.ClientWrite?)
    && FairThreads(es) && Steps(ClientMover, es) >= 5
  }

  lemma {:induction false} StretchMoves(s: State, es: seq<Event>)
    requires Live(s) && forall e <- es :: !e.ClientWrite?
    ensures var s' := RunFrom(s, es);
            || s'.host.Stopped?
            || (Live(s') && Work(s') < Work(s))
            || (Live(s') && Work(s') == Work(s) && Critical(s') == Critical(s)
                && (Work(s) == 0 || Distance(s') <= Distance(s) - Steps(Critical(s), es)))
  {
    if es != [] {
      StretchMoves(s, es[..|es| - 1]);
      var mid := RunFrom(s, es[..|es| - 1]);
      if !mid.host.Stopped? {
        StepMoves(mid, es[|es| - 1]);
      }
    }
  }

  function Flatten(rounds: seq<seq<Event>>): seq<Event> {
    if rounds == [] then [] else Flatten(rounds[..|rounds| - 1]) + rounds[|rounds| - 1]
  }

  lemma {:induction false} RunFromSplits(s: State, a: seq<Event>, b: seq<Event>)
    ensures RunFrom(s, a + b) == RunFrom(RunFrom(s, a), b)
  {
    if b == [] {
      assert a + b == a;
    } else {
      RunFromSplits(s, a, b[..|b| - 1]);
      assert (a + b)[..|a + b| - 1] == a + b[..|b| - 1];
    }
  }

  lemma RoundWorks(s: State, round: seq<Event>)
    requires Live(s) && FairRound(round)
    ensures var s' := RunFrom(s, round);
            s'.host.Stopped? || (Live(s') && (Work(s') < Work(s) || Work(s') == Work(s) == 0))
  {
    StretchMoves(s, round);
  }

  lemma {:induction false} RoundsWork(s: State, rounds: seq<seq<Event>>)
    requires Live(s) && forall i :: 0 <= i < |rounds| ==> FairRound(rounds[i])
    ensures var s' := RunFrom(s, Flatten(rounds));
            s'.host.Stopped? || (Live(s') && (Work(s') == 0 || Work(s') + |rounds| <= Work(s)))
  {
    if rounds != [] {
      var n := |rounds| - 1;
      RoundsWork(s, rounds[..n]);
      RunFromSplits(s, Flatten(rounds[..n]), rounds[n]);
      var mid := RunFrom(s, Flatten(rounds[..n]));
      assert RunFrom(s, Flatten(rounds)) == RunFrom(mid, rounds[n]);
      if !mid.host.Stopped? {
        RoundWorks(mid, rounds[n]);
      } else {
        StoppedStays(mid, rounds[n]);
      }
    }
  }

  lemma {:induction false} StoppedStays(s: State, es: seq<Event>)
    requires s.host.Stopped?
    ensures RunFrom(s, es) == s
  {
    if es != [] {
      StoppedStays(s, es[..|es| - 1]);
    }
  }

  lemma {:induction false} NothingNewSent(s: State, es: seq<Event>)
    requires forall e <- es :: !e.ClientWrite?
    ensures RunFrom(s, es).sent == s.sent
  {
    if es != [] {
      NothingNewSent(s, es[..|es| - 1]);
    }
  }

  lemma {:induction false} FlattenedRounds(rounds: seq<seq<Event>>)
    requires forall r <- rounds :: FairRound(r)
    ensures forall e <- Flatten(rounds) :: !e.ClientWrite?
  {
    if rounds != [] {
      FlattenedRounds(rounds[..|rounds| - 1]);
      assert FairRound(rounds[|rounds| - 1]);
    }
  }

  lemma NothingLeft(s: State)
    requires Inv(s) && Work(s) == 0
    ensures Commands(s.log) == s.sent && s.got == Answers(s.log, s.samples)
  {
  }

  ghost predicate Reached(es: seq<Event>, s: State) {
    Run(es) == s
  }

  /** From any state a windowed client can reach, once the client stops writing, every schedule of
      at least Work fair rounds executes every command sent and hands the client every answer,
      unless the stream itself ended the connection. */
  lemma EverythingIsAnswered(es: seq<Event>, s: State, rounds: seq<seq<Event>>)
    requires Reached(es, s) && Unanswered(s) < BUFSIZE_BYTE
    requires forall r <- rounds :: FairRound(r)
    requires |rounds| >= Work(s)
    ensures var s' := RunFrom(s, Flatten(rounds));
            || s'.host.Stopped?
            || (Inv(s') && Commands(s'.log) == s'.sent == s.sent && s'.got == Answers(s'.log, s'.samples))
  {
    var s' := RunFrom(s, Flatten(rounds));
    RunInv(es);
    FlattenedRounds(rounds);
    NothingNewSent(s, Flatten(rounds));
    InvFrom(s, Flatten(rounds));
    if s.host.Stopped? {
      StoppedStays(s, Flatten(rounds));
    } else {
      RoundsWork(s, rounds);
      if !s'.host.Stopped? {
        NothingLeft(s');
      }
    }
  }

  lemma {:induction false} StopsFrom(s: State, es: seq<Event>)
    requires s.host.Stopped? <==> EndsSession(s.log)
    ensures RunFrom(s, es).host.Stopped? <==> EndsSession(RunFrom(s, es).log)
  {
    if es != [] {
      StopsFrom(s, es[..|es| - 1]);
      StepStops(RunFrom(s, es[..|es| - 1]), es[|es| - 1]);
    }
  }

  /** ... and if the client has sent only bytes after which the host goes on, it is served to the end. */
  lemma PoliteClientIsAnswered(es: seq<Event>, s: State, rounds: seq<seq<Event>>)
    requires Reached(es, s) && Unanswered(s) < BUFSIZE_BYTE && Polite(s.sent)
    requires forall r <- rounds :: FairRound(r)
    requires |rounds| >= Work(s)
    ensures var s' := RunFrom(s, Flatten(rounds));
            Inv(s') && Commands(s'.log) == s'.sent == s.sent && s'.got == Answers(s'.log, s'.samples)
  {
    EverythingIsAnswered(es, s, rounds);
    StopsExactly(es);
    RunInv(es);
    FlattenedRounds(rounds);
    NothingNewSent(s, Flatten(rounds));
    InvFrom(s, Flatten(rounds));
    StopsFrom(s, Flatten(rounds));
    PoliteNeverEnds(RunFrom(s, Flatten(rounds)));
  }

  lemma {:induction false} InvFrom(s: State, es: seq<Event>)
    requires Inv(s)
    ensures Inv(RunFrom(s, es))
  {
    if es != [] {
      InvFrom(s, es[..|es| - 1]);
      NextKeepsInv(RunFrom(s, es[..|es| - 1]), es[|es| - 1]);
    }
  }
}
