/** A client that keeps the socket non-empty never gets the answers waiting in buf_out. */
module BridgeStarvation {
  import opened RingBuffer
  import opened JtagDpi
  import opened Bridge
  import opened BridgeDeadlock
  import opened BridgeLiveness

  /** The server goes back to waiting only once it has found buf_out empty, and to draining only once it
      has found the socket empty; it tries a send that would block again. */
  lemma LeavesLoopsEmpty(s: State, e: Event)
    ensures Next(s, e).server.Poll? && !s.server.Poll? ==> s.bufOut.Contents() == []
    ensures Next(s, e).server.OutCheck? && (Receiving(s.server) || s.server.Poll?) ==> s.inNet == []
    ensures s.server.Send? && e == ServerStep(false) ==> Next(s, e) == s
  {
    s.bufOut.FullAndEmpty();
  }

  // ---------- The receive loop starves the drain loop ----------

  // Inside the loop that moves bytes from the socket to buf_in.
  predicate Receiving(p: Server) {
    p.Recv? || p.InCheck? || p.InStore? || p.InPublish?
  }

  // Whenever the server asks the socket for a byte along the schedule, there is one.
  ghost predicate Fed(s: State, es: seq<Event>) {
    forall i :: 0 <= i < |es| ==> FedAt(RunFrom(s, es[..i]), es[i])
  }

  predicate FedAt(s: State, e: Event) {
    e.ServerStep? && s.server.Recv? ==> s.inNet != []
  }

  // What the client has read or will read off the socket, and what waits in buf_out.
  ghost predicate Starved(s: State, s': State) {
    && Receiving(s'.server) && s'.got + s'.outNet == s.got + s.outNet
    && s.bufOut.Contents() <= s'.bufOut.Contents()
  }

  lemma StepStarves(s: State, e: Event)
    requires ServerInv(s) && HostInv(s) && Receiving(s.server) && FedAt(s, e)
    ensures Starved(s, Next(s, e))
  {
    if !s.host.Stopped? {
      match e
      case ServerStep(ok) => ServerMovesQueues(s, ok);
      case HostStep(tdo) => HostMovesQueues(s, tdo);
      case _ =>
    }
  }

  /** As long as the socket is never found empty, whatever else anyone does, nothing leaves buf_out and
      nothing more reaches the client. */
  lemma {:induction false} ReceivingStarvesDraining(s: State, es: seq<Event>)
    requires Inv(s) && Receiving(s.server) && Fed(s, es)
    ensures Starved(s, RunFrom(s, es))
  {
    if es != [] {
      var front := es[..|es| - 1];
      forall i | 0 <= i < |front| ensures FedAt(RunFrom(s, front[..i]), front[i]) {
        assert front[..i] == es[..i] && front[i] == es[i];
      }
      ReceivingStarvesDraining(s, front);
      InvFrom(s, front);
      assert FedAt(RunFrom(s, es[..|es| - 1]), es[|es| - 1]);
      StepStarves(RunFrom(s, front), es[|es| - 1]);
    }
  }

  // ---------- A run in which it does so for ever ----------

  function Repeat(e: Event, n: nat): seq<Event> {
    if n == 0 then [] else Repeat(e, n - 1) + [e]
  }

  lemma {:induction false} StepsOfRepeat(m: Mover, e: Event, n: nat)
    ensures Steps(m, Repeat(e, n)) == if StepOf(m, e) then n else 0
    ensures Asked(Repeat(e, n)) == if e == ClientWrite('R') then n else 0
  {
    if n > 0 {
      StepsOfRepeat(m, e, n - 1);
    }
  }

  lemma {:induction false} StepsOfConcat(m: Mover, a: seq<Event>, b: seq<Event>)
    ensures Steps(m, a + b) == Steps(m, a) + Steps(m, b)
    ensures Asked(a + b) == Asked(a) + Asked(b)
  {
    if b == [] {
      assert a + b == a;
    } else {
      assert (a + b)[..|a + b| - 1] == a + b[..|b| - 1];
      StepsOfConcat(m, a, b[..|b| - 1]);
    }
  }

  // Read commands the client writes along a schedule.
  function Asked(es: seq<Event>): nat {
    if es == [] then 0 else Asked(es[..|es| - 1]) + if es[|es| - 1] == ClientWrite('R') then 1 else 0
  }

  lemma {:induction false} UnansweredAtMostAsked(es: seq<Event>)
    ensures Reads(Run(es).sent) <= Asked(es)
  {
    if es != [] {
      UnansweredAtMostAsked(es[..|es| - 1]);
      OneMoreSent(Run(es[..|es| - 1]), es[|es| - 1]);
    }
  }

  lemma OneMoreSent(s: State, e: Event)
    ensures Reads(Next(s, e).sent) <= Reads(s.sent) + if e == ClientWrite('R') then 1 else 0
  {
    if e.ClientWrite? {
      assert (s.sent + [e.b])[..|s.sent|] == s.sent;
    }
  }

  lemma FewAsked(es: seq<Event>)
    requires Asked(es) <= 1
    ensures Windowed(1, es)
  {
    forall i | 0 <= i <= |es| ensures Unanswered(Run(es[..i])) <= 1 {
      assert es == es[..i] + es[i..];
      StepsOfConcat(HostMover, es[..i], es[i..]);
      UnansweredAtMostAsked(es[..i]);
    }
  }

  lemma {:induction false} RunFromInit(es: seq<Event>)
    ensures Run(es) == RunFrom(INIT, es)
  {
    if es != [] {
      RunFromInit(es[..|es| - 1]);
    }
  }

  // Four steps of the server take one byte from the socket to buf_in.
  lemma FourServerSteps(s: State, s1: State, s2: State, s3: State, s4: State)
    requires s.server.Recv? && s.inNet != [] && !s.host.Stopped? && !s.bufIn.IsFull()
    requires s1 == Next(s, ServerStep(true)) && s2 == Next(s1, ServerStep(true))
    requires s3 == Next(s2, ServerStep(true)) && s4 == Next(s3, ServerStep(true))
    ensures s4 == s.(inNet := s.inNet[1..], bufIn := s4.bufIn)
    ensures s4.bufIn.Contents() == s.bufIn.Contents() + [s.inNet[0]]
  {
    s.bufIn.StoreKeepsQueue(s.inNet[0]);
    s.bufIn.Store(s.inNet[0]).PublishWriteAppends();
    assert s2 == s.(inNet := s.inNet[1..], server := InStore(s.inNet[0]));
    assert s4 == s.(inNet := s.inNet[1..], bufIn := s.bufIn.Store(s.inNet[0]).PublishWrite());
  }

  lemma ServerTakes(s: State) returns (s': State)
    requires s.server.Recv? && s.inNet != [] && !s.host.Stopped? && !s.bufIn.IsFull()
    ensures s' == RunFrom(s, Repeat(ServerStep(true), 4))
    ensures s' == s.(inNet := s.inNet[1..], bufIn := s'.bufIn)
    ensures s'.bufIn.Contents() == s.bufIn.Contents() + [s.inNet[0]]
  {
    var s1 := OneStep(s, ServerStep(true), 0, s);
    var s2 := OneStep(s, ServerStep(true), 1, s1);
    var s3 := OneStep(s, ServerStep(true), 2, s2);
    s' := OneStep(s, ServerStep(true), 3, s3);
    FourServerSteps(s, s1, s2, s3, s');
  }

  // One step more of a repetition.
  lemma OneStep(s: State, e: Event, i: nat, now: State) returns (next: State)
    requires now == RunFrom(s, Repeat(e, i))
    ensures next == RunFrom(s, Repeat(e, i + 1)) && next == Next(now, e)
  {
    next := Next(now, e);
  }

  // Five steps of the host start a tick and execute a command.
  lemma FiveHostSteps(s: State, s1: State, s2: State, s3: State, s4: State)
    requires s.host.Idle? && s.bufIn.Contents() != []
    requires s1 == Next(s, HostStep(false)) && s2 == Next(s1, HostStep(false))
    requires s3 == Next(s2, HostStep(false)) && s4 == Next(s3, HostStep(false))
    ensures s4.host == Exec(s.bufIn.Contents()[0])
    ensures s4.bufIn.Contents() == s.bufIn.Contents()[1..] && s4.bufOut == s.bufOut
    ensures SameButHost(s, s4) && s4.outNet == s.outNet
  {
    s.bufIn.FullAndEmpty();
    s.bufIn.PublishReadDropsHead();
    assert s2.host == Load && s2.bufIn == s.bufIn;
    assert s3.host == Publish(s.bufIn.Load()) && s3.bufIn == s.bufIn;
  }

  lemma HostExecutes(s: State) returns (s': State)
    requires s.host.Idle? && s.bufIn.Contents() != []
    ensures s' == RunFrom(s, Repeat(HostStep(false), 5))
    ensures SameButHost(s, s') && s'.outNet == s.outNet
    ensures s'.bufIn.Contents() == s.bufIn.Contents()[1..] && s'.bufOut == s.bufOut
    ensures var c := Classify(s.bufIn.Contents()[0]);
            (c.Blink? ==> s'.host.Finish?) && (c.Read? ==> s'.host.RespCheck?)
  {
    var s1 := OneStep(s, HostStep(false), 0, s);
    var s2 := OneStep(s, HostStep(false), 1, s1);
    var s3 := OneStep(s, HostStep(false), 2, s2);
    var s4 := OneStep(s, HostStep(false), 3, s3);
    FiveHostSteps(s, s1, s2, s3, s4);
    s' := OneStep(s, HostStep(false), 4, s4);
    FifthHostStep(s4, s');
  }

  lemma FifthHostStep(s: State, s': State)
    requires s.host.Exec? && s' == Next(s, HostStep(false))
    ensures SameButHost(s, s') && s'.outNet == s.outNet && s'.bufIn == s.bufIn && s'.bufOut == s.bufOut
    ensures Classify(s.host.cmd).Blink? ==> s'.host.Finish?
    ensures Classify(s.host.cmd).Read? ==> s'.host.RespCheck?
  {
  }

  // One more step ends the tick of a blink command.
  lemma HostBlinks(s: State) returns (s': State)
    requires s.host.Idle? && s.bufIn.Contents() != [] && s.bufIn.Contents()[0] == 'B'
    ensures s' == RunFrom(s, Repeat(HostStep(false), 6)) && SameButHost(s, s') && s'.outNet == s.outNet
    ensures s'.host.Idle? && s'.bufIn.Contents() == s.bufIn.Contents()[1..] && s'.bufOut == s.bufOut
  {
    s' := HostExecutes(s);
    s' := OneStep(s, HostStep(false), 5, s');
  }

  // Four more answer a read command.
  lemma HostStoresAnswer(s: State, s1: State, s2: State, s3: State, s4: State)
    requires s.host.RespCheck? && s.bufOut.Contents() == []
    requires s1 == Next(s, HostStep(false)) && s2 == Next(s1, HostStep(false))
    requires s3 == Next(s2, HostStep(false)) && s4 == Next(s3, HostStep(false))
    ensures s4.host.Idle? && s4.bufIn == s.bufIn && s4.bufOut.Contents() != []
    ensures SameButHost(s, s4) && s4.outNet == s.outNet
  {
    s.bufOut.FullAndEmpty();
    s.bufOut.StoreKeepsQueue(s.host.resp);
    s.bufOut.Store(s.host.resp).PublishWriteAppends();
    assert s3.bufOut == s.bufOut.Store(s.host.resp).PublishWrite();
  }

  lemma HostAnswersRead(s: State) returns (s': State)
    requires s.host.Idle? && s.bufIn.Contents() == ['R'] && s.bufOut.Contents() == []
    ensures s' == RunFrom(s, Repeat(HostStep(false), 9)) && SameButHost(s, s') && s'.outNet == s.outNet
    ensures s'.host.Idle? && s'.bufIn.Contents() == [] && s'.bufOut.Contents() != []
  {
    var mid := HostExecutes(s);
    var s1 := OneStep(s, HostStep(false), 5, mid);
    var s2 := OneStep(s, HostStep(false), 6, s1);
    var s3 := OneStep(s, HostStep(false), 7, s2);
    s' := OneStep(s, HostStep(false), 8, s3);
    HostStoresAnswer(mid, s1, s2, s3, s');
  }

  // The answer to a read command waits in buf_out, the client has got nothing, one more byte is in.
  ghost predicate Hungry(s: State) {
    && s.server.Recv? && s.host.Idle? && s.inNet == ['B'] && s.outNet == [] && s.got == []
    && s.bufIn.Contents() == [] && s.bufOut.Contents() != []
  }

  // The client writes two bytes and reads, the server receives two, the host consumes two.
  function BusyRound(): seq<Event> {
    (Meal() + Meal()) + Repeat(ClientRead, 5)
  }

  function Meal(): seq<Event> {
    [ClientWrite('B')] + Repeat(ServerStep(true), 4) + Repeat(HostStep(false), 6)
  }

  lemma MealSteps(m: Mover)
    ensures Steps(m, Meal()) == match m case HostMover => 6 case ServerMover => 4 case ClientMover => 0
    ensures Asked(Meal()) == 0
  {
    var write := [ClientWrite('B')];
    assert write[..0] == [];
    StepsOfConcat(m, write, Repeat(ServerStep(true), 4));
    StepsOfConcat(m, write + Repeat(ServerStep(true), 4), Repeat(HostStep(false), 6));
    StepsOfRepeat(m, ServerStep(true), 4);
    StepsOfRepeat(m, HostStep(false), 6);
  }

  lemma BusyRoundIsFair(m: Mover)
    ensures Steps(m, BusyRound()) >= 5 && Asked(BusyRound()) == 0
  {
    MealSteps(m);
    StepsOfConcat(m, Meal(), Meal());
    StepsOfConcat(m, Meal() + Meal(), Repeat(ClientRead, 5));
    StepsOfRepeat(m, ClientRead, 5);
  }

  lemma WritesOne(s: State, b: Byte)
    requires !s.host.Stopped?
    ensures RunFrom(s, [ClientWrite(b)]) == s.(sent := s.sent + [b], inNet := s.inNet + [b])
  {
    var write := [ClientWrite(b)];
    assert write[..|write| - 1] == [] && write[|write| - 1] == ClientWrite(b);
    assert RunFrom(s, write) == Next(RunFrom(s, []), ClientWrite(b));
  }

  lemma MealKeepsHungry(s: State)
    requires Hungry(s)
    ensures Hungry(RunFrom(s, Meal()))
  {
    var write := [ClientWrite('B')];
    WritesOne(s, 'B');
    var s1 := RunFrom(s, write);
    s1.bufIn.FullAndEmpty();
    var s2 := ServerTakes(s1);
    RunFromSplits(s, write, Repeat(ServerStep(true), 4));
    var s3 := HostBlinks(s2);
    RunFromSplits(s, write + Repeat(ServerStep(true), 4), Repeat(HostStep(false), 6));
  }

  lemma {:induction false} NothingToRead(s: State, n: nat)
    requires s.outNet == []
    ensures RunFrom(s, Repeat(ClientRead, n)) == s
  {
    if n > 0 {
      NothingToRead(s, n - 1);
    }
  }

  lemma RoundKeepsHungry(s: State)
    requires Hungry(s)
    ensures Hungry(RunFrom(s, BusyRound()))
  {
    MealKeepsHungry(s);
    var mid := RunFrom(s, Meal());
    MealKeepsHungry(mid);
    RunFromSplits(s, Meal(), Meal());
    NothingToRead(RunFrom(mid, Meal()), 5);
    RunFromSplits(s, Meal() + Meal(), Repeat(ClientRead, 5));
  }

  function Rounds(n: nat): seq<seq<Event>> {
    seq(n, _ => BusyRound())
  }

  lemma {:induction false} RoundsKeepHungry(s: State, n: nat)
    requires Hungry(s)
    ensures Hungry(RunFrom(s, Flatten(Rounds(n)))) && Asked(Flatten(Rounds(n))) == 0
  {
    if n > 0 {
      assert Rounds(n)[..n - 1] == Rounds(n - 1);
      RoundsKeepHungry(s, n - 1);
      RoundKeepsHungry(RunFrom(s, Flatten(Rounds(n - 1))));
      RunFromSplits(s, Flatten(Rounds(n - 1)), BusyRound());
      BusyRoundIsFair(HostMover);
      StepsOfConcat(HostMover, Flatten(Rounds(n - 1)), BusyRound());
    }
  }

  // A read command and a blink: the server enters the receive loop and takes the first, the host
  // answers it.
  function Opening(): seq<Event> {
    Asking() + Repeat(ServerStep(true), 4) + Repeat(HostStep(false), 9)
  }

  function Asking(): seq<Event> {
    [ClientWrite('R'), ClientWrite('B'), ServerStep(true)]
  }

  lemma AfterAsking()
    ensures Asked(Asking()) == 1
    ensures Run(Asking()) == INIT.(sent := ['R', 'B'], inNet := ['R', 'B'], server := Recv)
  {
    var e1, e2, e3 := ClientWrite('R'), ClientWrite('B'), ServerStep(true);
    RunSnoc([], e1);
    RunSnoc([] + [e1], e2);
    RunSnoc([] + [e1] + [e2], e3);
    assert [] + [e1] + [e2] + [e3] == Asking();
    assert [] + ['R'] + ['B'] == ['R', 'B'];
  }

  lemma RunSnoc(es: seq<Event>, e: Event)
    ensures Run(es + [e]) == Next(Run(es), e)
    ensures Asked(es + [e]) == Asked(es) + if e == ClientWrite('R') then 1 else 0
  {
    assert (es + [e])[..|es|] == es;
  }

  lemma OpeningMakesHungry()
    ensures Hungry(Run(Opening())) && Asked(Opening()) == 1
  {
    AfterAsking();
    RunFromInit(Asking());
    RunFromInit(Opening());
    var s1 := Run(Asking());
    s1.bufIn.FullAndEmpty();
    var s2 := ServerTakes(s1);
    RunFromSplits(INIT, Asking(), Repeat(ServerStep(true), 4));
    assert ['R', 'B'][1..] == ['B'];
    var s3 := HostAnswersRead(s2);
    RunFromSplits(INIT, Asking() + Repeat(ServerStep(true), 4), Repeat(HostStep(false), 9));
    StepsOfConcat(HostMover, Asking(), Repeat(ServerStep(true), 4));
    StepsOfConcat(HostMover, Asking() + Repeat(ServerStep(true), 4), Repeat(HostStep(false), 9));
    StepsOfRepeat(HostMover, ServerStep(true), 4);
    StepsOfRepeat(HostMover, HostStep(false), 9);
  }

  /** So no number of fair rounds makes up for a client that goes on writing: for every n some run keeps
      inside a window of one, gives everyone n fair rounds after an answer is ready, and the client has
      still got nothing. */
  lemma AnswersMayNeverCome(n: nat) returns (es: seq<Event>, rounds: seq<seq<Event>>)
    ensures |rounds| == n
    ensures forall r <- rounds :: forall m :: Steps(m, r) >= 5
    ensures Windowed(1, es + Flatten(rounds))
    ensures Run(es).bufOut.Contents() != []
    ensures var s := Run(es + Flatten(rounds)); s.got == [] && !s.host.Stopped? && s.bufOut.Contents() != []
  {
    es, rounds := Opening(), Rounds(n);
    OpeningMakesHungry();
    RoundsKeepHungry(Run(es), n);
    RunFromInit(es);
    RunFromInit(es + Flatten(rounds));
    RunFromSplits(INIT, es, Flatten(rounds));
    StepsOfConcat(HostMover, es, Flatten(rounds));
    FewAsked(es + Flatten(rounds));
    forall m ensures Steps(m, BusyRound()) >= 5 {
      BusyRoundIsFair(m);
    }
  }
}
