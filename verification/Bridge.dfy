/** The two threads of the JTAG bridge and a remote client, interleaved.
    A full or empty check, a byte access and a pointer publish are separate steps. */
module Bridge {
  import opened RingBuffer
  import opened JtagDpi

  // Where the socket thread stands in the loop of server_create.
  datatype Server =
    | Poll                     // select
    | Recv                     // get_byte on the socket
    | InCheck(x: Byte)         // tcp_buffer_put_byte(buf_in): is it full?
    | InStore(x: Byte)
    | InPublish(x: Byte)
    | OutCheck                 // tcp_buffer_get_byte(buf_out): is it empty?
    | OutLoad
    | OutPublish(x: Byte)
    | Send(x: Byte)            // put_byte on the socket
  {
    // The byte taken from the socket and not yet visible in buf_in.
    function Incoming(): seq<Byte> {
      if InCheck? || InStore? || InPublish? then [x] else []
    }

    // The byte taken out of buf_out and not yet written to the socket.
    function Outgoing(): seq<Byte> {
      if Send? then [x] else []
    }
  }

  // Where the simulation thread stands in jtagdpi_tick.
  datatype Host =
    | Idle                     // between two ticks
    | Check                    // tcp_buffer_get_byte(buf_in): is it empty?
    | Load
    | Publish(cmd: Byte)
    | Exec(cmd: Byte)
    | RespCheck(resp: Byte)    // tcp_buffer_put_byte(buf_out): is it full?
    | RespStore(resp: Byte)
    | RespPublish(resp: Byte)
    | Finish                   // copy the signals to the pins
    | Stopped                  // after a quit command or a protocol violation
  {
    function Command(): seq<Byte> {
      if Exec? then [cmd] else []
    }

    function Answer(): seq<Byte> {
      if RespCheck? || RespStore? || RespPublish? then [resp] else []
    }
  }

  // A command byte the host consumed, and the number of the tick that did it.
  datatype Entry = Entry(cmd: Byte, tick: nat)

  datatype State = State(
    sent: seq<Byte>,           // everything the client ever wrote
    inNet: seq<Byte>,          // on the way to the server
    outNet: seq<Byte>,         // on the way to the client
    got: seq<Byte>,            // everything the client ever read
    bufIn: Ring,
    bufOut: Ring,
    server: Server,
    host: Host,
    curr: Signals,
    pins: Signals,             // what the last finished tick drove
    tick: nat,                 // history: number of the tick in progress
    samples: seq<bool>,        // history: tdo of every tick so far
    log: seq<Entry>)           // history: commands consumed so far

  datatype Event =
    | ClientWrite(b: Byte)
    | ClientRead
    | ServerStep(sendOk: bool) // sendOk is false when send answers EAGAIN
    | HostStep(tdo: bool)      // tdo is looked at only when the step starts a tick

  const INIT := State([], [], [], [], EmptyRing(), EmptyRing(), Poll, Idle, UNPLUGGED, UNPLUGGED, 0, [], [])

  function ServerNext(s: State, sendOk: bool): State {
    match s.server
    case Poll => s.(server := if s.inNet != [] then Recv else OutCheck)
    case Recv =>
      if s.inNet != [] then s.(inNet := s.inNet[1..], server := InCheck(s.inNet[0]))
      else s.(server := OutCheck)
    case InCheck(x) => if s.bufIn.IsFull() then s else s.(server := InStore(x))
    case InStore(x) => s.(bufIn := s.bufIn.Store(x), server := InPublish(x))
    case InPublish(_) => s.(bufIn := s.bufIn.PublishWrite(), server := Recv)
    case OutCheck => s.(server := if s.bufOut.IsEmpty() then Poll else OutLoad)
    case OutLoad => s.(server := OutPublish(s.bufOut.Load()))
    case OutPublish(x) => s.(bufOut := s.bufOut.PublishRead(), server := Send(x))
    case Send(x) => if sendOk then s.(outNet := s.outNet + [x], server := OutCheck) else s
  }

  function ExecNext(s: State, cmd: Byte): State {
    var s' := s.(curr := Apply(s.curr, cmd), log := s.log + [Entry(cmd, s.tick)]);
    match Classify(cmd)
    case Read => s'.(host := RespCheck(Response(s.curr.tdo)))
    case Quit => s'.(host := Stopped)
    case Violation => s'.(host := Stopped)
    case _ => s'.(host := Finish)
  }

  function HostNext(s: State, tdo: bool): State {
    match s.host
    case Idle => s.(curr := s.curr.(tdo := tdo), tick := |s.samples|, samples := s.samples + [tdo], host := Check)
    case Check => s.(host := if s.bufIn.IsEmpty() then Finish else Load)
    case Load => s.(host := Publish(s.bufIn.Load()))
    case Publish(cmd) => s.(bufIn := s.bufIn.PublishRead(), host := Exec(cmd))
    case Exec(cmd) => ExecNext(s, cmd)
    case RespCheck(r) => if s.bufOut.IsFull() then s else s.(host := RespStore(r))
    case RespStore(r) => s.(bufOut := s.bufOut.Store(r), host := RespPublish(r))
    case RespPublish(_) => s.(bufOut := s.bufOut.PublishWrite(), host := Finish)
    case Finish => s.(pins := s.curr, host := Idle)
    case Stopped => s
  }

  function Next(s: State, e: Event): State {
    if s.host.Stopped? then s else
    match e
    case ClientWrite(b) => s.(sent := s.sent + [b], inNet := s.inNet + [b])
    case ClientRead => if s.outNet == [] then s else s.(got := s.got + [s.outNet[0]], outNet := s.outNet[1..])
    case ServerStep(ok) => ServerNext(s, ok)
    case HostStep(tdo) => HostNext(s, tdo)
  }

  // ---------- What the logs mean ----------

  function Commands(log: seq<Entry>): (cs: seq<Byte>)
    ensures |cs| == |log|
  {
    seq(|log|, i requires 0 <= i < |log| => log[i].cmd)
  }

  // The pins after a string of command bytes; tdo is not a command's business.
  function Fold(cmds: seq<Byte>): Signals {
    if cmds == [] then UNPLUGGED else Apply(Fold(cmds[..|cmds| - 1]), cmds[|cmds| - 1])
  }

  // The answers owed for a log, given the tdo of every tick.
  function Answers(log: seq<Entry>, samples: seq<bool>): seq<Byte>
    requires forall e <- log :: e.tick < |samples|
  {
    if log == [] then []
    else
      var e := log[|log| - 1];
      Answers(log[..|log| - 1], samples) + if e.cmd == 'R' then [Response(samples[e.tick])] else []
  }

  function Reads(cmds: seq<Byte>): nat {
    if cmds == [] then 0
    else Reads(cmds[..|cmds| - 1]) + if cmds[|cmds| - 1] == 'R' then 1 else 0
  }

  // ---------- The invariant of every run ----------

  ghost predicate ServerInv(s: State)
  {
    match s.server
    case InStore(_) => !s.bufIn.IsFull()
    case InPublish(x) => !s.bufIn.IsFull() && s.bufIn.buf[s.bufIn.wptr] == x
    case OutLoad => !s.bufOut.IsEmpty()
    case OutPublish(x) => !s.bufOut.IsEmpty() && s.bufOut.Load() == x
    case _ => true
  }

  ghost predicate HostInv(s: State)
  {
    && (!s.host.Idle? && !s.host.Stopped? ==> s.samples != [] && s.curr.tdo == s.samples[|s.samples| - 1])
    && match s.host
       case Load => !s.bufIn.IsEmpty()
       case Publish(c) => !s.bufIn.IsEmpty() && s.bufIn.Load() == c
       case RespStore(_) => !s.bufOut.IsFull()
       case RespPublish(r) => !s.bufOut.IsFull() && s.bufOut.buf[s.bufOut.wptr] == r
       case Idle => s.pins == s.curr
       case _ => true
  }

  // Ticks in a log are increasing and all below the bound.
  ghost predicate Ticks(log: seq<Entry>, bound: nat) {
    && (forall i :: 0 <= i < |log| ==> log[i].tick < bound)
    && (forall i, j :: 0 <= i < j < |log| ==> log[i].tick < log[j].tick)
  }

  // Has the current tick still to execute its command?
  predicate BeforeExec(h: Host) {
    h.Check? || h.Load? || h.Publish? || h.Exec?
  }

  ghost predicate LogInv(s: State) {
    && (BeforeExec(s.host) ==> s.samples != [] && s.tick == |s.samples| - 1)
    && Ticks(s.log, |s.samples| - if BeforeExec(s.host) then 1 else 0)
    && s.curr == Fold(Commands(s.log)).(tdo := s.curr.tdo)
  }

  // Command bytes sent but not executed, oldest first.
  ghost function InLine(s: State): seq<Byte>
  {
    s.host.Command() + s.bufIn.Contents() + s.server.Incoming() + s.inNet
  }

  // Answers produced, oldest first: read by the client, on the wire, or still in the bridge.
  ghost function OutLine(s: State): seq<Byte>
  {
    s.got + s.outNet + s.server.Outgoing() + s.bufOut.Contents() + s.host.Answer()
  }

  // Every byte sent is in exactly one place, in order; so is every answer.
  ghost predicate Conserved(s: State)
    requires forall e <- s.log :: e.tick < |s.samples|
  {
    && s.sent == Commands(s.log) + InLine(s)
    && Answers(s.log, s.samples) == OutLine(s)
  }

  ghost predicate Inv(s: State) {
    && ServerInv(s) && HostInv(s) && LogInv(s)
    && Conserved(s)
  }

  lemma InitInv()
    ensures Inv(INIT)
  {
  }

  // What a step of the server, and one of the host, does to the two queues.
  lemma ServerMovesQueues(s: State, ok: bool)
    requires ServerInv(s)
    ensures var s' := ServerNext(s, ok);
            && (if s.server.InPublish? then s'.bufIn.Contents() == s.bufIn.Contents() + [s.server.x]
                else s'.bufIn.Contents() == s.bufIn.Contents())
            && (if s.server.OutPublish? then s.bufOut.Contents() == [s.server.x] + s'.bufOut.Contents()
                else s'.bufOut.Contents() == s.bufOut.Contents())
  {
    match s.server
    case InStore(x) => s.bufIn.StoreKeepsQueue(x);
    case InPublish(x) => s.bufIn.PublishWriteAppends();
    case OutPublish(x) => s.bufOut.PublishReadDropsHead();
    case _ =>
  }

  lemma HostMovesQueues(s: State, tdo: bool)
    requires HostInv(s)
    ensures var s' := HostNext(s, tdo);
            && (if s.host.Publish? then s.bufIn.Contents() == [s.host.cmd] + s'.bufIn.Contents()
                else s'.bufIn.Contents() == s.bufIn.Contents())
            && (if s.host.RespPublish? then s'.bufOut.Contents() == s.bufOut.Contents() + [s.host.resp]
                else s'.bufOut.Contents() == s.bufOut.Contents())
  {
    match s.host
    case Publish(_) => s.bufIn.PublishReadDropsHead();
    case RespStore(r) => s.bufOut.StoreKeepsQueue(r);
    case RespPublish(_) => s.bufOut.PublishWriteAppends();
    case _ =>
  }

  lemma ServerKeepsInLine(s: State, ok: bool)
    requires ServerInv(s)
    ensures InLine(ServerNext(s, ok)) == InLine(s)
  {
    ServerMovesQueues(s, ok);
    if s.server.Recv? && s.inNet != [] {
      TakenFromNet(s.host.Command() + s.bufIn.Contents(), s.inNet);
    } else if s.server.InPublish? {
      AddedToIn(s.host.Command(), s.bufIn.Contents(), s.server.x, s.inNet);
    }
  }

  lemma TakenFromNet(q: seq<Byte>, n: seq<Byte>)
    requires n != []
    ensures q + [] + n == q + [n[0]] + n[1..]
  {
  }

  lemma AddedToIn(h: seq<Byte>, q: seq<Byte>, x: Byte, n: seq<Byte>)
    ensures h + q + [x] + n == h + (q + [x]) + [] + n
  {
  }

  lemma ServerKeepsOutLine(s: State, ok: bool)
    requires ServerInv(s)
    ensures OutLine(ServerNext(s, ok)) == OutLine(s)
  {
    ServerMovesQueues(s, ok);
    if s.server.OutPublish? {
      TakenFromOut(s.got + s.outNet, s.server.x, ServerNext(s, ok).bufOut.Contents(), s.host.Answer());
    } else if s.server.Send? && ok {
      SentFromOut(s.got, s.outNet, s.server.x, s.bufOut.Contents(), s.host.Answer());
    }
  }

  lemma TakenFromOut(g: seq<Byte>, x: Byte, q: seq<Byte>, r: seq<Byte>)
    ensures g + [] + ([x] + q) + r == g + [x] + q + r
  {
  }

  lemma SentFromOut(g: seq<Byte>, o: seq<Byte>, x: Byte, q: seq<Byte>, r: seq<Byte>)
    ensures g + (o + [x]) + [] + q + r == g + o + [x] + q + r
  {
  }

  lemma ServerKeepsInv(s: State, ok: bool)
    requires ServerInv(s) && HostInv(s)
    ensures var s' := ServerNext(s, ok); ServerInv(s') && HostInv(s')
  {
  }

  lemma {:induction false} AnswersIgnoreLaterTicks(log: seq<Entry>, samples: seq<bool>, tdo: bool)
    requires forall e <- log :: e.tick < |samples|
    ensures forall e <- log :: e.tick < |samples + [tdo]|
    ensures Answers(log, samples + [tdo]) == Answers(log, samples)
  {
    if log != [] {
      AnswersIgnoreLaterTicks(log[..|log| - 1], samples, tdo);
    }
  }

  lemma ApplyIgnoresTdo(s: Signals, t: bool, cmd: Byte)
    ensures Apply(s.(tdo := t), cmd) == Apply(s, cmd).(tdo := t)
  {
  }

  lemma CommandsSnoc(log: seq<Entry>, e: Entry)
    ensures Commands(log + [e]) == Commands(log) + [e.cmd]
  {
  }

  lemma FoldSnoc(cmds: seq<Byte>, cmd: Byte)
    ensures Fold(cmds + [cmd]) == Apply(Fold(cmds), cmd)
  {
    assert (cmds + [cmd])[..|cmds|] == cmds;
  }

  lemma TicksSnoc(log: seq<Entry>, e: Entry, bound: nat)
    requires Ticks(log, e.tick) && e.tick < bound
    ensures Ticks(log + [e], bound)
  {
  }

  // The signals stay the fold of the executed commands when one more is executed.
  lemma FoldKeepsUp(log: seq<Entry>, curr: Signals, e: Entry)
    requires curr == Fold(Commands(log)).(tdo := curr.tdo)
    ensures var next := Apply(curr, e.cmd); next == Fold(Commands(log + [e])).(tdo := next.tdo)
  {
    CommandsSnoc(log, e);
    FoldSnoc(Commands(log), e.cmd);
    ApplyIgnoresTdo(Fold(Commands(log)), curr.tdo, e.cmd);
  }

  // What an execution does to the parts the log is about.
  lemma ExecParts(s: State, cmd: Byte)
    ensures var s' := ExecNext(s, cmd);
            && s'.log == s.log + [Entry(cmd, s.tick)] && s'.curr == Apply(s.curr, cmd)
            && s'.samples == s.samples && s'.tick == s.tick && !BeforeExec(s'.host)
            && s'.sent == s.sent
  {
  }

  lemma ExecKeepsLog(s: State)
    requires LogInv(s) && s.host.Exec?
    ensures LogInv(ExecNext(s, s.host.cmd))
    ensures Commands(ExecNext(s, s.host.cmd).log) == Commands(s.log) + [s.host.cmd]
  {
    var e := Entry(s.host.cmd, s.tick);
    ExecParts(s, s.host.cmd);
    FoldKeepsUp(s.log, s.curr, e);
    TicksSnoc(s.log, e, |s.samples|);
    CommandsSnoc(s.log, e);
  }

  lemma Assoc(a: seq<Byte>, b: seq<Byte>, c: seq<Byte>)
    ensures a + (b + c) == (a + b) + c
  {
  }

  lemma ExecMovesLines(s: State)
    requires s.host.Exec?
    ensures var s' := ExecNext(s, s.host.cmd);
            && InLine(s) == [s.host.cmd] + InLine(s')
            && OutLine(s') == OutLine(s) + s'.host.Answer()
  {
    var q, i, n := s.bufIn.Contents(), s.server.Incoming(), s.inNet;
    assert [s.host.cmd] + q + i + n == [s.host.cmd] + ([] + q + i + n);
    var o := s.got + s.outNet + s.server.Outgoing() + s.bufOut.Contents();
    assert o + [] == o;
  }

  lemma AnswersSnoc(log: seq<Entry>, samples: seq<bool>, e: Entry)
    requires (forall x <- log :: x.tick < |samples|) && e.tick < |samples|
    ensures forall x <- log + [e] :: x.tick < |samples|
    ensures Answers(log + [e], samples)
         == Answers(log, samples) + if e.cmd == 'R' then [Response(samples[e.tick])] else []
  {
    assert (log + [e])[..|log|] == log;
  }

  lemma ExecAnswers(s: State)
    requires HostInv(s) && LogInv(s) && s.host.Exec?
    ensures var s' := ExecNext(s, s.host.cmd);
            && (forall e <- s'.log :: e.tick < |s'.samples|)
            && Answers(s'.log, s'.samples) == Answers(s.log, s.samples) + s'.host.Answer()
  {
    AnswersSnoc(s.log, s.samples, Entry(s.host.cmd, s.tick));
    ExecParts(s, s.host.cmd);
    assert s.host.cmd == 'R' <==> Classify(s.host.cmd).Read?;
  }

  lemma ExecKeepsLocal(s: State)
    requires ServerInv(s) && HostInv(s) && s.host.Exec?
    ensures ServerInv(ExecNext(s, s.host.cmd)) && HostInv(ExecNext(s, s.host.cmd))
  {
    ApplyKeepsTdo(s.curr, s.host.cmd);
  }

  lemma ApplyKeepsTdo(s: Signals, cmd: Byte)
    ensures Apply(s, cmd).tdo == s.tdo
  {
  }

  lemma ExecConserves(s: State)
    requires HostInv(s) && LogInv(s) && Conserved(s) && s.host.Exec?
    ensures var s' := ExecNext(s, s.host.cmd);
            (forall e <- s'.log :: e.tick < |s'.samples|) && Conserved(s')
  {
    ExecParts(s, s.host.cmd);
    CommandsSnoc(s.log, Entry(s.host.cmd, s.tick));
    ExecMovesLines(s);
    ExecAnswers(s);
    Assoc(Commands(s.log), [s.host.cmd], InLine(ExecNext(s, s.host.cmd)));
  }

  lemma ExecKeepsInv(s: State)
    requires Inv(s) && s.host.Exec?
    ensures Inv(ExecNext(s, s.host.cmd))
  {
    ExecKeepsLocal(s);
    ExecKeepsLog(s);
    ExecConserves(s);
  }

  lemma HostKeepsInLine(s: State, tdo: bool)
    requires HostInv(s) && !s.host.Exec?
    ensures InLine(HostNext(s, tdo)) == InLine(s)
  {
    HostMovesQueues(s, tdo);
    if s.host.Publish? {
      TakenFromIn(s.host.cmd, HostNext(s, tdo).bufIn.Contents(), s.server.Incoming(), s.inNet);
    }
  }

  lemma HostKeepsOutLine(s: State, tdo: bool)
    requires HostInv(s) && !s.host.Exec?
    ensures OutLine(HostNext(s, tdo)) == OutLine(s)
  {
    HostMovesQueues(s, tdo);
    if s.host.RespPublish? {
      AddedToOut(s.got + s.outNet + s.server.Outgoing(), s.bufOut.Contents(), s.host.resp);
    }
  }

  lemma TakenFromIn(x: Byte, q: seq<Byte>, i: seq<Byte>, n: seq<Byte>)
    ensures [] + ([x] + q) + i + n == [x] + q + i + n
  {
  }

  lemma AddedToOut(g: seq<Byte>, q: seq<Byte>, x: Byte)
    ensures g + q + [x] == g + (q + [x]) + []
  {
  }

  lemma HostKeepsServerInv(s: State, tdo: bool)
    requires ServerInv(s) && HostInv(s)
    ensures ServerInv(HostNext(s, tdo))
  {
  }

  lemma HostKeepsHostInv(s: State, tdo: bool)
    requires HostInv(s) && !s.host.Exec?
    ensures HostInv(HostNext(s, tdo))
  {
  }

  // What any other step of the host does to the parts the log is about.
  lemma HostParts(s: State, tdo: bool)
    requires !s.host.Exec?
    ensures var s' := HostNext(s, tdo);
            && s'.log == s.log && s'.sent == s.sent
            && (if s.host.Idle? then
                  && s'.curr == s.curr.(tdo := tdo) && s'.samples == s.samples + [tdo]
                  && s'.tick == |s.samples| && BeforeExec(s'.host)
                else
                  && s'.curr == s.curr && s'.samples == s.samples && s'.tick == s.tick
                  && (BeforeExec(s'.host) ==> BeforeExec(s.host)))
  {
  }

  lemma TicksLoosen(log: seq<Entry>, bound: nat, bound': nat)
    requires Ticks(log, bound) && bound <= bound'
    ensures Ticks(log, bound')
  {
  }

  lemma HostKeepsLogInv(s: State, tdo: bool)
    requires LogInv(s) && !s.host.Exec?
    ensures LogInv(HostNext(s, tdo))
  {
    HostParts(s, tdo);
    var s' := HostNext(s, tdo);
    TicksLoosen(s.log, |s.samples| - if BeforeExec(s.host) then 1 else 0,
                |s'.samples| - if BeforeExec(s'.host) then 1 else 0);
  }

  lemma HostConserves(s: State, tdo: bool)
    requires HostInv(s) && LogInv(s) && Conserved(s) && !s.host.Exec?
    ensures LogInv(HostNext(s, tdo)) && Conserved(HostNext(s, tdo))
  {
    HostKeepsLogInv(s, tdo);
    HostKeepsInLine(s, tdo);
    HostKeepsOutLine(s, tdo);
    if s.host.Idle? {
      AnswersIgnoreLaterTicks(s.log, s.samples, tdo);
    }
  }

  lemma HostKeepsInv(s: State, tdo: bool)
    requires Inv(s)
    ensures Inv(HostNext(s, tdo))
  {
    if s.host.Exec? {
      ExecKeepsInv(s);
    } else {
      HostKeepsServerInv(s, tdo);
      HostKeepsHostInv(s, tdo);
      HostConserves(s, tdo);
    }
  }

  lemma ServerKeepsLogs(s: State, ok: bool)
    ensures var s' := ServerNext(s, ok);
            s'.sent == s.sent && s'.host == s.host && s'.curr == s.curr && s'.pins == s.pins &&
            s'.tick == s.tick && s'.samples == s.samples && s'.log == s.log
  {
  }

  lemma ServerKeepsAll(s: State, ok: bool)
    requires Inv(s)
    ensures Inv(ServerNext(s, ok))
  {
    ServerKeepsLogs(s, ok);
    ServerKeepsInv(s, ok);
    ServerKeepsInLine(s, ok);
    ServerKeepsOutLine(s, ok);
  }

  lemma ClientKeepsInv(s: State, e: Event)
    requires Inv(s) && (e.ClientWrite? || e.ClientRead?)
    ensures Inv(Next(s, e))
  {
    if e.ClientWrite? {
      var h := s.host.Command() + s.bufIn.Contents() + s.server.Incoming();
      Assoc(h, s.inNet, [e.b]);
      Assoc(Commands(s.log), InLine(s), [e.b]);
    } else if s.outNet != [] {
      assert s.got + s.outNet == s.got + [s.outNet[0]] + s.outNet[1..];
    }
  }

  /** Every step of either thread or of the client keeps the invariant. */
  lemma NextKeepsInv(s: State, e: Event)
    requires Inv(s)
    ensures Inv(Next(s, e))
  {
    if !s.host.Stopped? {
      match e
      case ClientWrite(_) => ClientKeepsInv(s, e);
      case ClientRead => ClientKeepsInv(s, e);
      case ServerStep(ok) => ServerKeepsAll(s, ok);
      case HostStep(tdo) => HostKeepsInv(s, tdo);
    }
  }

  // ---------- Main results ----------

  function Run(es: seq<Event>): State {
    if es == [] then INIT else Next(Run(es[..|es| - 1]), es[|es| - 1])
  }

  lemma {:induction false} RunInv(es: seq<Event>)
    ensures Inv(Run(es))
  {
    if es == [] {
      InitInv();
    } else {
      RunInv(es[..|es| - 1]);
      NextKeepsInv(Run(es[..|es| - 1]), es[|es| - 1]);
    }
  }

  /** Each ring is a queue of at most 1023 bytes: a step leaves it alone, or it is the publish of
      its producer, which appends the byte in hand, or the publish of its consumer, which drops
      the byte the consumer loaded. */
  lemma RingsRefineQueues(s: State, e: Event)
    requires Inv(s)
    ensures Inv(Next(s, e))
    ensures var q, q' := s.bufIn.Contents(), Next(s, e).bufIn.Contents();
            || q' == q
            || (e.ServerStep? && s.server.InPublish? && q' == q + [s.server.x])
            || (e.HostStep? && s.host.Publish? && q == [s.host.cmd] + q')
    ensures var q, q' := s.bufOut.Contents(), Next(s, e).bufOut.Contents();
            || q' == q
            || (e.HostStep? && s.host.RespPublish? && q' == q + [s.host.resp])
            || (e.ServerStep? && s.server.OutPublish? && q == [s.server.x] + q')
  {
    NextKeepsInv(s, e);
    if !s.host.Stopped? && e.ServerStep? {
      ServerMovesQueues(s, e.sendOk);
    } else if !s.host.Stopped? && e.HostStep? {
      HostMovesQueues(s, e.tdo);
    }
  }

  /** In every run: the commands executed are the first bytes the client sent, the pins are the
      fold of the decoder over them, and the client has read a prefix of the answers they owe. */
  lemma EndToEndOrder(es: seq<Event>)
    ensures Inv(Run(es))
    ensures var s := Run(es); var k := |s.log|;
            && k <= |s.sent| && Commands(s.log) == s.sent[..k]
            && s.curr == Fold(s.sent[..k]).(tdo := s.curr.tdo)
            && (s.host.Idle? ==> s.pins == s.curr)
            && s.got <= Answers(s.log, s.samples)
  {
    var s := Run(es);
    RunInv(es);
    ExecutedIsPrefix(s);
    ReadIsPrefix(s);
  }

  lemma ExecutedIsPrefix(s: State)
    requires Inv(s)
    ensures |s.log| <= |s.sent| && Commands(s.log) == s.sent[..|s.log|]
  {
  }

  lemma ReadIsPrefix(s: State)
    requires Inv(s)
    ensures s.got <= Answers(s.log, s.samples)
  {
  }

  // The position in a log of its i-th read command.
  function NthRead(log: seq<Entry>, i: nat): (j: nat)
    requires i < Reads(Commands(log))
    ensures j < |log| && log[j].cmd == 'R'
    ensures Reads(Commands(log[..j])) == i
  {
    var front := log[..|log| - 1];
    assert Commands(log)[..|log| - 1] == Commands(front);
    if i < Reads(Commands(front)) then
      var j := NthRead(front, i);
      assert log[..j] == front[..j];
      j
    else |log| - 1
  }

  lemma {:induction false} AnswerAt(log: seq<Entry>, samples: seq<bool>, i: nat)
    requires forall e <- log :: e.tick < |samples|
    ensures |Answers(log, samples)| == Reads(Commands(log))
    ensures i < Reads(Commands(log)) ==>
              Answers(log, samples)[i] == Response(samples[log[NthRead(log, i)].tick])
  {
    if log != [] {
      var front := log[..|log| - 1];
      assert Commands(log)[..|log| - 1] == Commands(front);
      AnswerAt(front, samples, i);
    }
  }

  /** The i-th byte the client reads is the tdo of the very tick that consumed its i-th 'R'. */
  lemma ClientReadsItsTick(es: seq<Event>, i: nat)
    requires i < |Run(es).got|
    ensures Inv(Run(es))
    ensures var s := Run(es);
            && i < Reads(Commands(s.log))
            && var j := NthRead(s.log, i);
               j < |s.sent| && s.log[j].tick < |s.samples|
               && s.sent[j] == 'R' && Reads(s.sent[..j]) == i
               && s.got[i] == if s.samples[s.log[j].tick] then '1' else '0'
  {
    var s := Run(es);
    RunInv(es);
    EndToEndOrder(es);
    AnswerAt(s.log, s.samples, i);
    ReadIsSent(s.log, s.sent, i);
  }

  lemma ReadIsSent(log: seq<Entry>, sent: seq<Byte>, i: nat)
    requires Commands(log) <= sent && i < Reads(Commands(log))
    ensures var j := NthRead(log, i); sent[j] == 'R' && Reads(sent[..j]) == i
  {
    var j := NthRead(log, i);
    assert Commands(log)[j] == sent[j];
    assert Commands(log[..j]) == sent[..j];
  }
}
