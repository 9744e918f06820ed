/** Which commands end a session, and that no others do. */
module BridgeStop {
  import opened RingBuffer
  import opened JtagDpi
  import opened Bridge

  predicate EndsSession(log: seq<Entry>) {
    log != [] && !Proceeds(log[|log| - 1].cmd)
  }

  lemma ExecStops(s: State, cmd: Byte)
    ensures ExecNext(s, cmd).host.Stopped? <==> !Proceeds(cmd)
    ensures ExecNext(s, cmd).log == s.log + [Entry(cmd, s.tick)]
  {
  }

  lemma OthersDoNotStop(s: State, tdo: bool)
    requires !s.host.Exec? && !s.host.Stopped?
    ensures !HostNext(s, tdo).host.Stopped? && HostNext(s, tdo).log == s.log
  {
  }

  lemma StepStops(s: State, e: Event)
    requires s.host.Stopped? <==> EndsSession(s.log)
    ensures Next(s, e).host.Stopped? <==> EndsSession(Next(s, e).log)
  {
    if !s.host.Stopped? {
      match e
      case HostStep(tdo) =>
        if s.host.Exec? {
          ExecStops(s, s.host.cmd);
        } else {
          OthersDoNotStop(s, tdo);
        }
      case ServerStep(ok) => ServerKeepsLogs(s, ok);
      case _ =>
    }
  }

  /** In every run the host has stopped if and only if the last command it executed is none of the
      bytes that write, reset, read or blink. */
  lemma {:induction false} StopsExactly(es: seq<Event>)
    ensures Run(es).host.Stopped? <==> EndsSession(Run(es).log)
  {
    if es != [] {
      StopsExactly(es[..|es| - 1]);
      StepStops(Run(es[..|es| - 1]), es[|es| - 1]);
    }
  }

  // A client that sends only bytes after which the host goes on.
  ghost predicate Polite(sent: seq<Byte>) {
    forall i :: 0 <= i < |sent| ==> Proceeds(sent[i])
  }

  lemma PoliteNeverEnds(s: State)
    requires Inv(s) && Polite(s.sent)
    ensures !EndsSession(s.log)
  {
    ExecutedIsPrefix(s);
    if s.log != [] {
      assert Commands(s.log)[|s.log| - 1] == s.sent[|s.log| - 1];
    }
  }

  /** So a client that sends nothing else is never dropped. */
  lemma PoliteClientIsServed(es: seq<Event>)
    requires Polite(Run(es).sent)
    ensures !Run(es).host.Stopped?
  {
    RunInv(es);
    StopsExactly(es);
    PoliteNeverEnds(Run(es));
  }

  // The tdo values that the ticks of a run began with.
  function Offered(es: seq<Event>): seq<bool> {
    if es == [] then []
    else
      var front, e := es[..|es| - 1], es[|es| - 1];
      Offered(front) + if e.HostStep? && Run(front).host.Idle? then [e.tdo] else []
  }

  lemma StepSamples(s: State, e: Event)
    ensures Next(s, e).samples == s.samples + if e.HostStep? && s.host.Idle? then [e.tdo] else []
  {
    assert s.samples + [] == s.samples;
  }

  /** The samples of a run are the tdo values its ticks began with, one for each tick. */
  lemma {:induction false} SamplesAreOffered(es: seq<Event>)
    ensures Run(es).samples == Offered(es)
  {
    if es != [] {
      SamplesAreOffered(es[..|es| - 1]);
      StepSamples(Run(es[..|es| - 1]), es[|es| - 1]);
    }
  }
}
