/** The remote_bitbang command interpreter of jtagdpi.c. */
module JtagDpi {
  import opened RingBuffer

  datatype Signals = Signals(tck: bool, tms: bool, tdi: bool, tdo: bool, trstN: bool, srstN: bool)

  // What reset_jtag_signals leaves: everything low but srst_n.
  const UNPLUGGED := Signals(false, false, false, false, false, true)

  datatype Action = Write | Reset | Read | Blink | Quit | Violation

  function Classify(cmd: Byte): Action {
    if '0' <= cmd <= '7' then Write
    else if 'r' <= cmd <= 'u' then Reset
    else if cmd == 'R' then Read
    else if cmd == 'B' || cmd == 'b' then Blink
    else if cmd == 'Q' then Quit
    else Violation
  }

  // The bytes of the protocol after which the host goes on.
  predicate Proceeds(b: Byte) {
    || b == '0' || b == '1' || b == '2' || b == '3' || b == '4' || b == '5' || b == '6' || b == '7'
    || b == 'r' || b == 's' || b == 't' || b == 'u' || b == 'R' || b == 'B' || b == 'b'
  }

  // (v >> k) & 1
  predicate BitOf(v: nat, k: nat)
    requires k < 3
  {
    match k
    case 0 => v % 2 == 1
    case 1 => v / 2 % 2 == 1
    case _ => v / 4 % 2 == 1
  }

  function Apply(s: Signals, cmd: Byte): Signals {
    match Classify(cmd)
    case Write =>
      var v := cmd as int - '0' as int;
      s.(tdi := BitOf(v, 0), tms := BitOf(v, 1), tck := BitOf(v, 2))
    case Reset =>
      var v := cmd as int - 'r' as int;
      s.(srstN := !BitOf(v, 0), trstN := !BitOf(v, 1))
    case _ => s
  }

  function Response(tdo: bool): Byte {
    if tdo then '1' else '0'
  }

  // The encoder a client runs, from the remote_bitbang description.
  function EncodeWrite(tck: bool, tms: bool, tdi: bool): Byte {
    match (tck, tms, tdi)
    case (false, false, false) => '0'
    case (false, false, true) => '1'
    case (false, true, false) => '2'
    case (false, true, true) => '3'
    case (true, false, false) => '4'
    case (true, false, true) => '5'
    case (true, true, false) => '6'
    case (true, true, true) => '7'
  }

  function EncodeReset(trst: bool, srst: bool): Byte {
    match (trst, srst)
    case (false, false) => 'r'
    case (false, true) => 's'
    case (true, false) => 't'
    case (true, true) => 'u'
  }

  lemma WriteMeaning(s: Signals, tck: bool, tms: bool, tdi: bool)
    ensures Apply(s, EncodeWrite(tck, tms, tdi)) == s.(tck := tck, tms := tms, tdi := tdi)
  {
  }

  lemma ResetMeaning(s: Signals, trst: bool, srst: bool)
    ensures Apply(s, EncodeReset(trst, srst)) == s.(trstN := !trst, srstN := !srst)
  {
  }

  lemma Encoded(cmd: Byte)
    ensures Classify(cmd).Write? ==>
              var v := cmd as int - '0' as int; cmd == EncodeWrite(BitOf(v, 2), BitOf(v, 1), BitOf(v, 0))
    ensures Classify(cmd).Reset? ==>
              var v := cmd as int - 'r' as int; cmd == EncodeReset(BitOf(v, 1), BitOf(v, 0))
  {
  }

  /** A byte moves the pins exactly when a client's encoder could have produced it, and then to
      the encoded levels, the resets being active low on the pins. */
  lemma BitbangMeaning(s: Signals, cmd: Byte)
    ensures forall tck, tms, tdi :: cmd == EncodeWrite(tck, tms, tdi) ==>
              Apply(s, cmd) == s.(tck := tck, tms := tms, tdi := tdi)
    ensures forall trst, srst :: cmd == EncodeReset(trst, srst) ==>
              Apply(s, cmd) == s.(trstN := !trst, srstN := !srst)
    ensures ((forall tck, tms, tdi :: cmd != EncodeWrite(tck, tms, tdi)) &&
             (forall trst, srst :: cmd != EncodeReset(trst, srst))) ==> Apply(s, cmd) == s
  {
    Encoded(cmd);
    forall tck, tms, tdi | cmd == EncodeWrite(tck, tms, tdi)
      ensures Apply(s, cmd) == s.(tck := tck, tms := tms, tdi := tdi)
    {
      WriteMeaning(s, tck, tms, tdi);
    }
    forall trst, srst | cmd == EncodeReset(trst, srst)
      ensures Apply(s, cmd) == s.(trstN := !trst, srstN := !srst)
    {
      ResetMeaning(s, trst, srst);
    }
  }

  // How a call of jtagdpi_tick ends. Spinning is the loop of tcp_buffer_put_byte on a full buf_out.
  datatype TickEnd = Returned | Spinning(resp: Byte) | ClientClosed | Exited

  class JtagContext {
    var curr: Signals
    const bufIn: TcpBuf
    const bufOut: TcpBuf

    ghost predicate Valid()
      reads this, bufIn, bufOut
    {
      bufIn.Valid() && bufOut.Valid() && bufIn != bufOut && bufIn.buf != bufOut.buf
    }

    constructor ()
      ensures Valid() && curr == UNPLUGGED == Signals(false, false, false, false, false, true)
      ensures bufIn.View().Contents() == [] && bufOut.View().Contents() == []
      ensures fresh(bufIn) && fresh(bufOut) && fresh(bufIn.buf) && fresh(bufOut.buf)
    {
      bufIn := new TcpBuf();
      bufOut := new TcpBuf();
      curr := UNPLUGGED;
    }

    // The parsing half of update_jtag_signals, and the answer to a read command.
    method Execute(cmd: Byte) returns (end: TickEnd)
      requires Valid()
      modifies this`curr, bufOut`wptr, bufOut.buf
      ensures Valid() && bufIn.View() == old(bufIn.View())
      ensures curr == Apply(old(curr), cmd)
      ensures end == ClientClosed <==> cmd == 'Q'
      ensures end == ClientClosed <==> Classify(cmd) == Quit
      ensures end == Exited <==> !Proceeds(cmd) && cmd != 'Q'
      ensures end == Exited <==> Classify(cmd) == Violation
      ensures cmd == 'R' ==>
                end == if |old(bufOut.View().Contents())| < BUFSIZE_BYTE - 1 then Returned
                       else Spinning(Response(curr.tdo))
      ensures bufOut.View().Contents() ==
              old(bufOut.View().Contents()) + if cmd == 'R' && end == Returned then [Response(curr.tdo)] else []
    {
      end := Returned;
      if '0' <= cmd <= '7' {
        var bit := cmd as int - '0' as int;
        curr := curr.(tdi := BitOf(bit, 0));
        curr := curr.(tms := BitOf(bit, 1));
        curr := curr.(tck := BitOf(bit, 2));
      } else if 'r' <= cmd <= 'u' {
        var bit := cmd as int - 'r' as int;
        curr := curr.(srstN := !BitOf(bit, 0));
        curr := curr.(trstN := !BitOf(bit, 1));
      } else if cmd == 'R' {
        var done := bufOut.TryPutByte(Response(curr.tdo));
        if !done {
          end := Spinning(Response(curr.tdo));
        }
      } else if cmd == 'B' || cmd == 'b' {
      } else if cmd == 'Q' {
        end := ClientClosed;
      } else {
        end := Exited;
      }
    }

    method Tick(tdo: bool) returns (ghost cmd: seq<Byte>, end: TickEnd)
      requires Valid()
      modifies this`curr, bufIn`rptr, bufOut`wptr, bufOut.buf
      ensures Valid() && curr.tdo == tdo
      ensures |cmd| <= 1 && (cmd == [] <==> old(bufIn.View().Contents()) == [])
      ensures old(bufIn.View().Contents()) == cmd + bufIn.View().Contents()
      ensures curr == if cmd == [] then old(curr).(tdo := tdo) else Apply(old(curr).(tdo := tdo), cmd[0])
      ensures end == ClientClosed <==> cmd == ['Q']
      ensures end == Exited <==> cmd != [] && !Proceeds(cmd[0]) && cmd[0] != 'Q'
      ensures cmd == ['R'] ==>
                end == if |old(bufOut.View().Contents())| < BUFSIZE_BYTE - 1 then Returned
                       else Spinning(Response(tdo))
      ensures bufOut.View().Contents() ==
              old(bufOut.View().Contents()) + if cmd == ['R'] && end == Returned then [Response(tdo)] else []
    {
      curr := curr.(tdo := tdo);
      var ok, c := bufIn.GetByte();
      if !ok {
        return [], Returned;
      }
      cmd := [c];
      end := Execute(c);
    }
  }
}
