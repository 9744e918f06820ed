/** The byte ring of tcp_server.c: one producer, one consumer, one slot always unused.
    Ring is the value of a `struct tcp_buf`; TcpBuf is the structure updated in place. */
module RingBuffer {
  const BUFSIZE_BYTE: nat := 1024

  type Byte = c: char | c as int < 256 witness 'R'

  datatype RawRing = Ring(rptr: nat, wptr: nat, buf: seq<Byte>) {
    predicate Valid() {
      rptr < BUFSIZE_BYTE && wptr < BUFSIZE_BYTE && |buf| == BUFSIZE_BYTE
    }

    predicate IsFull() {
      if wptr >= rptr then wptr - rptr == BUFSIZE_BYTE - 1 else rptr - wptr == 1
    }

    predicate IsEmpty() {
      wptr == rptr
    }

    // The four accesses a producer or a consumer makes between two checks.
    function Store(b: Byte): (r: RawRing)
      requires Valid()
      ensures r.Valid()
    {
      this.(buf := buf[wptr := b])
    }

    function PublishWrite(): (r: RawRing)
      ensures Valid() ==> r.Valid()
    {
      this.(wptr := (wptr + 1) % BUFSIZE_BYTE)
    }

    function Load(): Byte
      requires Valid()
    {
      buf[rptr]
    }

    function PublishRead(): (r: RawRing)
      ensures Valid() ==> r.Valid()
    {
      this.(rptr := (rptr + 1) % BUFSIZE_BYTE)
    }

    // The queue the ring stands for: the slots from rptr up to, not including, wptr.
    ghost function Contents(): (q: seq<Byte>)
      requires Valid()
      ensures |q| < BUFSIZE_BYTE
    {
      if rptr <= wptr then buf[rptr..wptr] else buf[rptr..] + buf[..wptr]
    }

    lemma FullAndEmpty()
      requires Valid()
      ensures IsFull() <==> |Contents()| == BUFSIZE_BYTE - 1
      ensures IsEmpty() <==> Contents() == []
    {
      if rptr > wptr {
        assert |Contents()| == BUFSIZE_BYTE - rptr + wptr;
      }
    }

    // A store never touches a slot that holds an unread byte, full or not.
    lemma StoreKeepsQueue(b: Byte)
      requires Valid()
      ensures Store(b).Contents() == Contents()
      ensures Store(b).buf[wptr] == b
    {
      var r := Store(b);
      if rptr <= wptr {
        assert r.buf[rptr..wptr] == buf[rptr..wptr];
      } else {
        assert r.buf[rptr..] == buf[rptr..];
        assert r.buf[..wptr] == buf[..wptr];
      }
    }

    // The publish that takes the write pointer back to slot 0 ...
    lemma WrapAppends()
      requires Valid() && !IsFull() && wptr == BUFSIZE_BYTE - 1
      ensures PublishWrite().Contents() == Contents() + [buf[wptr]]
    {
      assert buf[rptr..] == buf[rptr..wptr] + [buf[wptr]];
      assert PublishWrite().Contents() == buf[rptr..] + buf[..0];
    }

    // ... and any other, in both pointer orders.
    lemma AdvanceAppends()
      requires Valid() && !IsFull() && wptr < BUFSIZE_BYTE - 1
      ensures PublishWrite().Contents() == Contents() + [buf[wptr]]
    {
      if rptr <= wptr {
        assert buf[rptr..wptr + 1] == buf[rptr..wptr] + [buf[wptr]];
      } else {
        assert buf[..wptr + 1] == buf[..wptr] + [buf[wptr]];
      }
    }

    lemma PublishWriteAppends()
      requires Valid() && !IsFull()
      ensures PublishWrite().Contents() == Contents() + [buf[wptr]]
    {
      if wptr == BUFSIZE_BYTE - 1 {
        WrapAppends();
      } else {
        AdvanceAppends();
      }
    }

    lemma PublishReadDropsHead()
      requires Valid() && !IsEmpty()
      ensures Contents() == [Load()] + PublishRead().Contents()
    {
      var r := PublishRead();
      if rptr == BUFSIZE_BYTE - 1 {
        assert buf[rptr..] == [Load()];
        assert r.Contents() == buf[..wptr];
      } else if rptr <= wptr {
        assert r.Contents() == buf[rptr + 1..wptr];
        assert buf[rptr..wptr] == [Load()] + buf[rptr + 1..wptr];
      } else {
        assert r.Contents() == buf[rptr + 1..] + buf[..wptr];
        assert buf[rptr..] == [Load()] + buf[rptr + 1..];
        assert ([Load()] + buf[rptr + 1..]) + buf[..wptr] == [Load()] + (buf[rptr + 1..] + buf[..wptr]);
      }
    }
  }

  function EmptyRing(): (r: RawRing)
    ensures r.Valid() && r.Contents() == []
  {
    Ring(0, 0, seq(BUFSIZE_BYTE, _ => 'R'))
  }

  type Ring = r: RawRing | r.Valid() witness EmptyRing()

  class TcpBuf {
    var rptr: nat
    var wptr: nat
    const buf: array<Byte>

    ghost predicate Valid()
      reads this
    {
      rptr < BUFSIZE_BYTE && wptr < BUFSIZE_BYTE && buf.Length == BUFSIZE_BYTE
    }

    ghost function View(): (r: Ring)
      requires Valid()
      reads this, buf
      ensures r.Valid()
    {
      Ring(rptr, wptr, buf[..])
    }

    constructor ()
      ensures Valid() && fresh(buf) && View().Contents() == []
    {
      rptr, wptr := 0, 0;
      buf := new Byte[BUFSIZE_BYTE];
    }

    method IsFull() returns (full: bool)
      requires Valid()
      ensures full <==> |View().Contents()| == BUFSIZE_BYTE - 1
    {
      View().FullAndEmpty();
      if wptr >= rptr {
        full := wptr - rptr == BUFSIZE_BYTE - 1;
      } else {
        full := rptr - wptr == 1;
      }
    }

    method IsEmpty() returns (empty: bool)
      requires Valid()
      ensures empty <==> View().Contents() == []
    {
      View().FullAndEmpty();
      empty := wptr == rptr;
    }

    // One turn of the loop in tcp_buffer_put_byte; the source repeats it until done.
    method TryPutByte(dat: Byte) returns (done: bool)
      requires Valid()
      modifies this`wptr, buf
      ensures Valid()
      ensures done <==> |old(View().Contents())| < BUFSIZE_BYTE - 1
      ensures View().Contents() == old(View().Contents()) + if done then [dat] else []
    {
      done := false;
      var full := IsFull();
      if !full {
        View().FullAndEmpty();
        View().StoreKeepsQueue(dat);
        buf[wptr] := dat;
        assert View() == old(View()).Store(dat);
        View().PublishWriteAppends();
        wptr := (wptr + 1) % BUFSIZE_BYTE;
        assert View() == old(View()).Store(dat).PublishWrite();
        done := true;
      }
    }

    method GetByte() returns (ok: bool, dat: Byte)
      requires Valid()
      modifies this`rptr
      ensures Valid()
      ensures ok <==> old(View().Contents()) != []
      ensures old(View().Contents()) == (if ok then [dat] else []) + View().Contents()
    {
      ghost var r := View();
      dat := 'R';
      ok := false;
      var empty := IsEmpty();
      if !empty {
        r.FullAndEmpty();
        r.PublishReadDropsHead();
        dat := buf[rptr];
        rptr := (rptr + 1) % BUFSIZE_BYTE;
        assert View() == r.PublishRead();
        ok := true;
      }
    }
  }
}
