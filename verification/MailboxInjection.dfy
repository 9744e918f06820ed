/** Bit-flip injection on the write port of the mailbox RAM. */
module MailboxInjection {
  import opened Ecc
  import opened EccCode
  import opened Wrappers

  // ---------- Mask generators ----------

  function ShiftLeft(x: Bits, n: nat): (z: Bits)
    ensures |z| == |x|
  {
    seq(|x|, i requires 0 <= i < |x| => i >= n && x[i - n])
  }

  function Or(x: Bits, y: Bits): (z: Bits)
    requires |x| == |y|
    ensures |z| == |x|
  {
    seq(|x|, i requires 0 <= i < |x| => x[i] || y[i])
  }

  // 2 << (r % 37) | double
  function GetBitflipMask(r: nat, double: bool): (m: Bits)
    ensures |m| == CODE_WIDTH
  {
    Or(ShiftLeft(Unit(CODE_WIDTH, 1), r % (CODE_WIDTH - 2)),
       if double then Unit(CODE_WIDTH, 0) else Zeros(CODE_WIDTH))
  }

  // The $countones constraint of the class generator.
  predicate Constrained(m: Bits, double: bool) {
    |m| == CODE_WIDTH && Weight(m) == if double then 2 else 1
  }

  lemma {:induction false} UnitWeight(n: nat, i: nat)
    requires i < n
    ensures Weight(Unit(n, i)) == 1
  {
    if i < n - 1 {
      assert Unit(n, i)[..n - 1] == Unit(n - 1, i);
      UnitWeight(n - 1, i);
    } else {
      assert Unit(n, i)[..n - 1] == Zeros(n - 1);
      WeightZero(Zeros(n - 1));
    }
  }

  lemma {:induction false} TwoUnitsWeight(n: nat, i: nat, j: nat)
    requires i < j < n
    ensures Weight(Xor(Unit(n, i), Unit(n, j))) == 2
  {
    var x := Xor(Unit(n, i), Unit(n, j));
    if j < n - 1 {
      assert x[..n - 1] == Xor(Unit(n - 1, i), Unit(n - 1, j));
      TwoUnitsWeight(n - 1, i, j);
    } else {
      assert x[..n - 1] == Unit(n - 1, i);
      UnitWeight(n - 1, i);
    }
  }

  /** The shift-and-or generator returns exactly one, or two, set bits, and reaches every position
      but the first and the last: the overall parity bit is never flipped. */
  lemma GeneratorMeetsConstraint(r: nat, double: bool)
    ensures Constrained(GetBitflipMask(r, double), double)
    ensures forall i :: 0 <= i < CODE_WIDTH ==>
              GetBitflipMask(r, double)[i] == (i == 1 + r % 37 || (i == 0 && double))
  {
    var i := 1 + r % 37;
    var m := GetBitflipMask(r, double);
    if double {
      TwoUnitsWeight(CODE_WIDTH, 0, i);
      assert m == Xor(Unit(CODE_WIDTH, 0), Unit(CODE_WIDTH, i));
    } else {
      UnitWeight(CODE_WIDTH, i);
      assert m == Unit(CODE_WIDTH, i);
    }
  }

  // ---------- The injector ----------

  const SINGLE: nat := 0xfd
  const DOUBLE: nat := 0xfe
  const DISABLE: nat := 0xe4

  datatype Mode = Off | Single | Double

  datatype Write = Write(addr: nat, data: Bits)

  datatype Event =
    | Negedge(reset: bool, command: Option<nat>)
    | Posedge(write: Option<Write>, flip: bool, mask: Bits)

  // words is what the writer meant each written location to hold.
  datatype State = State(mode: Mode, mask: Bits, ram: map<nat, Bits>, words: map<nat, Bits>)

  function PowerUp(): State {
    State(Off, Zeros(CODE_WIDTH), map[], map[])
  }

  function NextMode(mode: Mode, reset: bool, command: Option<nat>): Mode {
    if reset then Off
    else match command
      case None => mode
      case Some(byte) =>
        if byte == SINGLE then Single else if byte == DOUBLE then Double
        else if byte == DISABLE then Off else mode
  }

  // The RAM stores what the mask register flips now; the register then takes the next mask.
  function Clocked(s: State, write: Option<Write>, flip: bool, mask: Bits): State
    requires |s.mask| == CODE_WIDTH
    requires write.Some? ==> |write.value.data| == DATA_WIDTH
  {
    var stored := if write.None? then s
                  else s.(ram := s.ram[write.value.addr := Xor(Codeword(write.value.data), s.mask)],
                          words := s.words[write.value.addr := write.value.data]);
    if s.mode == Off then stored.(mask := Zeros(CODE_WIDTH))
    else if write.Some? then stored.(mask := if flip then mask else Zeros(CODE_WIDTH))
    else stored
  }

  predicate Possible(s: State, e: Event) {
    match e
    case Negedge(_, _) => true
    case Posedge(write, flip, mask) =>
      (write.Some? ==> |write.value.data| == DATA_WIDTH) &&
      (flip && s.mode != Off ==> Constrained(mask, s.mode == Double))
  }

  function Next(s: State, e: Event): State
    requires |s.mask| == CODE_WIDTH && Possible(s, e)
  {
    match e
    case Negedge(reset, command) => s.(mode := NextMode(s.mode, reset, command))
    case Posedge(write, flip, mask) => Clocked(s, write, flip, mask)
  }

  // The modes in force when the mask register was last loaded with a flip.
  datatype Origin = NoFlip | SingleFlip | DoubleFlip

  ghost predicate Run(s: State, o: Origin, es: seq<Event>)
    decreases |es|
  {
    if es == [] then s == PowerUp() && o == NoFlip
    else
      var last := es[|es| - 1];
      exists p: State, q: Origin :: Run(p, q, es[..|es| - 1]) && Follows(p, q, last, s, o)
  }

  ghost predicate Follows(p: State, q: Origin, e: Event, s: State, o: Origin) {
    |p.mask| == CODE_WIDTH && Possible(p, e) && s == Next(p, e) && o == NextOrigin(q, p.mode, e)
  }

  function NextOrigin(o: Origin, mode: Mode, e: Event): Origin {
    match e
    case Negedge(_, _) => o
    case Posedge(write, flip, _) =>
      if mode == Off then NoFlip
      else if write.None? then o
      else if !flip then NoFlip
      else if mode == Single then SingleFlip else DoubleFlip
  }

  function Flips(o: Origin): nat {
    match o case NoFlip => 0 case SingleFlip => 1 case DoubleFlip => 2
  }

  predicate Harmless(c: Bits, d: Bits) {
    |c| == CODE_WIDTH && Decode(c) in {Clean(d), Corrected(d), Uncorrectable}
  }

  ghost predicate Inv(s: State, o: Origin) {
    |s.mask| == CODE_WIDTH && Weight(s.mask) == Flips(o) && s.ram.Keys == s.words.Keys &&
    forall a :: a in s.ram ==> Harmless(s.ram[a], s.words[a])
  }

  // ---------- The mode, from the history ----------

  predicate Commands(e: Event, byte: nat) {
    e.Negedge? && !e.reset && e.command == Some(byte)
  }

  // A reset or one of the three commands.
  predicate SetsMode(e: Event) {
    e.Negedge? && (e.reset || e.command == Some(0xfd) || e.command == Some(0xfe) || e.command == Some(0xe4))
  }

  ghost predicate LastSet(es: seq<Event>, byte: nat) {
    exists i :: 0 <= i < |es| && Commands(es[i], byte) && forall j :: i < j < |es| ==> !SetsMode(es[j])
  }

  lemma LastSetSnoc(es: seq<Event>, byte: nat)
    requires es != [] && (byte == 0xfd || byte == 0xfe)
    ensures var front, e := es[..|es| - 1], es[|es| - 1];
            LastSet(es, byte) <==> Commands(e, byte) || (!SetsMode(e) && LastSet(front, byte))
  {
    var n := |es| - 1;
    var front, e := es[..n], es[n];
    if Commands(e, byte) {
      assert Commands(es[n], byte);
    } else if !SetsMode(e) && LastSet(front, byte) {
      var i :| 0 <= i < n && Commands(front[i], byte) && forall j :: i < j < n ==> !SetsMode(front[j]);
      assert Commands(es[i], byte);
      assert forall j :: i < j < |es| ==> !SetsMode(es[j]);
    }
    if LastSet(es, byte) && !Commands(e, byte) {
      var i :| 0 <= i < |es| && Commands(es[i], byte) && forall j :: i < j < |es| ==> !SetsMode(es[j]);
      assert i < n && Commands(front[i], byte);
      assert forall j :: i < j < n ==> !SetsMode(front[j]);
    }
  }

  /** In every run the mode is single or double exactly if the last reset or command was the one that
      sets it. */
  lemma {:induction false} ModeExactly(s: State, o: Origin, es: seq<Event>)
    requires Run(s, o, es)
    ensures s.mode == Single <==> LastSet(es, 0xfd)
    ensures s.mode == Double <==> LastSet(es, 0xfe)
    decreases |es|
  {
    if es != [] {
      var last := es[|es| - 1];
      var p: State, q: Origin :| Run(p, q, es[..|es| - 1]) && Follows(p, q, last, s, o);
      ModeExactly(p, q, es[..|es| - 1]);
      LastSetSnoc(es, 0xfd);
      LastSetSnoc(es, 0xfe);
    }
  }

  // ---------- What is stored ----------

  lemma WriteIsHarmless(d: Bits, mask: Bits)
    requires |d| == DATA_WIDTH && |mask| == CODE_WIDTH && Weight(mask) <= 2
    ensures Harmless(Xor(Codeword(d), mask), d)
    ensures Weight(mask) < 2 ==> Decode(Xor(Codeword(d), mask)) != Uncorrectable
  {
    FlipsDecode(d, mask);
  }

  lemma StepKeepsInv(p: State, q: Origin, e: Event, s: State, o: Origin)
    requires Inv(p, q) && Follows(p, q, e, s, o)
    ensures Inv(s, o)
  {
    WeightZero(Zeros(CODE_WIDTH));
    if e.Posedge? && e.write.Some? {
      WriteIsHarmless(e.write.value.data, p.mask);
    }
  }

  lemma {:induction false} RunInv(s: State, o: Origin, es: seq<Event>)
    requires Run(s, o, es)
    ensures Inv(s, o)
    decreases |es|
  {
    if es == [] {
      WeightZero(Zeros(CODE_WIDTH));
    } else {
      var last := es[|es| - 1];
      var p: State, q: Origin :| Run(p, q, es[..|es| - 1]) && Follows(p, q, last, s, o);
      RunInv(p, q, es[..|es| - 1]);
      StepKeepsInv(p, q, last, s, o);
    }
  }

  /** In every run every location decodes to the word written there or is flagged: no injected
      error is ever miscorrected. */
  lemma NeverMiscorrected(s: State, o: Origin, es: seq<Event>, a: nat)
    requires Run(s, o, es) && a in s.words
    ensures a in s.ram && |s.ram[a]| == CODE_WIDTH
    ensures Decode(s.ram[a]) in {Clean(s.words[a]), Corrected(s.words[a]), Uncorrectable}
  {
    RunInv(s, o, es);
  }

  /** What the next write stores: the flips of the mode at the last load of the mask register, which
      need not be the mode at the write. */
  lemma WriteDecodes(s: State, o: Origin, es: seq<Event>, w: Write, flip: bool, mask: Bits)
    requires Run(s, o, es) && |w.data| == DATA_WIDTH
    ensures |s.mask| == CODE_WIDTH
    ensures Decode(Clocked(s, Some(w), flip, mask).ram[w.addr]) ==
            match o case NoFlip => Clean(w.data) case SingleFlip => Corrected(w.data) case DoubleFlip => Uncorrectable
  {
    RunInv(s, o, es);
    FlipsDecode(w.data, s.mask);
  }

  lemma OneMoreEvent(p: State, q: Origin, es: seq<Event>, e: Event, s: State, o: Origin)
    requires Run(p, q, es) && Follows(p, q, e, s, o)
    ensures Run(s, o, es + [e])
  {
    var all := es + [e];
    assert all[..|all| - 1] == es;
    assert Run(p, q, all[..|all| - 1]) && Follows(p, q, all[|all| - 1], s, o);
  }

  /** The mode at the write does not decide: a run that ends with injection set to single errors, or
      switched off, and whose next write, of any word, is lost to an older double flip. */
  lemma StaleMask(command: nat, w: Write, flip: bool, mask: Bits) returns (s: State, es: seq<Event>)
    requires (command == SINGLE || command == DISABLE) && |w.data| == DATA_WIDTH
    ensures Run(s, DoubleFlip, es) && s.mode == (if command == SINGLE then Single else Off)
    ensures |s.mask| == CODE_WIDTH
    ensures Decode(Clocked(s, Some(w), flip, mask).ram[w.addr]) == Uncorrectable
  {
    var double := GetBitflipMask(0, true);
    GeneratorMeetsConstraint(0, true);
    var e1, e2, e3 := Negedge(false, Some(DOUBLE)), Posedge(Some(w), true, double), Negedge(false, Some(command));
    var s1 := Next(PowerUp(), e1);
    var s2 := Next(s1, e2);
    s := Next(s2, e3);
    assert Run(PowerUp(), NoFlip, []);
    OneMoreEvent(PowerUp(), NoFlip, [], e1, s1, NoFlip);
    OneMoreEvent(s1, NoFlip, [] + [e1], e2, s2, DoubleFlip);
    OneMoreEvent(s2, DoubleFlip, [] + [e1] + [e2], e3, s, DoubleFlip);
    es := [] + [e1] + [e2] + [e3];
    WriteDecodes(s, DoubleFlip, es, w, flip, mask);
  }

  ghost predicate NoDouble(es: seq<Event>) {
    forall i :: 0 <= i < |es| ==> es[i].Negedge? ==> es[i].command != Some(DOUBLE)
  }

  ghost predicate AllDecode(s: State) {
    s.ram.Keys == s.words.Keys &&
    forall a :: a in s.ram ==> |s.ram[a]| == CODE_WIDTH &&
                               Decode(s.ram[a]) in {Clean(s.words[a]), Corrected(s.words[a])}
  }

  lemma SingleStep(p: State, q: Origin, e: Event, s: State, o: Origin)
    requires Inv(p, q) && Follows(p, q, e, s, o) && AllDecode(p) && p.mode != Double && q != DoubleFlip
    requires e.Negedge? ==> e.command != Some(DOUBLE)
    ensures AllDecode(s) && s.mode != Double && o != DoubleFlip
  {
    if e.Posedge? && e.write.Some? {
      WriteIsHarmless(e.write.value.data, p.mask);
    }
  }

  /** Without a double-bit command the memory never loses a word. */
  lemma {:induction false} SingleModeLosesNothing(s: State, o: Origin, es: seq<Event>)
    requires Run(s, o, es) && NoDouble(es)
    ensures AllDecode(s) && s.mode != Double && o != DoubleFlip
    decreases |es|
  {
    if es != [] {
      var last := es[|es| - 1];
      var p: State, q: Origin :| Run(p, q, es[..|es| - 1]) && Follows(p, q, last, s, o);
      SingleModeLosesNothing(p, q, es[..|es| - 1]);
      RunInv(p, q, es[..|es| - 1]);
      SingleStep(p, q, last, s, o);
    }
  }

  // ---------- The clocked registers ----------

  class Injector {
    var mode: Mode
    var mask: Bits
    var ram: map<nat, Bits>
    ghost var words: map<nat, Bits>

    ghost function View(): State
      reads this
    {
      State(mode, mask, ram, words)
    }

    constructor ()
      ensures View() == PowerUp()
    {
      mode, mask, ram, words := Off, Zeros(CODE_WIDTH), map[], map[];
    }

    method Negedge(reset: bool, command: Option<nat>)
      requires |mask| == CODE_WIDTH
      modifies this
      ensures View() == Next(old(View()), Event.Negedge(reset, command))
    {
      if reset {
        mode := Off;
      } else if command == Some(SINGLE) {
        mode := Single;
      } else if command == Some(DOUBLE) {
        mode := Double;
      } else if command == Some(DISABLE) {
        mode := Off;
      }
    }

    method Posedge(write: Option<Write>, flip: bool, next: Bits)
      requires |mask| == CODE_WIDTH && Possible(View(), Event.Posedge(write, flip, next))
      modifies this
      ensures View() == Next(old(View()), Event.Posedge(write, flip, next))
    {
      if write.Some? {
        var w := write.value;
        ram := ram[w.addr := Xor(Codeword(w.data), mask)];
        words := words[w.addr := w.data];
      }
      if mode == Off {
        mask := Zeros(CODE_WIDTH);
      } else if write.Some? {
        mask := if flip then next else Zeros(CODE_WIDTH);
      }
    }
  }
}
