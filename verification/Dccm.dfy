/** The banked data memory behind its flat address range: split, preload, signature dump. */
module Dccm {
  import opened Ecc
  import opened EccCode

  const ADDRESSES: nat := 0x1_0000_0000
  const SADR: nat := 0x5000_0000
  const EADR: nat := 0x5000_3fff

  // The three configurations of the number of banks.
  datatype Banks = Two | Four | Eight

  type Byte = b: Bits | |b| == 8 witness Zeros(8)
  type Memory = map<nat, Byte>

  type Cell = (nat, nat)
  type Cells = map<Cell, Bits>

  // ---------- The address split ----------

  // addr[2], addr[3:2] or addr[4:2] is the bank; what is left of addr[13:2] is the index in it.
  function GetDccmBank(banks: Banks, addr: nat): Cell {
    match banks
    case Two => (addr / 4 % 2, addr / 8 % 2048)
    case Four => (addr / 4 % 4, addr / 16 % 1024)
    case Eight => (addr / 4 % 8, addr / 32 % 512)
  }

  function Width(banks: Banks): nat {
    match banks case Two => 2 case Four => 4 case Eight => 8
  }

  function Depth(banks: Banks): nat {
    match banks case Two => 2048 case Four => 1024 case Eight => 512
  }

  predicate InBanks(banks: Banks, c: Cell) {
    c.0 < Width(banks) && c.1 < Depth(banks)
  }

  // The cells bank by bank within each index.
  function Number(banks: Banks, c: Cell): nat {
    c.0 + match banks case Two => 2 * c.1 case Four => 4 * c.1 case Eight => 8 * c.1
  }

  function Address(banks: Banks, c: Cell): nat {
    SADR + 4 * Number(banks, c)
  }

  // The bank is in the bits right above the byte offset, the index above the bank.
  lemma AddressLayout(banks: Banks, c: Cell)
    ensures Address(banks, c) == SADR + 4 * c.0 +
              match banks case Two => 8 * c.1 case Four => 16 * c.1 case Eight => 32 * c.1
  {
  }

  // Quotient and remainder are unique.
  lemma Euclid(x: nat, d: nat, q: nat, r: nat)
    requires x == d * q + r && r < d
    ensures x / d == q && x % d == r
  {
    var e := x / d - q;
    Product(d, e);
    assert d * e == r - x % d;
  }

  lemma Product(d: int, e: int)
    requires d >= 0
    ensures e >= 1 ==> d * e >= d
    ensures e <= -1 ==> d * e <= -d
  {
  }

  lemma SplitTwo(addr: nat, q: nat, index: nat, bank: nat, r: nat)
    requires addr == 16384 * q + 8 * index + 4 * bank + r && index < 2048 && bank < 2 && r < 4
    ensures addr / 4 % 4096 == 2 * index + bank && GetDccmBank(Two, addr) == (bank, index)
  {
    Euclid(addr, 4, 4096 * q + 2 * index + bank, r);
    Euclid(addr / 4, 4096, q, 2 * index + bank);
    Euclid(addr / 4, 2, 2048 * q + index, bank);
    Euclid(addr, 8, 2048 * q + index, 4 * bank + r);
    Euclid(addr / 8, 2048, q, index);
  }

  lemma SplitFour(addr: nat, q: nat, index: nat, bank: nat, r: nat)
    requires addr == 16384 * q + 16 * index + 4 * bank + r && index < 1024 && bank < 4 && r < 4
    ensures addr / 4 % 4096 == 4 * index + bank && GetDccmBank(Four, addr) == (bank, index)
  {
    Euclid(addr, 4, 4096 * q + 4 * index + bank, r);
    Euclid(addr / 4, 4096, q, 4 * index + bank);
    Euclid(addr / 4, 4, 1024 * q + index, bank);
    Euclid(addr, 16, 1024 * q + index, 4 * bank + r);
    Euclid(addr / 16, 1024, q, index);
  }

  lemma SplitEight(addr: nat, q: nat, index: nat, bank: nat, r: nat)
    requires addr == 16384 * q + 32 * index + 4 * bank + r && index < 512 && bank < 8 && r < 4
    ensures addr / 4 % 4096 == 8 * index + bank && GetDccmBank(Eight, addr) == (bank, index)
  {
    Euclid(addr, 4, 4096 * q + 8 * index + bank, r);
    Euclid(addr / 4, 4096, q, 8 * index + bank);
    Euclid(addr / 4, 8, 512 * q + index, bank);
    Euclid(addr, 32, 512 * q + index, 4 * bank + r);
    Euclid(addr / 32, 512, q, index);
  }

  // The number of an address's word in the memory, from its bank and index.
  lemma SplitAddress(banks: Banks, addr: nat)
    ensures var c := GetDccmBank(banks, addr); InBanks(banks, c) && addr / 4 % 4096 == Number(banks, c)
  {
    var q, low, r := addr / 16384, addr % 16384 / 4, addr % 4;
    assert addr == 16384 * q + 4 * low + r;
    match banks
    case Two => SplitTwo(addr, q, low / 2, low % 2, r);
    case Four => SplitFour(addr, q, low / 4, low % 4, r);
    case Eight => SplitEight(addr, q, low / 8, low % 8, r);
  }

  lemma CellNumbersDiffer(banks: Banks, c: Cell, d: Cell)
    requires InBanks(banks, c) && InBanks(banks, d)
    ensures Number(banks, c) < 4096
    ensures Number(banks, c) == Number(banks, d) <==> c == d
  {
  }

  lemma AddressOfWord(n: nat)
    requires n < 4096
    ensures SADR <= SADR + 4 * n <= EADR && (SADR + 4 * n) % 4 == 0
  {
  }

  lemma WordNumber(addr: nat, n: nat)
    requires SADR <= addr <= EADR && n < 4096
    ensures addr / 4 % 4096 == n <==> addr - addr % 4 == SADR + 4 * n
  {
    var low := addr - SADR;
    assert addr / 4 == 4096 * 81920 + low / 4;
  }

  /** The split is a bijection between the word addresses of the memory and its cells. */
  lemma SplitIsBijective(banks: Banks, addr: nat, c: Cell)
    requires SADR <= addr <= EADR && InBanks(banks, c)
    ensures SADR <= Address(banks, c) <= EADR && Address(banks, c) % 4 == 0
    ensures InBanks(banks, GetDccmBank(banks, addr))
    ensures GetDccmBank(banks, addr) == c <==> addr - addr % 4 == Address(banks, c)
  {
    SplitAddress(banks, addr);
    CellNumbersDiffer(banks, c, GetDccmBank(banks, addr));
    AddressOfWord(Number(banks, c));
    WordNumber(addr, Number(banks, c));
  }

  // ---------- The flat image ----------

  function ByteAt(mem: Memory, addr: nat): Byte {
    if addr % ADDRESSES in mem then mem[addr % ADDRESSES] else Zeros(8)
  }

  // {mem[addr+3], mem[addr+2], mem[addr+1], mem[addr]}
  function Word(mem: Memory, addr: nat): (w: Bits)
    ensures |w| == DATA_WIDTH
  {
    ByteAt(mem, addr) + ByteAt(mem, addr + 1) + ByteAt(mem, addr + 2) + ByteAt(mem, addr + 3)
  }

  function Value(x: Bits): nat {
    if x == [] then 0 else (if x[0] then 1 else 0) + 2 * Value(x[1..])
  }

  function Start(mem: Memory): nat {
    Value(Word(mem, 0xffff_fff8))
  }

  function End(mem: Memory): nat {
    Value(Word(mem, 0xffff_fffc))
  }

  /** Words are little-endian: byte addr + j of the image is bits 8j to 8j + 7 of the word. */
  lemma WordBits(mem: Memory, addr: nat, j: nat, b: nat)
    requires j < 4 && b < 8
    ensures Word(mem, addr)[8 * j + b] == ByteAt(mem, addr + j)[b]
  {
  }

  function Power2(n: nat): nat {
    if n == 0 then 1 else 2 * Power2(n - 1)
  }

  lemma {:induction false} ValueOfConcat(x: Bits, y: Bits)
    ensures Value(x + y) == Value(x) + Times(Power2(|x|), Value(y))
  {
    if x == [] {
      assert x + y == y;
    } else {
      assert (x + y)[1..] == x[1..] + y;
      ValueOfConcat(x[1..], y);
      var p := Power2(|x| - 1);
      assert Power2(|x|) == 2 * p;
      DoubleProduct(p, Value(y));
    }
  }

  function Times(p: nat, v: nat): nat {
    p * v
  }

  lemma DoubleProduct(p: nat, v: nat)
    ensures 2 * Times(p, v) == Times(2 * p, v)
  {
  }

  /** The preload takes its first and last address from the last two words of the image. */
  lemma RangeInImage(mem: Memory)
    ensures Start(mem) == Value(ByteAt(mem, 0xffff_fff8)) + 256 * Value(ByteAt(mem, 0xffff_fff9))
                        + 65536 * Value(ByteAt(mem, 0xffff_fffa)) + 16777216 * Value(ByteAt(mem, 0xffff_fffb))
    ensures End(mem) == Value(ByteAt(mem, 0xffff_fffc)) + 256 * Value(ByteAt(mem, 0xffff_fffd))
                      + 65536 * Value(ByteAt(mem, 0xffff_fffe)) + 16777216 * Value(ByteAt(mem, 0xffff_ffff))
  {
    ValueOfBytes(ByteAt(mem, 0xffff_fff8), ByteAt(mem, 0xffff_fff9),
                 ByteAt(mem, 0xffff_fffa), ByteAt(mem, 0xffff_fffb));
    ValueOfBytes(ByteAt(mem, 0xffff_fffc), ByteAt(mem, 0xffff_fffd),
                 ByteAt(mem, 0xffff_fffe), ByteAt(mem, 0xffff_ffff));
  }

  lemma ValueOfBytes(a: Byte, b: Byte, c: Byte, d: Byte)
    ensures Value(a + b + c + d) == Value(a) + 256 * Value(b) + 65536 * Value(c) + 16777216 * Value(d)
  {
    assert Power2(8) == 256;
    ValueOfConcat(a, b + c + d);
    ValueOfConcat(b, c + d);
    ValueOfConcat(c, d);
    assert Times(256, Value(d)) == 256 * Value(d);
    assert Times(256, Value(c + d)) == 256 * Value(c + d);
    assert Times(256, Value(b + c + d)) == 256 * Value(b + c + d);
    assert a + (b + (c + d)) == a + b + c + d && b + (c + d) == b + c + d;
  }

  // ---------- The preload as a function ----------

  type Store = (Cell, Bits)

  function StoreAll(cells: Cells, stores: seq<Store>): Cells {
    if stores == [] then cells
    else
      var last := stores[|stores| - 1];
      StoreAll(cells, stores[..|stores| - 1])[last.0 := last.1]
  }

  // The k-th address of a loop in steps of four.
  function At(from: nat, k: nat): nat {
    from + 4 * k
  }

  // What the preload writes for one address ...
  function StoreAt(banks: Banks, mem: Memory): nat -> Store {
    (addr: nat) => (GetDccmBank(banks, addr), Preloaded(Word(mem, addr)))
  }

  // ... and for a number of addresses in steps of four.
  function Stores(write: nat -> Store, from: nat, steps: nat): (w: seq<Store>)
    ensures |w| == steps
  {
    seq(steps, k requires 0 <= k => write(At(from, k)))
  }

  // Addresses from..to in steps of four.
  function Steps(from: nat, to: int): nat {
    if from > to then 0 else (to - from) / 4 + 1
  }

  function Preload(banks: Banks, cells: Cells, mem: Memory, from: nat, to: int): Cells {
    StoreAll(cells, Stores(StoreAt(banks, mem), from, Steps(from, to)))
  }

  predicate Terminates(from: nat, to: int) {
    to < 0xffff_fffc + from % 4
  }

  // The loop variable after k increments.
  function LoopAddress(from: nat, k: nat): nat {
    At(from, k) % ADDRESSES
  }

  lemma LoopKeepsAlignment(from: nat, k: nat)
    ensures LoopAddress(from, k) <= 0xffff_fffc + from % 4
  {
  }

  function Advance(addr: nat): nat {
    (addr + 4) % ADDRESSES
  }

  lemma StepsCount(from: nat, to: int, k: nat)
    ensures At(from, k) <= to <==> k < Steps(from, to)
  {
  }

  lemma NoWrap(from: nat, to: int, k: nat)
    requires Terminates(from, to) && At(from, k) <= to
    ensures Advance(At(from, k)) == At(from, k + 1)
  {
  }

  /** The preload and dump loops stop exactly if the last 32-bit address with the start's alignment
      lies beyond the end. */
  lemma LoopStopsExactly(from: nat, to: int)
    requires from < ADDRESSES
    ensures (exists k: nat :: LoopAddress(from, k) > to) <==> Terminates(from, to)
  {
    if Terminates(from, to) {
      var k := (ADDRESSES - 1 - from) / 4;
      assert from + 4 * k == 0xffff_fffc + from % 4;
      assert LoopAddress(from, k) > to;
    }
    forall k: nat ensures LoopAddress(from, k) <= 0xffff_fffc + from % 4 {
      LoopKeepsAlignment(from, k);
    }
  }

  lemma OneMoreStore(write: nat -> Store, cells: Cells, from: nat, k: nat)
    ensures var s := write(At(from, k));
            StoreAll(cells, Stores(write, from, k + 1)) == StoreAll(cells, Stores(write, from, k))[s.0 := s.1]
  {
    assert Stores(write, from, k + 1)[..k] == Stores(write, from, k);
  }

  /** The last store to a cell decides what it holds; a cell not stored to keeps its word. */
  lemma {:induction false} LastStoreWins(cells: Cells, stores: seq<Store>, c: Cell, k: nat)
    requires k <= |stores|
    requires forall j :: k <= j < |stores| ==> stores[j].0 != c
    requires if k == 0 then c in cells else stores[k - 1].0 == c
    ensures c in StoreAll(cells, stores)
    ensures StoreAll(cells, stores)[c] == if k == 0 then cells[c] else stores[k - 1].1
  {
    if k < |stores| {
      LastStoreWins(cells, stores[..|stores| - 1], c, k);
    }
  }

  // The same for stores made address by address, whatever they store.
  lemma LastWriteWins(write: nat -> Store, cells: Cells, from: nat, steps: nat, k: nat)
    requires k < steps
    requires forall j :: k < j < steps ==> write(At(from, j)).0 != write(At(from, k)).0
    ensures var s, after := write(At(from, k)), StoreAll(cells, Stores(write, from, steps));
            s.0 in after && after[s.0] == s.1
  {
    var stores := Stores(write, from, steps);
    assert stores[k] == write(At(from, k));
    forall j | k + 1 <= j < |stores| ensures stores[j].0 != stores[k].0 {
      assert stores[j] == write(At(from, j));
    }
    LastStoreWins(cells, stores, stores[k].0, k + 1);
  }

  /** Every cell ends as the codeword of the word at the last preloaded address that maps to it; a
      preload that runs past the memory therefore overwrites it from the start. */
  lemma LastWordWins(banks: Banks, cells: Cells, mem: Memory, from: nat, to: nat, k: nat)
    requires k < Steps(from, to)
    requires forall j :: k < j < Steps(from, to) ==> GetDccmBank(banks, At(from, j)) != GetDccmBank(banks, At(from, k))
    ensures var c := GetDccmBank(banks, At(from, k)); var after := Preload(banks, cells, mem, from, to);
            c in after && after[c] == Codeword(Word(mem, At(from, k)))
  {
    var write := StoreAt(banks, mem);
    StoredAt(banks, mem, At(from, k));
    forall j | k < j < Steps(from, to) ensures write(At(from, j)).0 != write(At(from, k)).0 {
      StoredAt(banks, mem, At(from, j));
    }
    LastWriteWins(write, cells, from, Steps(from, to), k);
  }

  /** ... and a cell no preloaded address maps to keeps what it held. */
  lemma OtherCellsKept(banks: Banks, cells: Cells, mem: Memory, from: nat, to: nat, c: Cell)
    requires c in cells && forall j :: 0 <= j < Steps(from, to) ==> GetDccmBank(banks, At(from, j)) != c
    ensures var after := Preload(banks, cells, mem, from, to); c in after && after[c] == cells[c]
  {
    var stores := Stores(StoreAt(banks, mem), from, Steps(from, to));
    forall j | 0 <= j < |stores| ensures stores[j].0 != c {
      StoredAt(banks, mem, At(from, j));
    }
    LastStoreWins(cells, stores, c, 0);
  }

  lemma StoredAt(banks: Banks, mem: Memory, addr: nat)
    ensures StoreAt(banks, mem)(addr) == (GetDccmBank(banks, addr), Codeword(Word(mem, addr)))
  {
    ZeroShortcut(Word(mem, addr));
  }

  // ---------- The dump ----------

  ghost predicate Complete(banks: Banks, cells: Cells) {
    forall c: Cell :: c in cells <==> InBanks(banks, c)
  }

  predicate Widths(cells: Cells) {
    forall c :: c in cells ==> |cells[c]| == CODE_WIDTH
  }

  // What the dump prints for an address: the data part of the cell, or the word of the flat memory.
  function Line(banks: Banks, cells: Cells, mem: Memory, addr: nat): Bits
    requires Complete(banks, cells) && Widths(cells)
  {
    if SADR <= addr < EADR then
      SplitAddress(banks, addr);
      cells[GetDccmBank(banks, addr)][..DATA_WIDTH]
    else Word(mem, addr)
  }

  // The cell at the address's word, whatever its bank.
  predicate HoldsWord(banks: Banks, c: Cell, addr: nat) {
    InBanks(banks, c) && Address(banks, c) == addr - addr % 4
  }

  // Every address of the memory has its cell.
  lemma HasCell(banks: Banks, addr: nat)
    requires SADR <= addr <= EADR
    ensures HoldsWord(banks, GetDccmBank(banks, addr), addr)
  {
    SplitIsBijective(banks, addr, (0, 0));
    SplitIsBijective(banks, addr, GetDccmBank(banks, addr));
  }

  lemma LineIsCell(banks: Banks, cells: Cells, mem: Memory, addr: nat, c: Cell)
    requires Complete(banks, cells) && Widths(cells) && SADR <= addr < EADR && HoldsWord(banks, c, addr)
    ensures Line(banks, cells, mem, addr) == cells[c][..DATA_WIDTH]
  {
    SplitIsBijective(banks, addr, c);
  }

  function Lines(banks: Banks, cells: Cells, mem: Memory, from: nat, n: nat): (lines: seq<Bits>)
    requires Complete(banks, cells) && Widths(cells)
    ensures |lines| == n
  {
    seq(n, k requires 0 <= k => Line(banks, cells, mem, At(from, k)))
  }

  lemma OneMoreLine(banks: Banks, cells: Cells, mem: Memory, from: nat, n: nat)
    requires Complete(banks, cells) && Widths(cells)
    ensures Lines(banks, cells, mem, from, n + 1)
         == Lines(banks, cells, mem, from, n) + [Line(banks, cells, mem, At(from, n))]
  {
  }

  function Words(mem: Memory, from: nat, n: nat): (words: seq<Bits>)
    ensures |words| == n
  {
    seq(n, k requires 0 <= k => Word(mem, At(from, k)))
  }

  lemma CellsDiffer(banks: Banks, a: nat, b: nat)
    requires SADR <= a < b <= EADR && a % 4 == b % 4
    ensures GetDccmBank(banks, a) != GetDccmBank(banks, b)
  {
    SplitIsBijective(banks, a, (0, 0));
    SplitIsBijective(banks, a, GetDccmBank(banks, a));
    SplitIsBijective(banks, b, GetDccmBank(banks, a));
  }

  lemma PreloadedLine(banks: Banks, cells: Cells, mem: Memory, from: nat, to: nat, addr: nat)
    requires SADR <= from <= addr <= to <= EADR && addr % 4 == from % 4
    ensures var after := Preload(banks, cells, mem, from, to);
            GetDccmBank(banks, addr) in after && after[GetDccmBank(banks, addr)] == Codeword(Word(mem, addr))
  {
    var k := (addr - from) / 4;
    assert addr == from + 4 * k;
    forall j | k < j < Steps(from, to) ensures GetDccmBank(banks, At(from, j)) != GetDccmBank(banks, addr) {
      CellsDiffer(banks, addr, At(from, j));
    }
    LastWordWins(banks, cells, mem, from, to, k);
  }

  lemma StepsStayInside(from: nat, to: int, k: nat)
    requires k < Steps(from, to)
    ensures At(from, k) <= to && At(from, k) % 4 == from % 4
  {
  }

  lemma LineAgrees(banks: Banks, cells: Cells, mem: Memory, from: nat, to: nat, addr: nat)
    requires SADR <= from && to <= EADR && addr % 4 == from % 4
    requires SADR <= addr < EADR ==> from <= addr <= to
    requires var after := Preload(banks, cells, mem, from, to); Complete(banks, after) && Widths(after)
    ensures Line(banks, Preload(banks, cells, mem, from, to), mem, addr) == Word(mem, addr)
  {
    if SADR <= addr < EADR {
      PreloadedLine(banks, cells, mem, from, to, addr);
    }
  }

  // Every word a dump takes out of the banks was preloaded.
  ghost predicate Covered(from: nat, to: nat, begin: nat, end: nat) {
    forall k :: 0 <= k < Steps(begin, end - 1) && SADR <= At(begin, k) < EADR ==> from <= At(begin, k) <= to
  }

  /** After preloading from..to inside the memory, a dump of the same alignment whose words in the
      memory all lie in from..to prints exactly the words of the flat image. */
  lemma BankedAgreesWithFlat(banks: Banks, cells: Cells, mem: Memory, from: nat, to: nat, begin: nat, end: nat)
    requires SADR <= from && to <= EADR && begin % 4 == from % 4
    requires Covered(from, to, begin, end)
    requires var after := Preload(banks, cells, mem, from, to); Complete(banks, after) && Widths(after)
    ensures Lines(banks, Preload(banks, cells, mem, from, to), mem, begin, Steps(begin, end - 1))
         == Words(mem, begin, Steps(begin, end - 1))
  {
    forall k | 0 <= k < Steps(begin, end - 1)
      ensures Line(banks, Preload(banks, cells, mem, from, to), mem, At(begin, k)) == Word(mem, At(begin, k))
    {
      StepsStayInside(begin, end - 1, k);
      LineAgrees(banks, cells, mem, from, to, At(begin, k));
    }
  }

  /** Covered are the half-open dump of the very range preloaded, any part of it, and, after a preload
      that reaches from the first to the last word of its alignment, every dump. */
  lemma WhatIsCovered(from: nat, to: nat, begin: nat, end: nat)
    requires SADR <= from && from % 4 == to % 4 == begin % 4
    ensures from <= begin && end <= to + 4 ==> Covered(from, to, begin, end)
    ensures from < SADR + 4 && EADR <= to + 4 ==> Covered(from, to, begin, end)
  {
    forall k | 0 <= k < Steps(begin, end - 1) && SADR <= At(begin, k) < EADR
      ensures from <= begin && end <= to + 4 ==> from <= At(begin, k) <= to
      ensures from < SADR + 4 && EADR <= to + 4 ==> from <= At(begin, k) <= to
    {
      StepsStayInside(begin, end - 1, k);
      SameAlignment(from, At(begin, k));
      SameAlignment(At(begin, k), to);
    }
  }

  lemma SameAlignment(a: nat, b: nat)
    requires a % 4 == b % 4
    ensures a < b + 4 ==> a <= b
  {
  }

  lemma StepsAreAll(from: nat, to: int)
    ensures from + 4 * Steps(from, to) > to
    ensures Steps(from, to) > 0 ==> from + 4 * (Steps(from, to) - 1) <= to
  {
  }

  lemma LinesAreCells(banks: Banks, cells: Cells, mem: Memory, begin: nat, n: nat)
    requires Complete(banks, cells) && Widths(cells)
    ensures var lines := Lines(banks, cells, mem, begin, n);
            && (forall k, c :: 0 <= k < n && SADR <= begin + 4 * k < EADR && HoldsWord(banks, c, begin + 4 * k) ==>
                  lines[k] == cells[c][..DATA_WIDTH])
            && (forall k :: 0 <= k < n && !(SADR <= begin + 4 * k < EADR) ==> lines[k] == Word(mem, begin + 4 * k))
  {
    forall k, c | 0 <= k < n && SADR <= begin + 4 * k < EADR && HoldsWord(banks, c, begin + 4 * k)
      ensures Line(banks, cells, mem, At(begin, k)) == cells[c][..DATA_WIDTH]
    {
      LineIsCell(banks, cells, mem, begin + 4 * k, c);
    }
  }

  // ---------- The tasks ----------

  class BankedMemory {
    const banks: Banks
    const ram: array2<Bits>

    ghost predicate Valid()
      reads this, ram
    {
      ram.Length0 == Width(banks) && ram.Length1 == Depth(banks) && Widths(View())
    }

    ghost function View(): Cells
      reads this, ram
    {
      map b: nat, i: nat | b < ram.Length0 && i < ram.Length1 :: (b, i) := ram[b, i]
    }

    constructor (banks: Banks)
      ensures Valid() && fresh(ram) && this.banks == banks
      ensures forall c :: c in View() ==> View()[c] == Zeros(CODE_WIDTH)
    {
      this.banks := banks;
      ram := new Bits[Width(banks), Depth(banks)]((_, _) => Zeros(CODE_WIDTH));
    }

    lemma Shape()
      requires Valid()
      ensures Complete(banks, View())
    {
    }

    method SlamDccmRam(addr: nat, data: Bits)
      requires Valid() && |data| == CODE_WIDTH
      modifies ram
      ensures Valid()
      ensures View() == old(View())[GetDccmBank(banks, addr) := data]
    {
      var c := GetDccmBank(banks, addr);
      SplitAddress(banks, addr);
      Poke(c, data);
    }

    method Poke(c: Cell, data: Bits)
      requires Valid() && InBanks(banks, c) && |data| == CODE_WIDTH
      modifies ram
      ensures Valid()
      ensures View() == old(View())[c := data]
    {
      ram[c.0, c.1] := data;
      assert View() == old(View())[c := data];
    }

    method PreloadDccm(mem: Memory)
      requires Valid()
      requires SADR <= Start(mem) <= EADR ==> Terminates(Start(mem), End(mem))
      modifies ram
      ensures Valid()
      ensures View() == if SADR <= Start(mem) <= EADR
                        then Preload(banks, old(View()), mem, Start(mem), End(mem))
                        else old(View())
    {
      var saddr := Start(mem);
      if saddr < SADR || saddr > EADR {
        return;
      }
      PreloadRange(mem, saddr, End(mem));
    }

    method PreloadRange(mem: Memory, saddr: nat, eaddr: nat)
      requires Valid() && Terminates(saddr, eaddr)
      modifies ram
      ensures Valid() && View() == Preload(banks, old(View()), mem, saddr, eaddr)
    {
      var addr := saddr;
      ghost var k, steps := 0, Steps(saddr, eaddr);
      StepsCount(saddr, eaddr, k);
      while addr <= eaddr
        invariant Valid() && addr == At(saddr, k) && k <= steps && (addr <= eaddr <==> k < steps)
        invariant View() == StoreAll(old(View()), Stores(StoreAt(banks, mem), saddr, k))
        decreases steps - k
      {
        PreloadWord(mem, addr);
        OneMoreStore(StoreAt(banks, mem), old(View()), saddr, k);
        NoWrap(saddr, eaddr, k);
        addr, k := Advance(addr), k + 1;
        StepsCount(saddr, eaddr, k);
      }
    }

    method PreloadWord(mem: Memory, addr: nat)
      requires Valid()
      modifies ram
      ensures Valid() && View() == old(View())[GetDccmBank(banks, addr) := Preloaded(Word(mem, addr))]
    {
      var data := Word(mem, addr);
      ZeroShortcut(data);
      SlamDccmRam(addr, Preloaded(data));
    }

    method ReadLine(mem: Memory, i: nat) returns (line: Bits)
      requires Valid() && Complete(banks, View())
      ensures line == Line(banks, View(), mem, i)
    {
      if SADR <= i < EADR {
        var (bank, index) := GetDccmBank(banks, i);
        SplitAddress(banks, i);
        line := ram[bank, index][..DATA_WIDTH];
      } else {
        line := Word(mem, i);
      }
    }

    // Line k is for address begin + 4 * k: the data bits of the cell there, or the flat word outside.
    method DumpSignature(mem: Memory, begin: nat, end: nat) returns (lines: seq<Bits>)
      requires Valid() && Complete(banks, View()) && Terminates(begin, end - 1)
      ensures lines == Lines(banks, View(), mem, begin, Steps(begin, end - 1))
      ensures begin + 4 * |lines| >= end && (lines != [] ==> begin + 4 * (|lines| - 1) < end)
      ensures forall k, c :: 0 <= k < |lines| && SADR <= begin + 4 * k < EADR && HoldsWord(banks, c, begin + 4 * k) ==>
                lines[k] == View()[c][..DATA_WIDTH]
      ensures forall k :: 0 <= k < |lines| && !(SADR <= begin + 4 * k < EADR) ==> lines[k] == Word(mem, begin + 4 * k)
    {
      lines := [];
      var i := begin;
      ghost var cells, steps := View(), Steps(begin, end - 1);
      StepsCount(begin, end - 1, 0);
      while i < end
        invariant i == At(begin, |lines|) && |lines| <= steps && (i < end <==> |lines| < steps)
        invariant lines == Lines(banks, cells, mem, begin, |lines|)
        decreases steps - |lines|
      {
        NoWrap(begin, end - 1, |lines|);
        var line := ReadLine(mem, i);
        OneMoreLine(banks, cells, mem, begin, |lines|);
        lines := lines + [line];
        i := Advance(i);
        StepsCount(begin, end - 1, |lines|);
      }
      StepsAreAll(begin, end - 1);
      LinesAreCells(banks, cells, mem, begin, |lines|);
    }
  }

  /** The two tasks together, for any image whose preload range lies in the memory. */
  method PreloadThenDump(m: BankedMemory, mem: Memory, begin: nat, end: nat) returns (lines: seq<Bits>)
    requires m.Valid()
    requires SADR <= Start(mem) <= EADR && End(mem) <= EADR
    requires begin % 4 == Start(mem) % 4 && Terminates(begin, end - 1)
    requires Covered(Start(mem), End(mem), begin, end)
    modifies m.ram
    ensures lines == Words(mem, begin, Steps(begin, end - 1))
  {
    m.Shape();
    ghost var before := m.View();
    m.PreloadDccm(mem);
    m.Shape();
    lines := m.DumpSignature(mem, begin, end);
    BankedAgreesWithFlat(m.banks, before, mem, Start(mem), End(mem), begin, end);
  }

  /** A word slammed into the memory is what a dump prints at its address, whatever the flat image
      holds there. */
  method SlamThenDump(m: BankedMemory, mem: Memory, addr: nat, word: Bits, begin: nat, end: nat)
    returns (lines: seq<Bits>)
    requires m.Valid() && |word| == DATA_WIDTH && SADR <= addr < EADR
    requires begin <= addr < end && (addr - begin) % 4 == 0 && Terminates(begin, end - 1)
    modifies m.ram
    ensures (addr - begin) / 4 < |lines| && lines[(addr - begin) / 4] == word
  {
    ghost var before := m.View();
    m.SlamDccmRam(addr, Codeword(word));
    m.Shape();
    lines := m.DumpSignature(mem, begin, end);
    SlammedLine(m.banks, before, m.View(), mem, addr, word, begin, end);
  }

  lemma SlammedLine(banks: Banks, before: Cells, cells: Cells, mem: Memory, addr: nat, word: Bits,
                    begin: nat, end: nat)
    requires |word| == DATA_WIDTH && SADR <= addr < EADR
    requires begin <= addr < end && (addr - begin) % 4 == 0
    requires cells == before[GetDccmBank(banks, addr) := Codeword(word)] && Complete(banks, cells) && Widths(cells)
    ensures var k, lines := (addr - begin) / 4, Lines(banks, cells, mem, begin, Steps(begin, end - 1));
            k < |lines| && lines[k] == word
  {
    StepsAreAll(begin, end - 1);
    LineOf(begin, end, Steps(begin, end - 1), addr);
    SlammedCell(banks, before, cells, mem, addr, word);
  }

  lemma SlammedCell(banks: Banks, before: Cells, cells: Cells, mem: Memory, addr: nat, word: Bits)
    requires |word| == DATA_WIDTH && SADR <= addr < EADR
    requires cells == before[GetDccmBank(banks, addr) := Codeword(word)] && Complete(banks, cells) && Widths(cells)
    ensures Line(banks, cells, mem, addr) == word
  {
    DataOfCodeword(word);
  }

  lemma LineOf(begin: nat, end: nat, n: nat, addr: nat)
    requires begin + 4 * n >= end && begin <= addr < end && (addr - begin) % 4 == 0
    ensures (addr - begin) / 4 < n && begin + 4 * ((addr - begin) / 4) == addr
  {
  }

  lemma DataOfCodeword(word: Bits)
    requires |word| == DATA_WIDTH
    ensures Codeword(word)[..DATA_WIDTH] == word
  {
  }
}
