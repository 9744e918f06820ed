/** The SoC-side APB master of caliptra_mcu_top_tb.sv, one clock edge at a time. */
module Apb {
  type Word = x: nat | x < 0x1_0000_0000

  const UDS_DWORDS: nat := 12
  const FE_DWORDS: nat := 8
  const FW_NUM_DWORDS: nat := 256

  const FUSE_UDS_SEED_0: nat := 0x30030200
  const FUSE_FIELD_ENTROPY_0: nat := 0x30030230
  const FUSE_SOC_STEPPING_ID: nat := 0x30030348
  const CPTRA_FUSE_WR_DONE: nat := 0x300300b0
  const CPTRA_FLOW_STATUS: nat := 0x3003003c
  const CPTRA_BOOTFSM_GO: nat := 0x300300b8
  const CPTRA_HW_ERROR_FATAL: nat := 0x30030000
  const CPTRA_HW_ERROR_NON_FATAL: nat := 0x30030004
  const MBOX_LOCK: nat := 0x30020000
  const MBOX_CMD: nat := 0x30020008
  const MBOX_DLEN: nat := 0x3002000c
  const MBOX_DATAIN: nat := 0x30020010
  const MBOX_DATAOUT: nat := 0x30020014
  const MBOX_EXECUTE: nat := 0x30020018
  const MBOX_STATUS: nat := 0x3002001c
  const FW_COMMAND: Word := 0xBA5EBA11

  datatype ApbState =
    | IDLE | WR_UDS | WR_FE | WR_SOC_STEPPING_ID | WR_FUSE_DONE | POLL_FLOW_ST | WR_BOOT_GO | WAIT_FW_TEST
    | POLL_LOCK | PRE_WR_CMD | WR_CMD | WR_DLEN | WR_DATAIN | WR_STATUS | WR_EXEC | WAIT_ERROR_AXS
    | RD_HW_ERROR_FATAL | WR_HW_ERROR_FATAL | RD_HW_ERROR_NON_FATAL | WR_HW_ERROR_NON_FATAL
    | DONE | RD_DLEN | RD_DATAOUT | RST_EXEC | ERROR

  // The fuse values the test bench holds.
  datatype Fuses = Fuses(uds: seq<Word>, fe: seq<Word>) {
    ghost predicate Valid() {
      |uds| == UDS_DWORDS && |fe| == FE_DWORDS
    }
  }

  // Everything the master samples at a clock edge, all of it arbitrary.
  datatype Inputs = Inputs(
    rstB: bool, pwrgood: bool,
    pready: bool, prdata: Word,
    start: bool, brkPoint: bool, readyForFwPush: bool, dataAvail: bool,
    errorInjectionSeen: bool, fatalPulse: bool, nonFatalPulse: bool,
    doNoLock: bool, doOoo: bool, resetOooDone: bool, resetNoLockDone: bool,
    random: Word)

  // A completed transfer: data is PWDATA of a write, PRDATA of a read.
  datatype Xfer = Xfer(addr: nat, write: bool, data: Word)

  datatype Regs = Regs(
    // clocked on posedge
    st: ApbState, wr: nat, rd: nat, enablePh: bool, statusSet: bool,
    blob: seq<Word>,
    stepping: Word,            // the $urandom word driven all through WR_SOC_STEPPING_ID
    // clocked on negedge
    hwErrorWdata: Word, ooo: bool, noLock: bool, oooDone: bool, noLockDone: bool, executeRx: bool, dlen: Word,
    // the clock level: after a posedge it is high
    high: bool,
    // history, per reset epoch
    log: seq<Xfer>,
    pushEnd: nat,              // where in the log EXECUTE=1 went
    outReads: nat,             // DATAOUT transfers of the current visit to RD_DATAOUT
    visitOoo: bool,            // was ooo latched when the visit began?
    cleared: bool)             // did a done-flag reset arrive in its last read, after the flag was used up?

  // ---------- Combinational outputs ----------

  predicate Psel(st: ApbState) {
    !(st.IDLE? || st.WAIT_FW_TEST? || st.PRE_WR_CMD? || st.WAIT_ERROR_AXS? || st.DONE? || st.ERROR?)
  }

  predicate Pwrite(st: ApbState) {
    || st.WR_UDS? || st.WR_FE? || st.WR_SOC_STEPPING_ID? || st.WR_FUSE_DONE? || st.WR_BOOT_GO?
    || st.WR_CMD? || st.WR_DLEN? || st.WR_DATAIN? || st.WR_EXEC? || st.WR_STATUS?
    || st.WR_HW_ERROR_FATAL? || st.WR_HW_ERROR_NON_FATAL? || st.RST_EXEC?
  }

  function Paddr(s: Regs): nat {
    match s.st
    case WR_UDS => FUSE_UDS_SEED_0 + 4 * s.wr
    case WR_FE => FUSE_FIELD_ENTROPY_0 + 4 * s.wr
    case WR_SOC_STEPPING_ID => FUSE_SOC_STEPPING_ID
    case WR_FUSE_DONE => CPTRA_FUSE_WR_DONE
    case POLL_FLOW_ST => CPTRA_FLOW_STATUS
    case WR_BOOT_GO => CPTRA_BOOTFSM_GO
    case POLL_LOCK => MBOX_LOCK
    case WR_CMD => MBOX_CMD
    case WR_DLEN => MBOX_DLEN
    case WR_DATAIN => MBOX_DATAIN
    case WR_EXEC => MBOX_EXECUTE
    case WR_STATUS => MBOX_STATUS
    case RD_HW_ERROR_FATAL => CPTRA_HW_ERROR_FATAL
    case WR_HW_ERROR_FATAL => CPTRA_HW_ERROR_FATAL
    case RD_HW_ERROR_NON_FATAL => CPTRA_HW_ERROR_NON_FATAL
    case WR_HW_ERROR_NON_FATAL => CPTRA_HW_ERROR_NON_FATAL
    case RD_DLEN => MBOX_DLEN
    case RD_DATAOUT => MBOX_DATAOUT
    case RST_EXEC => MBOX_EXECUTE
    case _ => 0
  }

  // An index past a packed array reads as zero.
  function At(q: seq<Word>, i: nat): Word {
    if i < |q| then q[i] else 0
  }

  function Pwdata(c: Fuses, s: Regs): Word {
    match s.st
    case WR_UDS => At(c.uds, s.wr)
    case WR_FE => At(c.fe, s.wr)
    case WR_SOC_STEPPING_ID => s.stepping
    case WR_FUSE_DONE => 1
    case WR_BOOT_GO => 1
    case WR_CMD => FW_COMMAND
    case WR_DLEN => FW_NUM_DWORDS * 4
    case WR_DATAIN => At(s.blob, s.wr)
    case WR_EXEC => 1
    case WR_STATUS => 1
    case RD_HW_ERROR_FATAL => s.hwErrorWdata
    case WR_HW_ERROR_FATAL => s.hwErrorWdata
    case RD_HW_ERROR_NON_FATAL => s.hwErrorWdata
    case WR_HW_ERROR_NON_FATAL => s.hwErrorWdata
    case RD_DLEN => s.dlen
    case _ => 0
  }

  predicate XferEnd(s: Regs, i: Inputs) {
    Psel(s.st) && s.enablePh && i.pready
  }

  function Transfer(c: Fuses, s: Regs, i: Inputs): Xfer {
    Xfer(Paddr(s), Pwrite(s.st), if Pwrite(s.st) then Pwdata(c, s) else i.prdata)
  }

  // READY_FOR_FUSES is bit 30 of the flow status.
  predicate ReadyForFuses(w: Word) {
    w / 0x4000_0000 % 2 == 1
  }

  // ---------- Next state and counters ----------

  function NextState(s: Regs, i: Inputs): ApbState {
    var end := XferEnd(s, i);
    match s.st
    case IDLE => if i.start then WR_UDS else IDLE
    case WR_UDS => if end && s.wr == UDS_DWORDS - 1 then WR_FE else WR_UDS
    case WR_FE => if end && s.wr == FE_DWORDS - 1 then WR_SOC_STEPPING_ID else WR_FE
    case WR_SOC_STEPPING_ID => if end then WR_FUSE_DONE else WR_SOC_STEPPING_ID
    case WR_FUSE_DONE => if end then (if i.brkPoint then POLL_FLOW_ST else WAIT_FW_TEST) else WR_FUSE_DONE
    case POLL_FLOW_ST => if end && !ReadyForFuses(i.prdata) then WR_BOOT_GO else POLL_FLOW_ST
    case WR_BOOT_GO => if end then WAIT_FW_TEST else WR_BOOT_GO
    case WAIT_FW_TEST =>
      if i.readyForFwPush then (if s.wr == 5 then POLL_LOCK else WAIT_FW_TEST)
      else if i.errorInjectionSeen then WAIT_ERROR_AXS
      else WAIT_FW_TEST
    case POLL_LOCK => if end && i.prdata != 0 then (if s.ooo then RD_DLEN else WR_CMD) else POLL_LOCK
    case PRE_WR_CMD => if s.wr == 5 then WR_CMD else PRE_WR_CMD
    case WR_CMD => if end then WR_DLEN else WR_CMD
    case WR_DLEN => if end then WR_DATAIN else WR_DLEN
    case WR_DATAIN => if end && s.wr == FW_NUM_DWORDS - 1 then WR_EXEC else WR_DATAIN
    case WR_EXEC => if end then DONE else WR_EXEC
    case WR_STATUS => if end then DONE else WR_STATUS
    case WAIT_ERROR_AXS =>
      if i.fatalPulse then RD_HW_ERROR_FATAL
      else if i.nonFatalPulse then RD_HW_ERROR_NON_FATAL
      else if s.hwErrorWdata != 0 then WR_HW_ERROR_FATAL
      else if i.doNoLock then RD_DLEN
      else if s.ooo && !s.oooDone then POLL_LOCK
      else WAIT_ERROR_AXS
    case RD_HW_ERROR_FATAL => if end then ERROR else RD_HW_ERROR_FATAL
    case WR_HW_ERROR_FATAL => if end then WAIT_ERROR_AXS else WR_HW_ERROR_FATAL
    case RD_HW_ERROR_NON_FATAL => if end then WR_HW_ERROR_NON_FATAL else RD_HW_ERROR_NON_FATAL
    case WR_HW_ERROR_NON_FATAL => if end then WAIT_ERROR_AXS else WR_HW_ERROR_NON_FATAL
    case DONE =>
      if i.dataAvail && s.executeRx then RD_DLEN
      else if i.dataAvail && !s.statusSet && !s.executeRx then WR_STATUS
      else DONE
    case RD_DLEN => if end then RD_DATAOUT else RD_DLEN
    case RD_DATAOUT =>
      if end && s.rd == s.dlen then (if s.noLockDone || s.oooDone then WAIT_ERROR_AXS else RST_EXEC)
      else RD_DATAOUT
    case RST_EXEC => if end then DONE else RST_EXEC
    case ERROR => ERROR
  }

  // apb_wr_count is 8 bits wide.
  function NextWr(s: Regs, i: Inputs): nat {
    var end := XferEnd(s, i);
    match s.st
    case WR_UDS => if end then (if s.wr == UDS_DWORDS - 1 then 0 else (s.wr + 1) % 256) else s.wr
    case WR_FE => if end then (if s.wr == FE_DWORDS - 1 then 0 else (s.wr + 1) % 256) else s.wr
    case WR_DATAIN => if end then (if s.wr == FW_NUM_DWORDS - 1 then 0 else (s.wr + 1) % 256) else s.wr
    case WAIT_FW_TEST => if i.readyForFwPush && s.wr != 5 then (s.wr + 1) % 256 else 0
    case PRE_WR_CMD => if s.wr == 5 then 0 else (s.wr + 1) % 256
    case ERROR => s.wr
    case _ => 0
  }

  // apb_rd_count is 32 bits wide.
  function NextRd(s: Regs, i: Inputs): nat {
    var end := XferEnd(s, i);
    match s.st
    case RD_DATAOUT => if end then (if s.rd == s.dlen then 0 else (s.rd + 1) % 0x1_0000_0000) else s.rd
    case ERROR => s.rd
    case _ => 0
  }

  // ---------- The two edges ----------

  // What cptra_rst_b clears; the firmware blob, the write-one-to-clear data and the clock are kept.
  function Reset(s: Regs): Regs {
    Regs(IDLE, 0, 0, false, false, s.blob, s.stepping,
         s.hwErrorWdata, false, false, false, false, false, 0, s.high, [], 0, 0, false, false)
  }

  function Posedge(c: Fuses, s: Regs, i: Inputs): Regs {
    var n, end := NextState(s, i), XferEnd(s, i);
    s.(st := n, wr := NextWr(s, i), rd := NextRd(s, i),
       enablePh := (Psel(s.st) && !s.enablePh) || (Psel(s.st) && s.enablePh && !i.pready),
       statusSet := if !i.dataAvail then false else s.statusSet || s.st.WR_STATUS?,
       blob := if n.WR_DATAIN? && end && NextWr(s, i) < |s.blob| then s.blob[NextWr(s, i) := i.random] else s.blob,
       stepping := if n.WR_SOC_STEPPING_ID? && !s.st.WR_SOC_STEPPING_ID? then i.random else s.stepping,
       high := true,
       log := if end then s.log + [Transfer(c, s, i)] else s.log,
       pushEnd := if end && s.st.WR_EXEC? then |s.log| else s.pushEnd,
       outReads := if s.st.RD_DATAOUT? then (if end then s.outReads + 1 else s.outReads)
                   else if n.RD_DATAOUT? then 0 else s.outReads,
       visitOoo := if n.RD_DATAOUT? && !s.st.RD_DATAOUT? then s.ooo else s.visitOoo,
       cleared := if n.RD_DATAOUT? && !s.st.RD_DATAOUT? then false else s.cleared)
  }

  function Negedge(s: Regs, i: Inputs): Regs {
    var end := XferEnd(s, i);
    var last := s.st.RD_DATAOUT? && s.rd == s.dlen;
    s.(hwErrorWdata :=
         if !i.pwrgood then 0
         else if (s.st.RD_HW_ERROR_FATAL? || s.st.RD_HW_ERROR_NON_FATAL?) && end then i.prdata
         else if (s.st.WR_HW_ERROR_FATAL? || s.st.WR_HW_ERROR_NON_FATAL?) && end then 0
         else s.hwErrorWdata,
       ooo := if i.doOoo then true else if s.ooo && last then false else s.ooo,
       noLock := if i.doNoLock then true else if s.noLock && last then false else s.noLock,
       oooDone := if s.ooo && last then true
                  else if s.st.WR_HW_ERROR_NON_FATAL? || i.resetOooDone then false else s.oooDone,
       noLockDone := if s.noLock && last then true
                     else if s.st.WR_HW_ERROR_NON_FATAL? || i.resetNoLockDone then false else s.noLockDone,
       executeRx := if s.st.WR_EXEC? then true
                    else if s.executeRx && s.st.RST_EXEC? && end then false else s.executeRx,
       dlen := if s.st.RD_DLEN? && end then i.prdata else s.dlen,
       high := false,
       cleared := if last then !s.ooo && (s.cleared || i.resetOooDone) else s.cleared)
  }

  // The next clock edge; an asserted reset has already cleared the registers when it comes.
  function Edge(c: Fuses, s: Regs, i: Inputs): Regs {
    if !i.rstB then
      Reset(s).(high := !s.high, hwErrorWdata := if i.pwrgood then s.hwErrorWdata else 0)
    else if s.high then Negedge(s, i)
    else Posedge(c, s, i)
  }

  // Power-up: blob and stepping word arbitrary, everything else cleared.
  function PowerUp(blob: seq<Word>, stepping: Word): Regs {
    Regs(IDLE, 0, 0, false, false, blob, stepping,
         0, false, false, false, false, false, 0, false, [], 0, 0, false, false)
  }

  ghost predicate Initial(s: Regs) {
    |s.blob| == FW_NUM_DWORDS && s == PowerUp(s.blob, s.stepping)
  }

  function Run(c: Fuses, s0: Regs, es: seq<Inputs>): Regs {
    if es == [] then s0 else Edge(c, Run(c, s0, es[..|es| - 1]), es[|es| - 1])
  }
}
