/** What the APB master may put on the bus: the boot and firmware-push language. */
module ApbLanguage {
  import opened Apb

  // A reference automaton over completed transfers; it knows no clock, wait state or flag.
  datatype Phase =
    | Uds(k: nat) | Fe(k: nat) | Stepping | FuseDone
    | FuseWritten              // fuses done, nothing since
    | Polling | GoNext         // flow status polled; polled and clear
    | Ready                    // boot over, mailbox not granted yet
    | Granted
    | Dlen | Data(k: nat) | Exec
    | Pushed                   // firmware handed over
    | Detour                   // an error or out-of-order access came first
    | Reject

  predicate IsWrite(x: Xfer, addr: nat, data: Word) {
    x.write && x.addr == addr && x.data == data
  }

  predicate IsRead(x: Xfer, addr: nat) {
    !x.write && x.addr == addr
  }

  // Transfers that may come in any order once the mailbox has been granted or an error was seen.
  predicate Service(x: Xfer) {
    || IsRead(x, MBOX_LOCK) || IsRead(x, MBOX_DLEN) || IsRead(x, MBOX_DATAOUT)
    || IsWrite(x, MBOX_EXECUTE, 0) || IsWrite(x, MBOX_STATUS, 1)
    || x.addr == CPTRA_HW_ERROR_FATAL || x.addr == CPTRA_HW_ERROR_NON_FATAL
  }

  function FromReady(x: Xfer): Phase {
    if IsRead(x, MBOX_LOCK) then (if x.data == 0 then Ready else Granted)
    else if Service(x) then Detour
    else Reject
  }

  function FromFlow(x: Xfer): Phase {
    if ReadyForFuses(x.data) then Polling else GoNext
  }

  function Delta(c: Fuses, p: Phase, x: Xfer): Phase
    requires c.Valid()
  {
    match p
    case Uds(k) =>
      if k < UDS_DWORDS && IsWrite(x, FUSE_UDS_SEED_0 + 4 * k, c.uds[k])
      then (if k == UDS_DWORDS - 1 then Fe(0) else Uds(k + 1)) else Reject
    case Fe(k) =>
      if k < FE_DWORDS && IsWrite(x, FUSE_FIELD_ENTROPY_0 + 4 * k, c.fe[k])
      then (if k == FE_DWORDS - 1 then Stepping else Fe(k + 1)) else Reject
    case Stepping => if x.write && x.addr == FUSE_SOC_STEPPING_ID then FuseDone else Reject
    case FuseDone => if IsWrite(x, CPTRA_FUSE_WR_DONE, 1) then FuseWritten else Reject
    case FuseWritten => if IsRead(x, CPTRA_FLOW_STATUS) then FromFlow(x) else FromReady(x)
    case Polling => if IsRead(x, CPTRA_FLOW_STATUS) then FromFlow(x) else Reject
    case GoNext => if IsWrite(x, CPTRA_BOOTFSM_GO, 1) then Ready else Reject
    case Ready => FromReady(x)
    case Granted =>
      if IsWrite(x, MBOX_CMD, FW_COMMAND) then Dlen
      else if IsRead(x, MBOX_DLEN) then Detour
      else Reject
    case Dlen => if IsWrite(x, MBOX_DLEN, FW_NUM_DWORDS * 4) then Data(0) else Reject
    case Data(k) =>
      if x.write && x.addr == MBOX_DATAIN
      then (if k == FW_NUM_DWORDS - 1 then Exec else Data(k + 1)) else Reject
    case Exec => if IsWrite(x, MBOX_EXECUTE, 1) then Pushed else Reject
    case Pushed => if Service(x) then Pushed else Reject
    case Detour => if Service(x) then Detour else Reject
    case Reject => Reject
  }

  function Accept(c: Fuses, log: seq<Xfer>): Phase
    requires c.Valid()
  {
    if log == [] then Uds(0) else Delta(c, Accept(c, log[..|log| - 1]), log[|log| - 1])
  }

  // ---------- The invariant tying the master to the language ----------

  // Phases in which the mailbox service states may run.
  predicate Serving(p: Phase) {
    p.Pushed? || p.Detour?
  }

  predicate Waiting(p: Phase) {
    p.FuseWritten? || p.Ready? || Serving(p)
  }

  // The phases a state may be in, given the write counter and the out-of-order flag.
  predicate InPhase(st: ApbState, wr: nat, ooo: bool, p: Phase) {
    match st
    case IDLE => p == Uds(0)
    case WR_UDS => wr < UDS_DWORDS && p == Uds(wr)
    case WR_FE => wr < FE_DWORDS && p == Fe(wr)
    case WR_SOC_STEPPING_ID => p.Stepping?
    case WR_FUSE_DONE => p.FuseDone?
    case POLL_FLOW_ST => p.FuseWritten? || p.Polling?
    case WR_BOOT_GO => p.GoNext?
    case WAIT_FW_TEST => p.FuseWritten? || p.Ready?
    case POLL_LOCK => Waiting(p) && (Serving(p) ==> ooo)
    case PRE_WR_CMD => false
    case WR_CMD => p.Granted?
    case WR_DLEN => p.Dlen?
    case WR_DATAIN => wr < FW_NUM_DWORDS && p == Data(wr)
    case WR_EXEC => p.Exec?
    case RD_DLEN => Waiting(p) || p.Granted?
    case _ => if ErrorAccess(st) then Waiting(p) else Serving(p)
  }

  predicate ErrorAccess(st: ApbState) {
    || st.WAIT_ERROR_AXS? || st.RD_HW_ERROR_FATAL? || st.WR_HW_ERROR_FATAL?
    || st.RD_HW_ERROR_NON_FATAL? || st.WR_HW_ERROR_NON_FATAL?
  }

  // The k transfers before position at carry the first k words of the blob.
  ghost predicate Carries(log: seq<Xfer>, at: nat, k: nat, blob: seq<Word>) {
    && k <= at <= |log| && k <= |blob|
    && forall j :: 0 <= j < k ==> log[at - k + j].data == blob[j]
  }

  // While the firmware goes out, and ever after, the log shows the words of the blob.
  ghost predicate BlobInv(st: ApbState, wr: nat, blob: seq<Word>, log: seq<Xfer>, pushEnd: nat, p: Phase) {
    && |blob| == FW_NUM_DWORDS
    && (st.WR_DATAIN? ==> Carries(log, |log|, wr, blob))
    && (st.WR_EXEC? ==> Carries(log, |log|, FW_NUM_DWORDS, blob))
    && (p.Pushed? ==> Carries(log, pushEnd, FW_NUM_DWORDS, blob) && pushEnd < |log|
                      && IsWrite(log[pushEnd], MBOX_EXECUTE, 1))
  }

  ghost predicate Inv(c: Fuses, s: Regs)
    requires c.Valid()
  {
    && InPhase(s.st, s.wr, s.ooo, Accept(c, s.log))
    && BlobInv(s.st, s.wr, s.blob, s.log, s.pushEnd, Accept(c, s.log))
    && (s.enablePh ==> Psel(s.st))
  }

  // A transfer is one the language allows, and leads to a state of the new phase: booting ...
  lemma BootTransfer(c: Fuses, s: Regs, i: Inputs, p: Phase)
    requires c.Valid() && InPhase(s.st, s.wr, s.ooo, p) && XferEnd(s, i)
    requires s.st.WR_UDS? || s.st.WR_FE? || s.st.WR_SOC_STEPPING_ID? || s.st.WR_FUSE_DONE?
             || s.st.POLL_FLOW_ST? || s.st.WR_BOOT_GO?
    ensures InPhase(NextState(s, i), NextWr(s, i), s.ooo, Delta(c, p, Transfer(c, s, i)))
    ensures !Delta(c, p, Transfer(c, s, i)).Pushed?
    ensures !NextState(s, i).WR_DATAIN? && !NextState(s, i).WR_EXEC?
  {
  }

  predicate MailboxState(st: ApbState) {
    st.POLL_LOCK? || st.RD_DLEN? || st.RD_DATAOUT? || st.WR_STATUS? || st.RST_EXEC?
  }

  predicate PushState(st: ApbState) {
    st.WR_CMD? || st.WR_DLEN? || st.WR_DATAIN? || st.WR_EXEC?
  }

  // ... pushing firmware ...
  lemma PushTransfer(c: Fuses, s: Regs, i: Inputs, p: Phase)
    requires c.Valid() && InPhase(s.st, s.wr, s.ooo, p) && XferEnd(s, i) && PushState(s.st)
    ensures InPhase(NextState(s, i), NextWr(s, i), s.ooo, Delta(c, p, Transfer(c, s, i)))
    ensures Delta(c, p, Transfer(c, s, i)).Pushed? <==> s.st.WR_EXEC?
  {
  }

  // ... taking the mailbox lock and serving the mailbox ...
  lemma LockTransfer(c: Fuses, s: Regs, i: Inputs, p: Phase)
    requires c.Valid() && InPhase(s.st, s.wr, s.ooo, p) && XferEnd(s, i) && (s.st.POLL_LOCK? || s.st.RD_DLEN?)
    ensures InPhase(NextState(s, i), NextWr(s, i), s.ooo, Delta(c, p, Transfer(c, s, i)))
    ensures Delta(c, p, Transfer(c, s, i)).Pushed? <==> p.Pushed?
    ensures !NextState(s, i).WR_DATAIN? && !NextState(s, i).WR_EXEC?
  {
  }

  lemma MailboxTransfer(c: Fuses, s: Regs, i: Inputs, p: Phase)
    requires c.Valid() && InPhase(s.st, s.wr, s.ooo, p) && XferEnd(s, i) && MailboxState(s.st)
    ensures InPhase(NextState(s, i), NextWr(s, i), s.ooo, Delta(c, p, Transfer(c, s, i)))
    ensures Delta(c, p, Transfer(c, s, i)).Pushed? <==> p.Pushed?
    ensures !NextState(s, i).WR_DATAIN? && !NextState(s, i).WR_EXEC?
  {
    if s.st.POLL_LOCK? || s.st.RD_DLEN? {
      LockTransfer(c, s, i, p);
    }
  }

  // ... and accessing the error registers.
  lemma ErrorTransfer(c: Fuses, s: Regs, i: Inputs, p: Phase)
    requires c.Valid() && InPhase(s.st, s.wr, s.ooo, p) && XferEnd(s, i) && ErrorAccess(s.st)
    ensures InPhase(NextState(s, i), NextWr(s, i), s.ooo, Delta(c, p, Transfer(c, s, i)))
    ensures Delta(c, p, Transfer(c, s, i)).Pushed? <==> p.Pushed?
    ensures !NextState(s, i).WR_DATAIN? && !NextState(s, i).WR_EXEC?
  {
  }

  // A selected transfer that is not over holds the state and the write counter.
  lemma TransferHolds(s: Regs, i: Inputs)
    requires Psel(s.st) && !XferEnd(s, i)
    ensures NextState(s, i) == s.st
    ensures s.st.WR_UDS? || s.st.WR_FE? || s.st.WR_DATAIN? ==> NextWr(s, i) == s.wr
    ensures s.st.RD_DATAOUT? ==> NextRd(s, i) == s.rd
  {
  }

  // So does not being selected hold the phase.
  lemma ErrorWaitInPhase(s: Regs, i: Inputs, p: Phase)
    requires InPhase(s.st, s.wr, s.ooo, p) && s.st.WAIT_ERROR_AXS?
    ensures InPhase(NextState(s, i), NextWr(s, i), s.ooo, p)
  {
  }

  lemma IdleInPhase(s: Regs, i: Inputs, p: Phase)
    requires InPhase(s.st, s.wr, s.ooo, p) && !Psel(s.st) && !s.st.WAIT_ERROR_AXS?
    ensures InPhase(NextState(s, i), NextWr(s, i), s.ooo, p)
  {
  }

  function PhaseAfter(c: Fuses, s: Regs, i: Inputs, p: Phase): Phase
    requires c.Valid()
  {
    if XferEnd(s, i) then Delta(c, p, Transfer(c, s, i)) else p
  }

  lemma StepInPhase(c: Fuses, s: Regs, i: Inputs, p: Phase)
    requires c.Valid() && InPhase(s.st, s.wr, s.ooo, p)
    ensures InPhase(NextState(s, i), NextWr(s, i), s.ooo, PhaseAfter(c, s, i, p))
  {
    if s.st.WAIT_ERROR_AXS? {
      ErrorWaitInPhase(s, i, p);
    } else if !Psel(s.st) {
      IdleInPhase(s, i, p);
    } else if !XferEnd(s, i) {
      TransferHolds(s, i);
      HoldInPhase(s.st, s.wr, NextWr(s, i), s.ooo, p);
    } else if PushState(s.st) {
      PushTransfer(c, s, i, p);
    } else if MailboxState(s.st) {
      MailboxTransfer(c, s, i, p);
    } else if ErrorAccess(s.st) {
      ErrorTransfer(c, s, i, p);
    } else {
      BootTransfer(c, s, i, p);
    }
  }

  lemma HoldInPhase(st: ApbState, wr: nat, wr': nat, ooo: bool, p: Phase)
    requires InPhase(st, wr, ooo, p)
    requires st.WR_UDS? || st.WR_FE? || st.WR_DATAIN? ==> wr' == wr
    ensures InPhase(st, wr', ooo, p)
  {
  }

  lemma AcceptAfter(c: Fuses, s: Regs, i: Inputs)
    requires c.Valid()
    ensures Accept(c, Posedge(c, s, i).log) == PhaseAfter(c, s, i, Accept(c, s.log))
  {
  }

  // ---------- The words of the firmware ----------

  // One more word on the bus, while the word after it may be drawn.
  lemma CarryOneMore(log: seq<Xfer>, k: nat, blob: seq<Word>, x: Xfer, blob': seq<Word>)
    requires Carries(log, |log|, k, blob) && k < |blob| == |blob'| && x.data == blob[k]
    requires forall j :: 0 <= j <= k ==> blob'[j] == blob[j]
    ensures Carries(log + [x], |log| + 1, k + 1, blob')
  {
  }

  lemma DataTransferKeepsBlob(c: Fuses, s: Regs, i: Inputs)
    requires s.st.WR_DATAIN? && XferEnd(s, i) && s.wr < FW_NUM_DWORDS
    requires BlobInv(s.st, s.wr, s.blob, s.log, s.pushEnd, Data(s.wr))
    ensures var s' := Posedge(c, s, i);
            forall p': Phase :: !p'.Pushed? ==> BlobInv(s'.st, s'.wr, s'.blob, s'.log, s'.pushEnd, p')
  {
    if s.wr == FW_NUM_DWORDS - 1 {
      LastDataTransfer(c, s, i);
      CarryOneMore(s.log, s.wr, s.blob, Transfer(c, s, i), s.blob);
    } else {
      NextDataTransfer(c, s, i);
      CarryOneMore(s.log, s.wr, s.blob, Transfer(c, s, i), s.blob[s.wr + 1 := i.random]);
    }
  }

  lemma LastDataTransfer(c: Fuses, s: Regs, i: Inputs)
    requires s.st.WR_DATAIN? && XferEnd(s, i) && s.wr == FW_NUM_DWORDS - 1 && |s.blob| == FW_NUM_DWORDS
    ensures var s' := Posedge(c, s, i);
            s'.st.WR_EXEC? && s'.blob == s.blob && s'.log == s.log + [Transfer(c, s, i)]
    ensures Transfer(c, s, i).data == s.blob[s.wr]
  {
  }

  lemma NextDataTransfer(c: Fuses, s: Regs, i: Inputs)
    requires s.st.WR_DATAIN? && XferEnd(s, i) && s.wr < FW_NUM_DWORDS - 1 && |s.blob| == FW_NUM_DWORDS
    ensures var s' := Posedge(c, s, i);
            && s'.st.WR_DATAIN? && s'.wr == s.wr + 1 && s'.log == s.log + [Transfer(c, s, i)]
            && s'.blob == s.blob[s.wr + 1 := i.random]
    ensures Transfer(c, s, i).data == s.blob[s.wr]
  {
  }

  lemma ExecTransferKeepsBlob(c: Fuses, s: Regs, i: Inputs)
    requires s.st.WR_EXEC? && XferEnd(s, i)
    requires BlobInv(s.st, s.wr, s.blob, s.log, s.pushEnd, Exec)
    ensures var s' := Posedge(c, s, i);
            BlobInv(s'.st, s'.wr, s'.blob, s'.log, s'.pushEnd, Pushed)
  {
  }

  lemma CommandTransferKeepsBlob(c: Fuses, s: Regs, i: Inputs)
    requires (s.st.WR_CMD? || s.st.WR_DLEN?) && XferEnd(s, i) && |s.blob| == FW_NUM_DWORDS
    ensures var s' := Posedge(c, s, i);
            forall p': Phase :: !p'.Pushed? ==> BlobInv(s'.st, s'.wr, s'.blob, s'.log, s'.pushEnd, p')
  {
  }

  lemma OtherTransferKeepsBlob(c: Fuses, s: Regs, i: Inputs, p: Phase, p': Phase)
    requires XferEnd(s, i) && !PushState(s.st) && (p'.Pushed? ==> p.Pushed?)
    requires !NextState(s, i).WR_DATAIN? && !NextState(s, i).WR_EXEC?
    requires BlobInv(s.st, s.wr, s.blob, s.log, s.pushEnd, p)
    ensures var s' := Posedge(c, s, i);
            BlobInv(s'.st, s'.wr, s'.blob, s'.log, s'.pushEnd, p')
  {
  }

  lemma NoTransferKeepsBlob(c: Fuses, s: Regs, i: Inputs, p: Phase)
    requires !XferEnd(s, i) && InPhase(s.st, s.wr, s.ooo, p)
    requires BlobInv(s.st, s.wr, s.blob, s.log, s.pushEnd, p)
    ensures var s' := Posedge(c, s, i);
            BlobInv(s'.st, s'.wr, s'.blob, s'.log, s'.pushEnd, p)
  {
  }

  lemma StepKeepsBlob(c: Fuses, s: Regs, i: Inputs, p: Phase)
    requires c.Valid() && InPhase(s.st, s.wr, s.ooo, p)
    requires BlobInv(s.st, s.wr, s.blob, s.log, s.pushEnd, p)
    ensures var s' := Posedge(c, s, i);
            BlobInv(s'.st, s'.wr, s'.blob, s'.log, s'.pushEnd, PhaseAfter(c, s, i, p))
  {
    if !XferEnd(s, i) {
      NoTransferKeepsBlob(c, s, i, p);
    } else if PushState(s.st) {
      PushTransfer(c, s, i, p);
      match s.st
      case WR_DATAIN => DataTransferKeepsBlob(c, s, i);
      case WR_EXEC => ExecTransferKeepsBlob(c, s, i);
      case _ => CommandTransferKeepsBlob(c, s, i);
    } else {
      if MailboxState(s.st) {
        MailboxTransfer(c, s, i, p);
      } else if ErrorAccess(s.st) {
        ErrorTransfer(c, s, i, p);
      } else {
        BootTransfer(c, s, i, p);
      }
      OtherTransferKeepsBlob(c, s, i, p, PhaseAfter(c, s, i, p));
    }
  }

  lemma {:induction false} RunInv(c: Fuses, s0: Regs, es: seq<Inputs>)
    requires c.Valid() && Initial(s0)
    ensures Inv(c, Run(c, s0, es))
  {
    if es != [] {
      RunInv(c, s0, es[..|es| - 1]);
      EdgeKeepsInv(c, Run(c, s0, es[..|es| - 1]), es[|es| - 1]);
    }
  }

  lemma PosedgeKeepsInv(c: Fuses, s: Regs, i: Inputs)
    requires c.Valid() && Inv(c, s)
    ensures Inv(c, Posedge(c, s, i))
  {
    var p := Accept(c, s.log);
    AcceptAfter(c, s, i);
    StepInPhase(c, s, i, p);
    StepKeepsBlob(c, s, i, p);
    EnableFollowsSelect(c, s, i);
  }

  lemma EnableFollowsSelect(c: Fuses, s: Regs, i: Inputs)
    ensures Posedge(c, s, i).enablePh ==> Psel(Posedge(c, s, i).st)
  {
  }

  lemma NegedgeKeepsInv(c: Fuses, s: Regs, i: Inputs)
    requires c.Valid() && Inv(c, s)
    ensures Inv(c, Negedge(s, i))
  {
  }

  /** Every clock edge and every reset keeps the master in step with the reference automaton. */
  lemma EdgeKeepsInv(c: Fuses, s: Regs, i: Inputs)
    requires c.Valid() && Inv(c, s)
    ensures Inv(c, Edge(c, s, i))
  {
    if i.rstB {
      if s.high {
        NegedgeKeepsInv(c, s, i);
      } else {
        PosedgeKeepsInv(c, s, i);
      }
    }
  }

  ghost predicate Reachable(c: Fuses, s: Regs) {
    exists s0, es :: Initial(s0) && Run(c, s0, es) == s
  }

  lemma InvAccepts(c: Fuses, s: Regs)
    requires c.Valid() && Inv(c, s)
    ensures !Accept(c, s.log).Reject?
  {
  }

  lemma ReachableInv(c: Fuses, s: Regs)
    requires c.Valid() && Reachable(c, s)
    ensures Inv(c, s) && !Accept(c, s.log).Reject?
  {
    var s0, es :| Initial(s0) && Run(c, s0, es) == s;
    RunInv(c, s0, es);
    InvAccepts(c, s);
  }
}
