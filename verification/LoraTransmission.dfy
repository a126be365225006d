/** lora_transmission.c itself: the task object whose handlers update the static variables in place, each proved against
    the transition system of LoraSession and shown to keep its invariant. */
module LoraTransmission {
  import opened MachineInts
  import opened Backoff
  import opened LoraFrames
  import opened LowPowerTable
  import opened LoraSession

  class LoraTask {
    /** lora_state, the one-slot request, and lora_obj.state. */
    var loraState: Request
    var objActive: bool
    var connStatus: Conn
    var preConnStatus: Conn
    var txFailTimes: uint32
    /** The static variables of lora_random_delay. */
    var maxFlag: bool
    var delayTime: nat
    /** Which timers are armed, and whether the radio's interrupt is enabled. */
    var timeSlice: bool
    var txTimeout: bool
    var idleTimer: bool
    var irq: bool
    /** The entry in the sleep table, and the status of the loss-rate test. */
    var lpmStat: TaskStat
    var llrt: Llrt
    ghost var frame: seq<byte>
    const param: Param
    const tx: TxBuffer

    /** The frame on record is the one in the transmit buffer. */
    ghost predicate Valid()
      reads this, tx, tx.buf
    {
      tx.Valid() && frame == tx.Frame()
    }

    /** The state of the transition system that the variables stand for. */
    ghost function View(): Lora
      reads this
    {
      Lora(loraState, objActive, connStatus, preConnStatus, txFailTimes, timeSlice, txTimeout, idleTimer, irq,
           lpmStat, frame, Latch(maxFlag, delayTime), llrt)
    }

    constructor (p: Param)
      ensures Valid() && View() == InitialLora() && Inv(View(), p) && param == p
      ensures fresh(tx) && fresh(tx.buf)
    {
      loraState, objActive, connStatus, preConnStatus, txFailTimes := ReqIdle, false, Offline, Offline, 0;
      maxFlag, delayTime := false, 0;
      timeSlice, txTimeout, idleTimer, irq := false, false, false, false;
      lpmStat, llrt := StaRegister, LlrtStop;
      param := p;
      tx := new TxBuffer();
      frame := [];
      new;
      InvInitial(p);
    }

    method TaskStart()
      modifies this
      ensures View() == LoraSession.TaskStart(old(View()))
      ensures old(Inv(View(), param)) ==> Inv(View(), param)
    {
      ghost var s := View();
      if !objActive {
        lpmStat := StaRun;
        loraState := ReqActive;
        preConnStatus := connStatus;
      }
      if Inv(s, param) {
        InvStep(s, param, AStart);
      }
    }

    method TaskStop()
      modifies this
      ensures View() == LoraSession.TaskStop(old(View()))
      ensures old(Inv(View(), param)) ==> Inv(View(), param)
    {
      ghost var s := View();
      if objActive {
        txFailTimes := 0;
        loraState := ReqStop;
      }
      if Inv(s, param) {
        InvStep(s, param, AStop);
      }
    }

    method SwtTaskTimeSliceCb()
      requires timeSlice
      modifies this
      ensures View() == SliceCallback(old(View()))
      ensures old(Inv(View(), param)) ==> Inv(View(), param)
    {
      ghost var s := View();
      timeSlice := false;
      if loraState != ReqStop {
        loraState := ReqStop;
      }
      if Inv(s, param) {
        InvStep(s, param, ASlice);
      }
    }

    method SwtTxTimeoutCb()
      requires txTimeout
      modifies this
      ensures View() == TxTimeoutCallback(old(View()))
      ensures old(Inv(View(), param)) ==> Inv(View(), param)
    {
      ghost var s := View();
      txTimeout := false;
      if loraState != ReqStop {
        loraState := ReqTxFail;
      }
      if Inv(s, param) {
        InvStep(s, param, ATxTimeout);
      }
    }

    method SwtIdleCb()
      requires idleTimer
      modifies this
      ensures View() == IdleCallback(old(View()))
      ensures old(Inv(View(), param)) ==> Inv(View(), param)
    {
      ghost var s := View();
      idleTimer := false;
      if loraState != ReqStop {
        loraState := ReqActive;
      }
      if Inv(s, param) {
        InvStep(s, param, AIdle);
      }
    }

    method TxCpltCb()
      requires irq
      modifies this
      ensures View() == RxInterrupt(old(View()))
      ensures old(Inv(View(), param)) ==> Inv(View(), param)
    {
      ghost var s := View();
      if objActive {
        if loraState != ReqStop {
          loraState := ReqTxSuccess;
        }
      }
      if Inv(s, param) {
        InvStep(s, param, ARx);
      }
    }

    /** The next back-off delay, from the latch of the previous one. */
    method LoraRandomDelay(randomNum: nat) returns (delay: nat)
      requires txFailTimes >= 1
      modifies this`maxFlag, this`delayTime
      ensures Latch(maxFlag, delayTime) == NextDelay(old(View()).latch, param.timing, txFailTimes, randomNum)
      ensures delay == delayTime
    {
      if txFailTimes == 1 {
        maxFlag := false;
      }
      if !maxFlag {
        delayTime := Exponential(param.timing, txFailTimes, randomNum);
      }
      if !maxFlag && param.timing.ceiling < delayTime {
        maxFlag := true;
      }
      if maxFlag {
        delayTime := param.timing.ceiling + randomNum;
      }
      return delayTime;
    }

    /** The frame of a new session, into the transmit buffer. */
    method LoadFrame(w: Source)
      requires Valid() && ValidSource(w)
      modifies this`frame, tx`count, tx.buf
      ensures Valid() && frame == LoadedFrame(old(View()), w)
    {
      if llrt == LlrtRun {
        tx.LoadCommTestCmd(w);
      } else if connStatus == Offline {
        tx.LoadConnCmd(w);
      } else if connStatus == Connected {
        if w.version == INCLINOMETER_VERSION {
          tx.LoadInclinometerPublishCmd(w);
        } else if w.version == COLLAPSE_VERSION {
          tx.LoadCollapsePublishCmd(w);
        }
      }
      frame := tx.Frame();
    }

    /** The channel check and the transmission. */
    method Transmit(w: World)
      requires Valid()
      modifies this`irq, this`loraState, this`txTimeout, this`frame, tx`count
      ensures Valid() && View() == Transmitted(old(View()), w)
    {
      irq := true;
      if w.cadClear {
        if tx.count > LORA_MTU {
          tx.count := 0;
          frame := [];
        }
        if !w.txOk {
          loraState := ReqTxFail;
        } else {
          txTimeout := true;
        }
      } else {
        loraState := ReqTxFail;
      }
    }

    /** The request is taken; the first attempt of a session loads the frame and starts the time slice. */
    method BeginAttempt(w: Source)
      requires Valid() && ValidSource(w)
      modifies this`loraState, this`lpmStat, this`frame, this`objActive, this`timeSlice, tx`count, tx.buf
      ensures Valid() && View() == AttemptBegun(old(View()), w)
    {
      loraState := ReqIdle;
      lpmStat := StaRun;
      if !objActive {
        LoadFrame(w);
        objActive := true;
        timeSlice := true;
      }
    }

    method StatusActive(w: World)
      requires Valid() && ValidSource(w.source)
      modifies this, tx`count, tx.buf
      ensures Valid() && View() == LoraSession.StatusActive(old(View()), w)
    {
      BeginAttempt(w.source);
      Transmit(w);
    }

    /** The loss-rate test's part of the stop handler. */
    method Finish(r: Report, w: World) returns (report: Option<Report>)
      modifies this`llrt
      ensures Outcome(View(), report) == AfterReport(old(View()), r, w)
    {
      if r == ReportTest && w.testOver {
        llrt := LlrtStop;
      }
      return Some(r);
    }

    /** The session is over: idle, and stopped in the sleep table. */
    method EndSession()
      modifies this`objActive, this`lpmStat
      ensures View() == Ended(old(View()))
    {
      objActive := false;
      lpmStat := StaStop;
    }

    /** No timer stays armed and the interrupt is off. */
    method Quiesce()
      modifies this`timeSlice, this`txTimeout, this`idleTimer, this`irq
      ensures View() == old(View()).(slice := false, txTimeout := false, idleTimer := false, irq := false)
    {
      timeSlice, txTimeout, idleTimer := false, false, false;
      irq := false;
    }

    /** A reception takes the request and stops waiting. */
    method TakeReception()
      modifies this`loraState, this`txTimeout, this`irq
      ensures View() == old(View()).(req := ReqIdle, txTimeout := false, irq := false)
    {
      loraState := ReqIdle;
      txTimeout := false;
      irq := false;
    }

    method StatusTxSuccess(w: World) returns (report: Option<Report>)
      modifies this
      ensures Outcome(View(), report) == LoraSession.StatusTxSuccess(old(View()), w)
    {
      TakeReception();
      report := None;
      if w.parseOk {
        txFailTimes := 0;
        if llrt == LlrtRun {
          timeSlice := false;
          EndSession();
          report := Finish(ReportTest, w);
        } else if connStatus == Offline {
          timeSlice := false;
          connStatus := Connected;
          EndSession();
          report := Finish(ReportLink, w);
        } else {
          loraState := ReqStop;
        }
      } else {
        loraState := ReqTxFail;
      }
    }

    /** The radio is put away until the back-off timer fires. */
    method BackOff(random: uint32)
      requires txFailTimes >= 1
      modifies this`irq, this`maxFlag, this`delayTime, this`idleTimer, this`lpmStat
      ensures View() == BackedOff(old(View()), param, random)
    {
      irq := false;
      var delay := LoraRandomDelay(random);
      idleTimer := true;
      if param.idleEnterLp {
        lpmStat := StaLp;
      }
    }

    method StatusTxFail(w: World)
      requires txFailTimes < 0xFFFF_FFFF
      modifies this
      ensures View() == LoraSession.StatusTxFail(old(View()), param, w)
    {
      loraState := ReqIdle;
      txFailTimes := U32(txFailTimes + 1);
      var txFailMaxTimes := param.txMaxFailTimes;
      if llrt == LlrtRun && w.singleShot {
        txFailMaxTimes := 1;
      }
      if txFailTimes >= txFailMaxTimes {
        loraState := ReqStop;
      } else {
        BackOff(w.random);
      }
    }

    /** The report of a session that ended by a stop; a disconnection takes the status with it. */
    method DecideReport() returns (outStatus: Report)
      modifies this`connStatus
      ensures outStatus == StopReport(old(View()))
      ensures View() == old(View()).(conn := if outStatus == ReportDiscon then Offline else old(connStatus))
    {
      if llrt == LlrtRun {
        outStatus := ReportTest;
      } else if preConnStatus == Offline {
        outStatus := ReportOffline;
      } else if txFailTimes != 0 {
        connStatus := Offline;
        outStatus := ReportDiscon;
      } else {
        outStatus := ReportConnect;
      }
    }

    method StatusStop(w: World) returns (report: Option<Report>)
      modifies this
      ensures Outcome(View(), report) == LoraSession.StatusStop(old(View()), w)
    {
      loraState := ReqIdle;
      Quiesce();
      EndSession();
      var outStatus := DecideReport();
      txFailTimes := 0;
      report := Finish(outStatus, w);
    }

    method LoraReset() returns (report: Option<Report>)
      modifies this
      ensures Outcome(View(), report) == Reset(old(View()))
      ensures old(Inv(View(), param)) ==> Inv(View(), param)
    {
      ghost var s := View();
      loraState := ReqIdle;
      connStatus, preConnStatus := Offline, Offline;
      txFailTimes := 0;
      Quiesce();
      EndSession();
      report := Some(ReportDiscon);
      if Inv(s, param) {
        InvStep(s, param, AReset);
      }
    }

    /** A requested loss-rate test takes over when no session is active. */
    method TakeOver()
      modifies this`llrt, this`loraState
      ensures View() == if TestTakesOver(old(View())) then old(View()).(llrt := LlrtRun, req := ReqActive)
                        else old(View())
    {
      if !objActive {
        if llrt == LlrtActive {
          llrt := LlrtRun;
          loraState := ReqActive;
        }
      }
    }

    /** One poll of the main loop, in any state the invariant allows. */
    method TaskOperate(w: World) returns (report: Option<Report>)
      requires Valid() && Inv(View(), param) && Enabled(View(), param, APoll(w))
      modifies this, tx`count, tx.buf
      ensures Valid() && Outcome(View(), report) == Poll(old(View()), param, w)
      ensures Inv(View(), param)
    {
      ghost var s := View();
      FailsBelowLimit(s, param);
      report := None;
      TakeOver();
      if loraState == ReqActive {
        StatusActive(w);
      } else if loraState == ReqTxSuccess {
        report := StatusTxSuccess(w);
      } else if loraState == ReqTxFail {
        StatusTxFail(w);
      } else if loraState == ReqStop {
        report := StatusStop(w);
      }
      InvPoll(s, param, w);
    }
  }
}
