/** The system sleep task of system_low_power.c. */
module SlpTask {
  import opened LowPowerTable

  datatype Sta = SlpIdle | SlpActive | SlpTimeout | SlpStop

  /** slp_state, slp_obj.state, whether the wake-up timer is armed, and the task's entry in the sleep table. */
  datatype Slp = Slp(req: Sta, state: Sta, timer: bool, lpm: TaskStat)

  function InitialSlp(): Slp {
    Slp(SlpIdle, SlpIdle, false, StaRegister)
  }

  function Started(s: Slp): Slp {
    if s.state.SlpIdle? then s.(lpm := StaRun, req := SlpActive, state := SlpActive) else s
  }

  function StopRequested(s: Slp): Slp {
    if !s.state.SlpIdle? then s.(req := SlpStop) else s
  }

  function TimerFired(s: Slp): Slp {
    s.(timer := false, req := SlpTimeout)
  }

  function ResetSlp(s: Slp): Slp {
    s.(req := SlpIdle, timer := false, state := SlpIdle, lpm := StaStop)
  }

  /** The poll ends the sleep, and calls the stop handler, exactly when a timeout or a stop is requested. */
  predicate Ends(s: Slp) {
    s.req.SlpTimeout? || s.req.SlpStop?
  }

  function Operated(s: Slp): Slp {
    if s.req.SlpActive? then s.(req := SlpIdle, state := SlpActive, timer := true, lpm := StaLp)
    else if Ends(s) then ResetSlp(s)
    else s
  }

  /** A sleep always has something to end it, and nothing is armed or requested outside a sleep. The entry in the sleep
      table keeps the firmware awake until the sleep has begun, and not after that. */
  predicate SlpInv(s: Slp) {
    && (s.state.SlpActive? && s.req.SlpActive? ==> s.lpm.StaRun?)
    && (s.state.SlpActive? && s.timer ==> s.lpm.StaLp?)
    && (s.state.SlpIdle? ==> !s.lpm.StaRun?)
    && (s.state.SlpIdle? || s.state.SlpActive?)
    && (s.state.SlpActive? ==> s.timer || !s.req.SlpIdle?)
    && (s.state.SlpIdle? ==> !s.timer && s.req.SlpIdle?)
  }

  class SlpTask {
    /** slp_state and slp_obj.state. */
    var slpState: Sta
    var objState: Sta
    var timer: bool
    var lpmStat: TaskStat

    /** The state of the transition system that the variables stand for. */
    ghost function View(): Slp
      reads this
    {
      Slp(slpState, objState, timer, lpmStat)
    }

    constructor ()
      ensures View() == InitialSlp() && SlpInv(View())
    {
      slpState, objState, timer, lpmStat := SlpIdle, SlpIdle, false, StaRegister;
    }

    method TaskStart()
      modifies this
      ensures View() == Started(old(View()))
      ensures old(SlpInv(View())) ==> SlpInv(View())
    {
      if objState == SlpIdle {
        lpmStat := StaRun;
        slpState := SlpActive;
        objState := SlpActive;
      }
    }

    method TaskStop()
      modifies this
      ensures View() == StopRequested(old(View()))
      ensures old(SlpInv(View())) ==> SlpInv(View())
    {
      if objState != SlpIdle {
        slpState := SlpStop;
      }
    }

    method SwtSlpCb()
      requires timer
      modifies this
      ensures View() == TimerFired(old(View()))
      ensures old(SlpInv(View())) ==> SlpInv(View())
    {
      timer := false;
      slpState := SlpTimeout;
    }

    method SlpReset()
      modifies this
      ensures View() == ResetSlp(old(View())) && SlpInv(View())
    {
      slpState := SlpIdle;
      timer := false;
      objState := SlpIdle;
      lpmStat := StaStop;
    }

    method SlpOperate() returns (stopped: bool)
      modifies this
      ensures View() == Operated(old(View())) && stopped == Ends(old(View()))
      ensures old(SlpInv(View())) ==> SlpInv(View())
    {
      stopped := false;
      if slpState == SlpActive {
        slpState := SlpIdle;
        objState := SlpActive;
        timer := true;
        lpmStat := StaLp;
      } else if slpState == SlpTimeout || slpState == SlpStop {
        slpState := SlpIdle;
        timer := false;
        objState := SlpIdle;
        lpmStat := StaStop;
        stopped := true;
      }
    }
  }
}
