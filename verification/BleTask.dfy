/** The Bluetooth task of bluetooth_low_power.c: a one-slot request overwritten by the radio's events, consumed by the
    poll of the main loop. */
module BleTask {
  import opened LowPowerTable

  datatype Sta = StaIdle | StaAdv | StaConn | StaDiscon | StaAdvTimeout | StaAdvStop | StaConnAbort

  /** ble_state, ble_obj.state, whether the advertising timer is armed, and the task's entry in the sleep table. */
  datatype Ble = Ble(req: Sta, state: Sta, advTimer: bool, lpm: TaskStat)

  /** The state after a poll, with the value it passed to the stop handler, if it called it. */
  datatype Polled = Polled(st: Ble, stopped: bool, why: Sta)

  function InitialBle(): Ble {
    Ble(StaIdle, StaIdle, false, StaRegister)
  }

  function Started(b: Ble): Ble {
    if b.state.StaIdle? then b.(lpm := StaRun, req := StaAdv) else b
  }

  function StopRequested(b: Ble): Ble {
    if b.state.StaAdv? then b.(req := StaAdvStop)
    else if b.state.StaConn? then b.(req := StaConnAbort)
    else b
  }

  function AdvTimerFired(b: Ble): Ble {
    b.(advTimer := false, req := StaAdvTimeout)
  }

  /** timedAdv: the configured advertising time is not zero. */
  function Operated(b: Ble, timedAdv: bool): Polled {
    match b.req
    case StaAdv =>
      Polled(b.(advTimer := b.advTimer || timedAdv, state := StaAdv, req := StaIdle, lpm := StaLp), false, StaIdle)
    case StaConn => Polled(b.(advTimer := false, state := StaConn, req := StaIdle), false, StaIdle)
    case StaDiscon => Polled(b.(state := StaIdle, req := StaAdvStop, lpm := StaRun), false, StaIdle)
    case StaAdvTimeout =>
      Polled(b.(advTimer := false, state := StaIdle, req := StaIdle, lpm := StaStop), true, StaAdvTimeout)
    case StaAdvStop =>
      Polled(b.(advTimer := false, state := StaIdle, req := StaIdle, lpm := StaStop), true, StaAdvStop)
    case StaConnAbort => Polled(b.(state := StaConnAbort, req := StaIdle), false, StaIdle)
    case StaIdle => Polled(b, false, StaIdle)
  }

  predicate Busy(b: Ble) {
    !b.req.StaIdle? || !b.state.StaIdle?
  }

  /** Timed advertising always ends: its timer is armed or something else is already requested. Advertising that is not
      timed has no timer. */
  predicate AdvertisingEnds(b: Ble, timedAdv: bool) {
    if timedAdv then b.state.StaAdv? ==> b.advTimer || !b.req.StaIdle? else !b.advTimer
  }

  /** The advertising timer is armed only while the task advertises, or while the stop that a lost connection asked for
      is still pending; so it never runs in a connection or at rest, and a timeout is requested of no connected task. */
  predicate TimerInv(b: Ble) {
    && (b.state.StaConn? || b.state.StaConnAbort? ==> !b.advTimer)
    && (b.state.StaIdle? && b.req.StaIdle? ==> !b.advTimer)
    && (b.req.StaAdvTimeout? ==> b.state.StaAdv? || b.state.StaIdle?)
    && (b.req.StaConnAbort? ==> b.state.StaConn?)
    && (b.state.StaIdle? || b.state.StaAdv? || b.state.StaConn? || b.state.StaConnAbort?)
  }

  /** The entry in the sleep table keeps the firmware awake neither while the task advertises nor at rest, but does so
      while it is about to advertise, or to stop after a lost connection. */
  predicate SleepEntry(b: Ble) {
    && (b.state.StaAdv? ==> b.lpm.StaLp?)
    && (b.state.StaIdle? && b.req.StaIdle? ==> !b.lpm.StaRun?)
    && (b.state.StaIdle? && (b.req.StaAdv? || b.req.StaAdvStop?) ==> b.lpm.StaRun?)
  }

  /** The task gives up being busy only through its stop handler. */
  lemma OnlyStopHandlerEnds(b: Ble, timedAdv: bool)
    requires Busy(b)
    ensures !Busy(Operated(b, timedAdv).st) <==> Operated(b, timedAdv).stopped
    ensures Operated(b, timedAdv).stopped ==>
              Operated(b, timedAdv).why.StaAdvTimeout? || Operated(b, timedAdv).why.StaAdvStop?
  {
  }

  class BleTask {
    /** ble_state and ble_obj.state. */
    var bleState: Sta
    var objState: Sta
    var advTimer: bool
    var lpmStat: TaskStat

    /** The state of the transition system that the variables stand for. */
    ghost function View(): Ble
      reads this
    {
      Ble(bleState, objState, advTimer, lpmStat)
    }

    constructor ()
      ensures View() == InitialBle() && TimerInv(View())
    {
      bleState, objState, advTimer, lpmStat := StaIdle, StaIdle, false, StaRegister;
    }

    method TaskStart()
      modifies this
      ensures View() == Started(old(View())) && Busy(View())
      ensures old(TimerInv(View())) ==> TimerInv(View())
    {
      if objState == StaIdle {
        lpmStat := StaRun;
        bleState := StaAdv;
      }
    }

    method TaskStop()
      modifies this
      ensures View() == StopRequested(old(View()))
      ensures Busy(View()) <==> old(Busy(View()))
      ensures old(TimerInv(View())) ==> TimerInv(View())
    {
      if objState != StaIdle {
        if objState == StaAdv {
          bleState := StaAdvStop;
        } else if objState == StaConn {
          bleState := StaConnAbort;
        }
      }
    }

    method SwtBleAdvCb()
      requires advTimer
      modifies this
      ensures View() == AdvTimerFired(old(View())) && Busy(View())
      ensures old(TimerInv(View())) ==> TimerInv(View())
    {
      advTimer := false;
      bleState := StaAdvTimeout;
    }

    method ConnHandler()
      modifies this
      ensures View() == old(View()).(req := StaConn) && Busy(View())
      ensures old(TimerInv(View())) ==> TimerInv(View())
    {
      bleState := StaConn;
    }

    method DisconnHandler()
      modifies this
      ensures View() == old(View()).(req := StaDiscon) && Busy(View())
      ensures old(TimerInv(View())) ==> TimerInv(View())
    {
      bleState := StaDiscon;
    }

    /** The poll. The timeout case falls through into the stop case; the stop handler sees which one it was. */
    method TaskOperate(timedAdv: bool) returns (stopped: bool, why: Sta)
      modifies this
      ensures Polled(View(), stopped, why) == Operated(old(View()), timedAdv)
      ensures old(Busy(View())) ==> (Busy(View()) <==> !stopped)
      ensures AdvertisingEnds(old(View()), timedAdv) ==> AdvertisingEnds(View(), timedAdv)
      ensures old(TimerInv(View())) ==>
                TimerInv(View())
                && (stopped && why == StaAdvTimeout ==> old(objState) == StaAdv || old(objState) == StaIdle)
    {
      stopped, why := false, StaIdle;
      if bleState == StaAdv {
        if timedAdv {
          advTimer := true;
        }
        objState := bleState;
        bleState := StaIdle;
        if objState != StaIdle {
          lpmStat := StaLp;
        }
      } else if bleState == StaConn {
        advTimer := false;
        objState := bleState;
        bleState := StaIdle;
      } else if bleState == StaDiscon {
        objState := StaIdle;
        bleState := StaAdvStop;
        lpmStat := StaRun;
      } else if bleState == StaAdvTimeout || bleState == StaAdvStop {
        why := bleState;
        advTimer := false;
        objState := StaIdle;
        bleState := StaIdle;
        lpmStat := StaStop;
        stopped := true;
      } else if bleState == StaConnAbort {
        objState := bleState;
        bleState := StaIdle;
      }
    }
  }
}
