/** sys_proc.c itself: the scheduler and the stop handlers, which set and clear event bits in place, over the task
    objects they start. Each method is proved against the transition system of SystemRun. */
module SysProc {
  import opened LoraFrames
  import opened LoraSession
  import opened LoraTransmission
  import opened SystemRun
  import Ble = BleTask
  import Slp = SlpTask

  function Served(s: Sys, e: Evt): Sys {
    if e !in s.evt then s
    else
      var t := s.(evt := s.evt - {e});
      match e
      case EvtInit => t
      case EvtBle => t.(ble := Ble.Started(t.ble))
      case EvtCollapse => t.(collapse := true)
      case EvtLora => if ValidGateway(t.gateway) then t.(lora := TaskStart(t.lora)) else t
      case EvtSysLp => t.(slp := Slp.Started(t.slp))
      case EvtSignalDet => t
  }

  /** Serving the six bits in turn leaves none, and starts what the scheduler's transition starts. */
  lemma ServedInTurn(s: Sys)
    ensures Served(Served(Served(Served(Served(Served(s, EvtInit), EvtBle), EvtCollapse), EvtLora), EvtSysLp),
                   EvtSignalDet)
         == Scheduled(s)
  {
    var s1 := Served(s, EvtInit);
    var s2 := Served(s1, EvtBle);
    var s3 := Served(s2, EvtCollapse);
    var s4 := Served(s3, EvtLora);
    var s5 := Served(s4, EvtSysLp);
    var s6 := Served(s5, EvtSignalDet);
    forall e: Evt
      ensures e !in s6.evt
    {
      match e
      case EvtInit | EvtBle | EvtCollapse =>
      case EvtLora | EvtSysLp | EvtSignalDet =>
    }
    assert s6.evt == {};
  }

  class SysProc {
    var sysTaskEvt: set<Evt>
    var loraDisconn: bool
    var gatewayAddr: nat
    var collapseActive: bool
    const config: Config

    const bleTask: Ble.BleTask
    const loraTask: LoraTask
    const slpTask: Slp.SlpTask

    ghost predicate Valid()
      reads this, loraTask, loraTask.tx, loraTask.tx.buf
    {
      loraTask.Valid() && loraTask.param == config.param
    }

    ghost function View(): Sys
      reads this, bleTask, loraTask, slpTask
    {
      Sys(sysTaskEvt, loraDisconn, gatewayAddr, loraTask.View(), bleTask.View(), slpTask.View(), collapseActive)
    }

    constructor (c: Config, gateway: nat)
      ensures Valid() && config == c && View() == Startup(gateway)
    {
      config := c;
      gatewayAddr := gateway;
      bleTask := new Ble.BleTask();
      loraTask := new LoraTask(c.param);
      slpTask := new Slp.SlpTask();
      collapseActive := false;
      loraDisconn := false;
      sysTaskEvt := {};
      new;
      SysStartup();
    }

    method SetTaskEvt(e: Evt)
      requires Valid()
      modifies this
      ensures Valid() && View() == WithEvt(old(View()), e)
    {
      sysTaskEvt := sysTaskEvt + {e};
    }

    method SysStartup()
      requires Valid()
      modifies this
      ensures Valid() && View() == old(View()).(evt := old(sysTaskEvt) + Startup(gatewayAddr).evt)
    {
      if gatewayAddr != 0 && gatewayAddr != 0xFFFF_FFFF_FFFF_FFFF {
        SetTaskEvt(EvtLora);
      } else {
        SetTaskEvt(EvtBle);
      }
      SetTaskEvt(EvtBle);
    }

    /** One event bit of the scheduler: cleared, and its task started. */
    method Serve(e: Evt)
      requires Valid()
      modifies this, bleTask, loraTask, slpTask
      ensures Valid() && View() == Served(old(View()), e)
    {
      if e in sysTaskEvt {
        sysTaskEvt := sysTaskEvt - {e};
        match e
        case EvtInit =>
        case EvtBle => bleTask.TaskStart();
        case EvtCollapse => collapseActive := true;
        case EvtLora =>
          if gatewayAddr != 0 && gatewayAddr != 0xFFFF_FFFF_FFFF_FFFF {
            loraTask.TaskStart();
          }
        case EvtSysLp => slpTask.TaskStart();
        case EvtSignalDet =>
      }
    }

    method SysTaskSchd()
      requires Valid()
      modifies this, bleTask, loraTask, slpTask
      ensures Valid() && View() == Scheduled(old(View()))
    {
      ServedInTurn(View());
      Serve(EvtInit);
      Serve(EvtBle);
      Serve(EvtCollapse);
      Serve(EvtLora);
      Serve(EvtSysLp);
      Serve(EvtSignalDet);
    }

    method BleTaskStopHandler(why: Ble.Sta)
      requires Valid()
      modifies this
      ensures Valid() && View() == BleStopped(old(View()), why)
    {
      SetTaskEvt(EvtBle);
      if loraDisconn {
        if why == Ble.StaAdvTimeout {
          loraDisconn := false;
          gatewayAddr := DEFAULT_GATEWAY;
          SetTaskEvt(EvtLora);
        } else if why == Ble.StaAdvStop {
          SetTaskEvt(EvtLora);
        }
      }
    }

    method CollapseTaskStopHandler(wasActive: bool)
      requires Valid()
      modifies this
      ensures Valid() && View() == CollapseStopped(old(View()), config, wasActive)
    {
      if config.version == INCLINOMETER_VERSION {
        if config.iotMode == 0 {
          SetTaskEvt(EvtLora);
        }
      } else if config.version == COLLAPSE_VERSION {
        if wasActive {
          SetTaskEvt(EvtLora);
        }
      }
    }

    method LoraTaskStopHandler(r: Report)
      requires Valid()
      modifies this
      ensures Valid() && View() == LoraStopped(old(View()), config, r)
    {
      if r == ReportTest {
        SetTaskEvt(EvtSysLp);
      } else if r == ReportOffline {
        loraDisconn := true;
        SetTaskEvt(EvtBle);
      } else if r == ReportDiscon {
        SetTaskEvt(EvtLora);
      } else if r == ReportLink {
        SetTaskEvt(EvtCollapse);
      } else if r == ReportConnect {
        if config.version == INCLINOMETER_VERSION {
          SetTaskEvt(EvtSysLp);
        } else if config.version == COLLAPSE_VERSION {
          if config.collapseMode == TriggerMode {
            SetTaskEvt(EvtCollapse);
          } else if config.collapseMode == PeriodMode {
            SetTaskEvt(EvtSysLp);
          }
        }
      }
    }

    method SlpTaskStopHandler()
      requires Valid()
      modifies this
      ensures Valid() && View() == SlpStopped(old(View()))
    {
      if loraTask.llrt == LlrtRun {
        SetTaskEvt(EvtLora);
      } else {
        SetTaskEvt(EvtCollapse);
      }
    }

    /** The LoRa task's poll, before which a loss-rate test that takes over resets the sleep task. */
    method OperateLora(w: World) returns (report: Option<Report>)
      requires Valid() && Inv(loraTask.View(), config.param)
      requires LoraSession.Enabled(loraTask.View(), config.param, APoll(w))
      modifies loraTask, loraTask.tx`count, loraTask.tx.buf, slpTask
      ensures Valid()
      ensures Outcome(loraTask.View(), report) == Poll(old(loraTask.View()), config.param, w)
      ensures slpTask.View() == if TestTakesOver(old(loraTask.View())) then Slp.ResetSlp(old(slpTask.View()))
                                else old(slpTask.View())
    {
      if !loraTask.objActive && loraTask.llrt == LlrtActive {
        slpTask.SlpReset();
      }
      report := loraTask.TaskOperate(w);
    }

    /** The stop handler, if there is a report. */
    method HandleReport(report: Option<Report>)
      requires Valid()
      modifies this
      ensures Valid() && View() == Reported(old(View()), config, report)
    {
      match report {
        case None =>
        case Some(r) => LoraTaskStopHandler(r);
      }
    }

    /** The main loop's poll of the LoRa task, with the sleep task's reset and the stop handler it may call. */
    method PollLora(w: World)
      requires Valid() && SysInv(View(), config) && LoraSession.Enabled(loraTask.View(), config.param, APoll(w))
      modifies this, loraTask, loraTask.tx`count, loraTask.tx.buf, slpTask
      ensures Valid() && View() == Next(old(View()), config, LoraStep(APoll(w)))
      ensures SysInv(View(), config)
    {
      ghost var s := View();
      var report := OperateLora(w);
      HandleReport(report);
      SysInvStep(s, config, LoraStep(APoll(w)));
    }

    method PollBle()
      requires Valid()
      modifies this, bleTask
      ensures Valid() && View() == Next(old(View()), config, BlePoll)
    {
      var stopped, why := bleTask.TaskOperate(config.timedAdv);
      if stopped {
        BleTaskStopHandler(why);
      }
    }

    method PollSlp()
      requires Valid()
      modifies this, slpTask
      ensures Valid() && View() == Next(old(View()), config, SlpPoll)
    {
      var stopped := slpTask.SlpOperate();
      if stopped {
        SlpTaskStopHandler();
      }
    }

    method ResetLora()
      requires Valid()
      modifies this, loraTask
      ensures Valid() && View() == Next(old(View()), config, LoraStep(AReset))
    {
      var report := loraTask.LoraReset();
      HandleReport(report);
    }
  }
}
