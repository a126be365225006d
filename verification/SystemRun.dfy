/** The firmware's cycle of tasks as one transition system: the event bits of sys_proc.c, the LoRa, Bluetooth and sleep
    machines, and the collapse task as something that runs until it calls its stop handler. */
module SystemRun {
  import opened MachineInts
  import opened LoraFrames
  import opened LowPowerTable
  import opened LoraSession
  import opened LoraHistory
  import Ble = BleTask
  import Slp = SlpTask

  datatype Evt = EvtInit | EvtBle | EvtCollapse | EvtLora | EvtSysLp | EvtSignalDet

  datatype CollapseMode = TriggerMode | PeriodMode

  /** Settings fixed during a run. */
  datatype Config = Config(version: byte, iotMode: byte, collapseMode: CollapseMode, timedAdv: bool, param: Param)

  /** sys_task_evt, lora_disconn, the gateway address as a 64-bit number, and the tasks. */
  datatype Sys = Sys(
    evt: set<Evt>, disconn: bool, gateway: nat, lora: Lora, ble: Ble.Ble, slp: Slp.Slp, collapse: bool)

  const DEFAULT_GATEWAY: nat := 0x0100_1609_1920_0164

  predicate ValidGateway(addr: nat) {
    addr != 0 && addr != 0xFFFF_FFFF_FFFF_FFFF
  }

  function Startup(gateway: nat): Sys {
    Sys(if ValidGateway(gateway) then {EvtLora, EvtBle} else {EvtBle}, false, gateway,
        InitialLora(), Ble.InitialBle(), Slp.InitialSlp(), false)
  }

  function Scheduled(s: Sys): Sys {
    var ble := if EvtBle in s.evt then Ble.Started(s.ble) else s.ble;
    var collapse := s.collapse || EvtCollapse in s.evt;
    var lora := if EvtLora in s.evt && ValidGateway(s.gateway) then TaskStart(s.lora) else s.lora;
    var slp := if EvtSysLp in s.evt then Slp.Started(s.slp) else s.slp;
    s.(evt := {}, ble := ble, collapse := collapse, lora := lora, slp := slp)
  }

  function WithEvt(s: Sys, e: Evt): Sys {
    s.(evt := s.evt + {e})
  }

  function LoraStopped(s: Sys, c: Config, r: Report): Sys {
    match r
    case ReportTest => WithEvt(s, EvtSysLp)
    case ReportOffline => WithEvt(s.(disconn := true), EvtBle)
    case ReportDiscon => WithEvt(s, EvtLora)
    case ReportLink => WithEvt(s, EvtCollapse)
    case ReportConnect =>
      if c.version == INCLINOMETER_VERSION then WithEvt(s, EvtSysLp)
      else if c.version == COLLAPSE_VERSION then
        (if c.collapseMode.TriggerMode? then WithEvt(s, EvtCollapse) else WithEvt(s, EvtSysLp))
      else s
  }

  function BleStopped(s: Sys, why: Ble.Sta): Sys {
    var s1 := WithEvt(s, EvtBle);
    if s.disconn && why.StaAdvTimeout? then WithEvt(s1.(disconn := false, gateway := DEFAULT_GATEWAY), EvtLora)
    else if s.disconn && why.StaAdvStop? then WithEvt(s1, EvtLora)
    else s1
  }

  /** wasActive: the state handed over is COLLAPSE_ACTIVE. */
  function CollapseStopped(s: Sys, c: Config, wasActive: bool): Sys {
    if c.version == INCLINOMETER_VERSION then (if c.iotMode == 0 then WithEvt(s, EvtLora) else s)
    else if c.version == COLLAPSE_VERSION then (if wasActive then WithEvt(s, EvtLora) else s)
    else s
  }

  function SlpStopped(s: Sys): Sys {
    if s.lora.llrt.LlrtRun? then WithEvt(s, EvtLora) else WithEvt(s, EvtCollapse)
  }

  datatype Action =
    | Schedule
    | LoraStep(step: LoraSession.Action)
    | BleAdvTimer | BleConnects | BleDisconnects | BleStop | BlePoll
    | SlpTimer | SlpStop | SlpPoll
    | CollapseDone(wasActive: bool)
    | HwSignal
    | GatewayWritten(addr: nat)

  /** The LoRa task is started by the scheduler alone; timers fire only while armed. */
  ghost predicate Enabled(s: Sys, c: Config, a: Action) {
    match a
    case LoraStep(l) => !l.AStart? && LoraSession.Enabled(s.lora, c.param, l)
    case BleAdvTimer => s.ble.advTimer
    case SlpTimer => s.slp.timer
    case CollapseDone(_) => s.collapse
    case _ => true
  }

  ghost function LoraStepped(s: Sys, c: Config, l: LoraSession.Action): Sys
    requires LoraSession.Enabled(s.lora, c.param, l)
  {
    var o := Step(s.lora, c.param, l);
    var slp := if l.APoll? && TestTakesOver(s.lora) then Slp.ResetSlp(s.slp) else s.slp;
    Reported(s.(lora := o.st, slp := slp), c, o.report)
  }

  /** The LoRa stop handler, if there is a report. */
  function Reported(s: Sys, c: Config, report: Option<Report>): Sys {
    match report
    case None => s
    case Some(r) => LoraStopped(s, c, r)
  }

  ghost function Next(s: Sys, c: Config, a: Action): Sys
    requires Enabled(s, c, a)
  {
    match a
    case Schedule => Scheduled(s)
    case LoraStep(l) => LoraStepped(s, c, l)
    case BleAdvTimer => s.(ble := Ble.AdvTimerFired(s.ble))
    case BleConnects => s.(ble := s.ble.(req := Ble.StaConn))
    case BleDisconnects => s.(ble := s.ble.(req := Ble.StaDiscon))
    case BleStop => s.(ble := Ble.StopRequested(s.ble))
    case BlePoll =>
      var p := Ble.Operated(s.ble, c.timedAdv);
      if p.stopped then BleStopped(s.(ble := p.st), p.why) else s.(ble := p.st)
    case SlpTimer => s.(slp := Slp.TimerFired(s.slp))
    case SlpStop => s.(slp := Slp.StopRequested(s.slp))
    case SlpPoll =>
      var t := s.(slp := Slp.Operated(s.slp));
      if Slp.Ends(s.slp) then SlpStopped(t) else t
    case CollapseDone(wasActive) => CollapseStopped(s.(collapse := false), c, wasActive)
    case HwSignal => WithEvt(s, EvtBle)
    case GatewayWritten(addr) => s.(gateway := addr)
  }

  // The token that keeps the measure-and-report cycle going.

  predicate LoraHolds(s: Sys) {
    EvtLora in s.evt || !s.lora.req.ReqIdle? || s.lora.active
  }

  predicate CollapseHolds(s: Sys) {
    EvtCollapse in s.evt || s.collapse
  }

  predicate SlpHolds(s: Sys) {
    EvtSysLp in s.evt || !s.slp.state.SlpIdle?
  }

  predicate BleAlive(s: Sys) {
    EvtBle in s.evt || Ble.Busy(s.ble)
  }

  predicate BleHolds(s: Sys) {
    s.disconn && BleAlive(s)
  }

  predicate Token(s: Sys) {
    LoraHolds(s) || CollapseHolds(s) || SlpHolds(s) || BleHolds(s)
  }

  /** The inclinometer in periodic mode, the configuration whose cycle sys_proc.c alone decides. */
  predicate Periodic(c: Config) {
    c.version == INCLINOMETER_VERSION && c.iotMode == 0
  }

  predicate SysInv(s: Sys, c: Config) {
    && Inv(s.lora, c.param) && Slp.SlpInv(s.slp) && Ble.AdvertisingEnds(s.ble, c.timedAdv) && BleAlive(s)
    && Ble.TimerInv(s.ble) && Ble.SleepEntry(s.ble)
  }

  lemma BlePollKeepsInv(s: Sys, c: Config)
    requires SysInv(s, c)
    ensures SysInv(Next(s, c, BlePoll), c)
  {
    var p := Ble.Operated(s.ble, c.timedAdv);
    if Ble.Busy(s.ble) {
      Ble.OnlyStopHandlerEnds(s.ble, c.timedAdv);
    }
    assert Next(s, c, BlePoll).ble == p.st && Next(s, c, BlePoll).lora == s.lora && Next(s, c, BlePoll).slp == s.slp;
  }

  lemma ScheduleKeepsInv(s: Sys, c: Config)
    requires SysInv(s, c)
    ensures SysInv(Scheduled(s), c)
  {
    InvStep(s.lora, c.param, AStart);
  }

  lemma LoraStepKeepsInv(s: Sys, c: Config, l: LoraSession.Action)
    requires SysInv(s, c) && Enabled(s, c, LoraStep(l))
    ensures SysInv(LoraStepped(s, c, l), c)
  {
    InvStep(s.lora, c.param, l);
    var t := LoraStepped(s, c, l);
    assert t.lora == Step(s.lora, c.param, l).st && t.ble == s.ble && s.evt <= t.evt;
    assert t.slp == s.slp || t.slp == Slp.ResetSlp(s.slp);
  }

  lemma SysInvStep(s: Sys, c: Config, a: Action)
    requires SysInv(s, c) && Enabled(s, c, a)
    ensures SysInv(Next(s, c, a), c)
  {
    match a
    case LoraStep(l) => LoraStepKeepsInv(s, c, l);
    case Schedule => ScheduleKeepsInv(s, c);
    case BlePoll => BlePollKeepsInv(s, c);
    case CollapseDone(_) => assert Next(s, c, a).lora == s.lora && Next(s, c, a).ble == s.ble;
    case SlpPoll => assert Next(s, c, a).lora == s.lora && Next(s, c, a).ble == s.ble;
    case _ =>
  }

  /** The only step that ends the cycle: the scheduler consumes the LoRa event while the configured gateway address is
      invalid and nothing else holds the token. */
  predicate LosesToken(s: Sys, a: Action) {
    && a.Schedule? && EvtLora in s.evt && !ValidGateway(s.gateway)
    && !s.lora.active && s.lora.req.ReqIdle?
    && !CollapseHolds(s) && !SlpHolds(s) && !BleHolds(s)
  }

  lemma LoraStepKeepsToken(s: Sys, c: Config, l: LoraSession.Action)
    requires Periodic(c) && SysInv(s, c) && Token(s) && Enabled(s, c, LoraStep(l))
    ensures Token(LoraStepped(s, c, l))
  {
    ReportsEndSessions(s.lora, c.param, l);
    var o := Step(s.lora, c.param, l);
    if l.APoll? && TestTakesOver(s.lora) {
      assert o.st.active;
    }
    if o.report.None? && !s.lora.active && !s.lora.req.ReqIdle? {
      assert !o.st.req.ReqIdle? || o.st.active;
    }
  }

  /** In periodic mode a step loses the token exactly when it is the one described above. */
  lemma TokenLostExactly(s: Sys, c: Config, a: Action)
    requires Periodic(c) && SysInv(s, c) && Token(s) && Enabled(s, c, a)
    ensures Token(Next(s, c, a)) <==> !LosesToken(s, a)
  {
    match a
    case LoraStep(l) => LoraStepKeepsToken(s, c, l);
    case BlePoll =>
      if Ble.Busy(s.ble) {
        Ble.OnlyStopHandlerEnds(s.ble, c.timedAdv);
      }
    case _ =>
  }

  // Whole runs.

  /** s is reached from startup with this gateway address by the given steps, each taken when enabled. */
  ghost predicate Run(c: Config, gateway: nat, steps: seq<Action>, s: Sys)
    decreases |steps|
  {
    if steps == [] then s == Startup(gateway)
    else
      var before, a := steps[..|steps| - 1], steps[|steps| - 1];
      exists r :: Run(c, gateway, before, r) && Taken(r, c, a, s)
  }

  ghost predicate Taken(r: Sys, c: Config, a: Action, s: Sys) {
    Enabled(r, c, a) && s == Next(r, c, a)
  }

  predicate OnlyValidGateways(steps: seq<Action>) {
    forall i :: 0 <= i < |steps| && steps[i].GatewayWritten? ==> ValidGateway(steps[i].addr)
  }

  lemma {:induction false} RunInv(c: Config, gateway: nat, steps: seq<Action>, s: Sys)
    requires Run(c, gateway, steps, s)
    ensures SysInv(s, c)
    decreases |steps|
  {
    if steps != [] {
      var before, a := steps[..|steps| - 1], steps[|steps| - 1];
      var r :| Run(c, gateway, before, r) && Taken(r, c, a, s);
      RunInv(c, gateway, before, r);
      SysInvStep(r, c, a);
    }
  }

  lemma GatewayStaysValid(s: Sys, c: Config, a: Action)
    requires Enabled(s, c, a) && ValidGateway(s.gateway) && (a.GatewayWritten? ==> ValidGateway(a.addr))
    ensures ValidGateway(Next(s, c, a).gateway)
  {
  }

  lemma TokenStep(r: Sys, c: Config, a: Action, s: Sys)
    requires Periodic(c) && SysInv(r, c) && Token(r) && Taken(r, c, a, s)
    requires ValidGateway(r.gateway) && (a.GatewayWritten? ==> ValidGateway(a.addr))
    ensures Token(s) && ValidGateway(s.gateway)
  {
    TokenLostExactly(r, c, a);
    GatewayStaysValid(r, c, a);
  }

  /** The measure-and-report cycle is never lost: in periodic mode, with a valid gateway address at startup and in every
      later write, every reachable state has a task that holds the token, and the tasks that hold it can move. */
  lemma {:induction false} TokenConserved(c: Config, gateway: nat, steps: seq<Action>, s: Sys)
    requires Periodic(c) && ValidGateway(gateway) && OnlyValidGateways(steps) && Run(c, gateway, steps, s)
    ensures Token(s) && ValidGateway(s.gateway)
    ensures NotStuck(s.lora) && Slp.SlpInv(s.slp) && Ble.AdvertisingEnds(s.ble, c.timedAdv)
    decreases |steps|
  {
    RunInv(c, gateway, steps, s);
    if steps != [] {
      var before, a := steps[..|steps| - 1], steps[|steps| - 1];
      var r :| Run(c, gateway, before, r) && Taken(r, c, a, s);
      TokenConserved(c, gateway, before, r);
      RunInv(c, gateway, before, r);
      assert steps[|steps| - 1] == a;
      TokenStep(r, c, a, s);
    }
  }

  /** In every configuration Bluetooth stays reachable: its event is pending or the task is busy, whatever happens. */
  lemma BluetoothNeverLost(c: Config, gateway: nat, steps: seq<Action>, s: Sys)
    requires Run(c, gateway, steps, s)
    ensures BleAlive(s)
  {
    RunInv(c, gateway, steps, s);
  }

  /** The only steps that bring a lost cycle back: a reset of the LoRa task, and the poll at which a requested loss-rate
      test takes over. */
  predicate RestoresToken(s: Sys, a: Action) {
    a.LoraStep? && (a.step.AReset? || (a.step.APoll? && TestTakesOver(s.lora)))
  }

  /** Once lost, the token stays lost exactly until such a step. */
  lemma TokenRegainedExactly(s: Sys, c: Config, a: Action)
    requires SysInv(s, c) && !Token(s) && Enabled(s, c, a)
    ensures Token(Next(s, c, a)) <==> RestoresToken(s, a)
  {
    match a
    case LoraStep(l) => LoraStepWithoutToken(s, c, l);
    case BlePoll =>
      assert !s.disconn;
      assert Next(s, c, a).evt <= s.evt + {EvtBle} && Next(s, c, a).lora == s.lora && Next(s, c, a).slp == s.slp;
    case _ =>
  }

  lemma LoraStepWithoutToken(s: Sys, c: Config, l: LoraSession.Action)
    requires SysInv(s, c) && !Token(s) && Enabled(s, c, LoraStep(l))
    ensures Token(LoraStepped(s, c, l)) <==> RestoresToken(s, LoraStep(l))
    ensures !RestoresToken(s, LoraStep(l)) ==>
              || LoraStepped(s, c, l) == s
              || (l.ATestRequest? && LoraStepped(s, c, l) == s.(lora := s.lora.(llrt := LlrtActive)))
  {
    if l.APoll? && TestTakesOver(s.lora) {
      assert Step(s.lora, c.param, l).st.active;
    }
  }

  /** t is reached from s by the given steps. */
  ghost predicate Continues(s: Sys, c: Config, steps: seq<Action>, t: Sys)
    decreases |steps|
  {
    if steps == [] then s == t else Enabled(s, c, steps[0]) && Continues(Next(s, c, steps[0]), c, steps[1..], t)
  }

  predicate NoRestart(steps: seq<Action>) {
    forall i :: 0 <= i < |steps| && steps[i].LoraStep? ==> !steps[i].step.AReset? && !steps[i].step.ATestRequest?
  }

  lemma {:induction false} TokenStaysLost(s: Sys, c: Config, steps: seq<Action>, t: Sys)
    requires SysInv(s, c) && !Token(s) && !s.lora.llrt.LlrtActive? && NoRestart(steps) && Continues(s, c, steps, t)
    ensures !Token(t)
    decreases |steps|
  {
    if steps != [] {
      var a, r := steps[0], Next(s, c, steps[0]);
      assert a.LoraStep? ==> !a.step.AReset? && !a.step.ATestRequest?;
      TokenRegainedExactly(s, c, a);
      SysInvStep(s, c, a);
      LostTestStaysIdle(s, c, a);
      TokenStaysLost(r, c, steps[1..], t);
    }
  }

  lemma LostTestStaysIdle(s: Sys, c: Config, a: Action)
    requires SysInv(s, c) && !Token(s) && !s.lora.llrt.LlrtActive? && Enabled(s, c, a)
    requires a.LoraStep? ==> !a.step.AReset? && !a.step.ATestRequest?
    ensures !Next(s, c, a).lora.llrt.LlrtActive?
  {
    if a.LoraStep? {
      LoraStepWithoutToken(s, c, a.step);
    }
  }

  /** One invalid write is enough: right after startup, before the first scheduling, it ends the cycle, and nothing but
      a reset or a requested loss-rate test ever brings it back. */
  lemma InvalidGatewayEndsCycle(c: Config, gateway: nat, steps: seq<Action>, t: Sys)
    requires ValidGateway(gateway) && NoRestart(steps)
    requires Continues(Next(Next(Startup(gateway), c, GatewayWritten(0)), c, Schedule), c, steps, t)
    ensures !Token(t)
  {
    var s := Next(Startup(gateway), c, GatewayWritten(0));
    InvInitial(c.param);
    SysInvStep(Startup(gateway), c, GatewayWritten(0));
    SysInvStep(s, c, Schedule);
    TokenStaysLost(Next(s, c, Schedule), c, steps, t);
  }

  // The sleep decision.

  const LORA_TASK_ID: byte := 1
  const BLE_TASK_ID: byte := 2
  const SLP_TASK_ID: byte := 3
  const COLLAPSE_TASK_ID: byte := 4

  /** The sleep table as the tasks fill it, in the order main registers them: BLE, LoRa, sleep; the collapse task's
      entry is given. */
  function SleepTable(s: Sys, collapseEntry: TaskStat): View {
    View([Entry(BLE_TASK_ID, s.ble.lpm), Entry(LORA_TASK_ID, s.lora.lpm), Entry(SLP_TASK_ID, s.slp.lpm),
          Entry(COLLAPSE_TASK_ID, collapseEntry)], {})
  }

  /** Registering the four tasks in an empty table gives the table at startup. */
  lemma SleepTableAtStartup(gateway: nat)
    ensures Registered(Registered(Registered(Registered(View([], {}), BLE_TASK_ID), LORA_TASK_ID), SLP_TASK_ID),
                       COLLAPSE_TASK_ID)
         == SleepTable(Startup(gateway), StaRegister)
  {
  }

  /** From then on every step leaves the table that the tasks' own set_stat calls make of it. */
  lemma SleepTableFollows(s: Sys, c: Config, a: Action, e: TaskStat)
    requires Enabled(s, c, a)
    ensures var t := Next(s, c, a);
            SleepTable(t, e)
            == StatSet(StatSet(StatSet(SleepTable(s, e), BLE_TASK_ID, t.ble.lpm), LORA_TASK_ID, t.lora.lpm),
                       SLP_TASK_ID, t.slp.lpm)
  {
    var t := Next(s, c, a);
    StatesAreSettable(s, c, a);
    SetsEntry(s, BLE_TASK_ID, t.ble.lpm, e);
    var s1 := s.(ble := s.ble.(lpm := t.ble.lpm));
    SetsEntry(s1, LORA_TASK_ID, t.lora.lpm, e);
    SetsEntry(s1.(lora := s1.lora.(lpm := t.lora.lpm)), SLP_TASK_ID, t.slp.lpm, e);
  }

  predicate Settable(before: TaskStat, after: TaskStat) {
    after == before || IsTaskState(after)
  }

  lemma AttemptRuns(s: Lora, w: World)
    requires ValidSource(w.source)
    ensures LoraSession.StatusActive(s, w).lpm.StaRun?
  {
    assert AttemptBegun(s, w.source).lpm.StaRun?;
  }

  lemma OutcomesAreSettable(s: Lora, p: Param, w: World)
    ensures IsTaskState(StatusStop(s, w).st.lpm)
    ensures Settable(s.lpm, StatusTxSuccess(s, w).st.lpm)
    ensures Settable(s.lpm, StatusTxFail(s, p, w).lpm)
  {
  }

  lemma PollIsSettable(s: Lora, p: Param, w: World)
    requires ValidSource(w.source)
    ensures Settable(s.lpm, Poll(s, p, w).st.lpm)
  {
    var t := if TestTakesOver(s) then s.(llrt := LlrtRun, req := ReqActive) else s;
    AttemptRuns(t, w);
    OutcomesAreSettable(t, p, w);
  }

  lemma LoraStateIsSettable(s: Lora, p: Param, l: LoraSession.Action)
    requires LoraSession.Enabled(s, p, l)
    ensures Settable(s.lpm, Step(s, p, l).st.lpm)
  {
    if l.APoll? {
      PollIsSettable(s, p, l.world);
    }
  }

  /** A step changes an entry only to a state that set_stat accepts. */
  lemma StatesAreSettable(s: Sys, c: Config, a: Action)
    requires Enabled(s, c, a)
    ensures var t := Next(s, c, a);
            && Settable(s.ble.lpm, t.ble.lpm) && Settable(s.lora.lpm, t.lora.lpm) && Settable(s.slp.lpm, t.slp.lpm)
  {
    match a
    case LoraStep(l) =>
      LoraStateIsSettable(s.lora, c.param, l);
      var t := LoraStepped(s, c, l);
      assert t.lora == Step(s.lora, c.param, l).st && t.ble == s.ble;
      assert t.slp == s.slp || t.slp == Slp.ResetSlp(s.slp);
    case _ =>
  }

  function LpmOf(s: Sys, id: byte): TaskStat {
    if id == BLE_TASK_ID then s.ble.lpm else if id == LORA_TASK_ID then s.lora.lpm else s.slp.lpm
  }

  lemma SetsEntry(s: Sys, id: byte, stat: TaskStat, e: TaskStat)
    requires id in {BLE_TASK_ID, LORA_TASK_ID, SLP_TASK_ID} && (stat == LpmOf(s, id) || IsTaskState(stat))
    ensures StatSet(SleepTable(s, e), id, stat)
         == SleepTable(if id == BLE_TASK_ID then s.(ble := s.ble.(lpm := stat))
                       else if id == LORA_TASK_ID then s.(lora := s.lora.(lpm := stat))
                       else s.(slp := s.slp.(lpm := stat)), e)
  {
    FirstOfIs(SleepTable(s, e).live, id, if id == BLE_TASK_ID then 0 else if id == LORA_TASK_ID then 1 else 2);
  }

  /** The firmware may enter its wait state: no live entry is running. */
  predicate MaySleep(t: View) {
    forall i :: 0 <= i < |t.live| ==> !t.live[i].stat.StaRun?
  }

  /** Over all runs: during a sleep of the system task the firmware may indeed sleep, unless a LoRa session is under way
      or requested, or Bluetooth is connected or has an event to handle, or the collapse task runs. */
  lemma SleepsInSleep(c: Config, gateway: nat, steps: seq<Action>, s: Sys, collapseEntry: TaskStat)
    requires Run(c, gateway, steps, s) && s.slp.timer && !collapseEntry.StaRun?
    requires !s.lora.active && s.lora.req.ReqIdle?
    requires s.ble.state.StaAdv? || (s.ble.state.StaIdle? && s.ble.req.StaIdle?)
    ensures MaySleep(SleepTable(s, collapseEntry))
  {
    RunInv(c, gateway, steps, s);
  }

  /** Whenever the firmware may sleep during an active LoRa session, the back-off timer is armed or a request is already
      pending, and the session's time slice is running or its end is requested. */
  lemma SleepsOnlyWithWakeUp(c: Config, gateway: nat, steps: seq<Action>, s: Sys, collapseEntry: TaskStat)
    requires Run(c, gateway, steps, s) && MaySleep(SleepTable(s, collapseEntry)) && s.lora.active
    ensures s.lora.idleTimer || s.lora.req.ReqActive? || s.lora.req.ReqStop?
    ensures s.lora.slice || s.lora.req.ReqStop?
    ensures s.lora.idleTimer ==> c.param.idleEnterLp
  {
    RunInv(c, gateway, steps, s);
    assert SleepTable(s, collapseEntry).live[1] == Entry(LORA_TASK_ID, s.lora.lpm);
  }
}
