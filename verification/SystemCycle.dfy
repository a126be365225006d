/** The order of the measure-and-report cycle: which task follows which, when the cycle is in one place only, and that
    the node measures between two sleeps. */
module SystemCycle {
  import opened LoraFrames
  import opened SystemRun
  import L = LoraSession
  import LoraAnswers

  // What each end of a task sets off, in every configuration and state.

  predicate Adds(s: Sys, t: Sys, e: Evt) {
    t.evt == s.evt + {e}
  }

  /** A LoRa report is followed by the event it calls for, and by no other. */
  lemma ReportIsFollowed(s: Sys, c: Config, l: L.Action)
    requires Enabled(s, c, LoraStep(l)) && L.Step(s.lora, c.param, l).report.Some?
    ensures var t, r := Next(s, c, LoraStep(l)), L.Step(s.lora, c.param, l).report.value;
            && t.gateway == s.gateway && t.collapse == s.collapse && (r.ReportOffline? || t.disconn == s.disconn)
            && (r.ReportTest? ==> Adds(s, t, EvtSysLp))
            && (r.ReportOffline? ==> Adds(s, t, EvtBle) && t.disconn)
            && (r.ReportDiscon? ==> Adds(s, t, EvtLora))
            && (r.ReportLink? ==> Adds(s, t, EvtCollapse))
            && (r.ReportConnect? && c.version == INCLINOMETER_VERSION ==> Adds(s, t, EvtSysLp))
            && (r.ReportConnect? && c.version == COLLAPSE_VERSION ==>
                  Adds(s, t, if c.collapseMode == PeriodMode then EvtSysLp else EvtCollapse))
  {
  }

  /** A finished measurement is reported: always by the inclinometer in periodic mode, and by the collapse meter when it
      was active. */
  lemma MeasurementIsReported(s: Sys, c: Config, wasActive: bool)
    requires Enabled(s, c, CollapseDone(wasActive))
    ensures var t := Next(s, c, CollapseDone(wasActive));
            && !t.collapse && t == s.(evt := t.evt, collapse := false)
            && (c.version == INCLINOMETER_VERSION && c.iotMode == 0 ==> Adds(s, t, EvtLora))
            && (c.version == INCLINOMETER_VERSION && c.iotMode != 0 ==> t.evt == s.evt)
            && (c.version == COLLAPSE_VERSION ==> if wasActive then Adds(s, t, EvtLora) else t.evt == s.evt)
  {
  }

  /** The poll ends a sleep. */
  predicate EndsSleep(s: Sys) {
    s.slp.req.SlpTimeout? || s.slp.req.SlpStop?
  }

  /** Over all runs: the sleep task's poll leaves a sleep exactly when its timer has fired or a stop was requested, and
      then the next measurement is pending, or in a loss-rate test the next transmission. */
  lemma SleepIsFollowed(c: Config, gateway: nat, steps: seq<Action>, s: Sys)
    requires Run(c, gateway, steps, s)
    ensures var t := Next(s, c, SlpPoll);
            && (!s.slp.state.SlpIdle? ==> (t.slp.state.SlpIdle? <==> EndsSleep(s)))
            && (EndsSleep(s) ==> Adds(s, t, if s.lora.llrt.LlrtRun? then EvtLora else EvtCollapse))
            && (!EndsSleep(s) ==> t.evt == s.evt)
  {
    RunInv(c, gateway, steps, s);
  }

  /** Over all runs: a stop request ends a sleep at the next poll. */
  lemma StopEndsSleep(c: Config, gateway: nat, steps: seq<Action>, s: Sys)
    requires Run(c, gateway, steps, s) && !s.slp.state.SlpIdle?
    ensures EndsSleep(Next(s, c, SlpStop)) && Next(Next(s, c, SlpStop), c, SlpPoll).slp.state.SlpIdle?
  {
  }

  /** A stop request ends an advertisement, and aborts a connection, at the next poll; a signal asks for Bluetooth. */
  lemma StopEndsBluetooth(s: Sys, c: Config)
    ensures var t := Next(Next(s, c, BleStop), c, BlePoll);
            && (s.ble.state.StaAdv? ==> t.ble.state.StaIdle? && EvtBle in t.evt)
            && (s.ble.state.StaConn? ==> t.ble.state.StaConnAbort? && t.ble.req.StaIdle?)
    ensures Adds(s, Next(s, c, HwSignal), EvtBle)
  {
  }

  function LittleEndian(bytes: seq<int>): int {
    if bytes == [] then 0 else bytes[0] + 0x100 * LittleEndian(bytes[1..])
  }

  const DEFAULT_GATEWAY_BYTES: seq<int> := [0x64, 0x01, 0x20, 0x19, 0x09, 0x16, 0x00, 0x01]

  lemma DefaultGateway()
    ensures LittleEndian(DEFAULT_GATEWAY_BYTES) == DEFAULT_GATEWAY && ValidGateway(DEFAULT_GATEWAY)
  {
    var b := DEFAULT_GATEWAY_BYTES;
    assert b[7..][1..] == [] && LittleEndian(b[7..]) == 0x01;
    assert b[6..][1..] == b[7..] && LittleEndian(b[6..]) == 0x0100;
    assert b[5..][1..] == b[6..] && LittleEndian(b[5..]) == 0x01_0016;
    assert b[4..][1..] == b[5..] && LittleEndian(b[4..]) == 0x0100_1609;
    assert b[3..][1..] == b[4..] && b[2..][1..] == b[3..] && b[1..][1..] == b[2..];
  }

  lemma OtherStepsKeepGateway(s: Sys, c: Config, a: Action)
    requires Enabled(s, c, a) && !a.GatewayWritten? && !a.BlePoll?
    ensures Next(s, c, a).gateway == s.gateway && (s.disconn ==> Next(s, c, a).disconn)
  {
  }

  /** The end of an advertisement: LoRa tries again if the node waits for a gateway, with the default address after a
      timeout and with the one that was set after a stop. */
  lemma AdvertisementIsFollowed(s: Sys, c: Config)
    ensures var t, req := Next(s, c, BlePoll), s.ble.req;
            && (req.StaAdvTimeout? && s.disconn ==>
                  t.evt == s.evt + {EvtBle, EvtLora} && t.gateway == LittleEndian(DEFAULT_GATEWAY_BYTES) && !t.disconn)
            && (req.StaAdvStop? && s.disconn ==> t.evt == s.evt + {EvtBle, EvtLora})
            && ((req.StaAdvTimeout? || req.StaAdvStop?) && !s.disconn ==> Adds(s, t, EvtBle))
            && (!req.StaAdvTimeout? && !req.StaAdvStop? ==> t.evt == s.evt)
            && (!(req.StaAdvTimeout? && s.disconn) ==> t.gateway == s.gateway && t.disconn == s.disconn)
  {
    DefaultGateway();
    assert (s.evt + {EvtBle}) + {EvtLora} == s.evt + {EvtBle, EvtLora};
  }

  /** Over all runs: besides a write, the gateway address changes exactly when the advertising times out while the node
      waits for a gateway, to the default address; and then Bluetooth is not connected. */
  lemma GatewayAfterBluetooth(c: Config, gateway: nat, steps: seq<Action>, s: Sys, a: Action)
    requires Run(c, gateway, steps, s) && Enabled(s, c, a) && !a.GatewayWritten?
    ensures var t, timesOut := Next(s, c, a), a.BlePoll? && s.disconn && s.ble.req.StaAdvTimeout?;
            && t.gateway == (if timesOut then LittleEndian(DEFAULT_GATEWAY_BYTES) else s.gateway)
            && (s.disconn ==> (t.disconn <==> !timesOut))
            && (timesOut ==> s.ble.state.StaAdv? || s.ble.state.StaIdle?)
  {
    RunInv(c, gateway, steps, s);
    if a.BlePoll? {
      AdvertisementIsFollowed(s, c);
    } else {
      OtherStepsKeepGateway(s, c, a);
    }
  }

  /** Over all runs: the advertising timer is armed neither in a connection nor at rest, and a timeout ends neither a
      connection nor the disconnecting of one. */
  lemma TimerOnlyAdvertising(c: Config, gateway: nat, steps: seq<Action>, s: Sys)
    requires Run(c, gateway, steps, s)
    ensures s.ble.state.StaConn? || s.ble.state.StaConnAbort? ==> !s.ble.advTimer && !s.ble.req.StaAdvTimeout?
    ensures s.ble.state.StaIdle? && s.ble.req.StaIdle? ==> !s.ble.advTimer
    ensures s.ble.advTimer || s.ble.req.StaAdvTimeout? ==> s.ble.state.StaAdv? || s.ble.state.StaIdle?
  {
    RunInv(c, gateway, steps, s);
  }

  // The places the cycle can be at.

  predicate LoraBusy(l: L.Lora) {
    l.active || !l.req.ReqIdle?
  }

  function One(b: bool): nat {
    if b then 1 else 0
  }

  /** How many tasks hold the cycle, by an event that is pending or by being at work. */
  function Holders(s: Sys): nat {
    One(EvtLora in s.evt) + One(LoraBusy(s.lora)) + One(EvtCollapse in s.evt) + One(s.collapse)
    + One(EvtSysLp in s.evt) + One(!s.slp.state.SlpIdle?) + One(s.disconn)
  }

  lemma HoldersAreToken(s: Sys, c: Config)
    requires SysInv(s, c)
    ensures Token(s) <==> Holders(s) >= 1
  {
  }

  /** The steps that put the cycle in two places: a reset of the LoRa task while another task holds it, a loss-rate test
      that takes over while it is not with LoRa's own request or in a sleep, and a stopped advertisement while the node
      waits for a gateway, since the node then goes on waiting. */
  predicate Duplicates(s: Sys, a: Action) {
    match a
    case LoraStep(l) =>
      || (l.AReset? && (CollapseHolds(s) || SlpHolds(s) || s.disconn))
      || (l.APoll? && L.TestTakesOver(s.lora)
          && (EvtLora in s.evt || CollapseHolds(s) || EvtSysLp in s.evt || s.disconn))
    case BlePoll => s.disconn && s.ble.req.StaAdvStop?
    case _ => false
  }

  /** What a LoRa step does to its being busy. */
  lemma LoraStaysBusy(s: L.Lora, p: L.Param, l: L.Action)
    requires L.Inv(s, p) && L.Enabled(s, p, l) && !l.AStart?
    ensures var o := L.Step(s, p, l);
            if o.report.Some? then !LoraBusy(o.st) && (l.AReset? || LoraBusy(s))
            else LoraBusy(o.st) <==> LoraBusy(s) || (l.APoll? && L.TestTakesOver(s))
  {
    if l.APoll? && L.Attempts(s) {
      assert L.Step(s, p, l).st.active;
    }
  }

  /** In periodic mode a cycle in at most one place stays in at most one place exactly in the other steps. */
  lemma OnePlaceExactly(s: Sys, c: Config, a: Action)
    requires Periodic(c) && SysInv(s, c) && Enabled(s, c, a) && Holders(s) <= 1
    ensures Holders(Next(s, c, a)) <= 1 <==> !Duplicates(s, a)
  {
    match a
    case LoraStep(l) =>
      LoraStaysBusy(s.lora, c.param, l);
      LoraStepPlaces(s, c, l);
    case _ =>
  }

  lemma LoraStepPlaces(s: Sys, c: Config, l: L.Action)
    requires Periodic(c) && SysInv(s, c) && Enabled(s, c, LoraStep(l)) && Holders(s) <= 1
    ensures Holders(Next(s, c, LoraStep(l))) <= 1 <==> !Duplicates(s, LoraStep(l))
  {
    LoraStaysBusy(s.lora, c.param, l);
    if L.Step(s.lora, c.param, l).report.Some? {
      ReportIsFollowed(s, c, l);
      assert Next(s, c, LoraStep(l)).slp == s.slp;
    }
  }

  predicate AtLora(s: Sys) {
    Holders(s) == 1 && (EvtLora in s.evt || LoraBusy(s.lora))
  }

  predicate AtCollapse(s: Sys) {
    Holders(s) == 1 && CollapseHolds(s)
  }

  predicate AtSleep(s: Sys) {
    Holders(s) == 1 && SlpHolds(s)
  }

  predicate AtBluetooth(s: Sys) {
    Holders(s) == 1 && s.disconn
  }

  /** Where the cycle goes from where it is: a measurement goes to LoRa when it is done and not before; a sleep goes to
      the next measurement, or to LoRa in a loss-rate test; LoRa goes on as its report says, and Bluetooth goes to LoRa
      when its advertising times out. */
  lemma CycleMoves(s: Sys, c: Config, a: Action)
    requires Periodic(c) && SysInv(s, c) && Enabled(s, c, a) && !Duplicates(s, a)
    ensures var t := Next(s, c, a);
            && (AtCollapse(s) ==> if a.CollapseDone? then AtLora(t) else AtCollapse(t))
            && (AtSleep(s) ==>
                  if a.SlpPoll? && EndsSleep(s) then (if s.lora.llrt.LlrtRun? then AtLora(t) else AtCollapse(t))
                  else if a.LoraStep? && a.step.APoll? && L.TestTakesOver(s.lora) then AtLora(t)
                  else AtSleep(t))
            && (AtBluetooth(s) ==>
                  if a.BlePoll? && s.ble.req.StaAdvTimeout? then AtLora(t) else AtBluetooth(t))
  {
    if Holders(s) == 1 {
      OnePlaceExactly(s, c, a);
      if a.LoraStep? {
        L.InvStep(s.lora, c.param, a.step);
        LoraStaysBusy(s.lora, c.param, a.step);
      }
    }
  }

  lemma CycleMovesFromLora(s: Sys, c: Config, a: Action)
    requires Periodic(c) && SysInv(s, c) && Enabled(s, c, a) && !Duplicates(s, a) && AtLora(s)
    ensures var t := Next(s, c, a);
            if a.LoraStep? && L.Step(s.lora, c.param, a.step).report.Some? then
              match L.Step(s.lora, c.param, a.step).report.value
              case ReportLink => AtCollapse(t)
              case ReportConnect => AtSleep(t)
              case ReportTest => AtSleep(t)
              case ReportDiscon => AtLora(t)
              case ReportOffline => AtBluetooth(t)
            else if a.Schedule? && EvtLora in s.evt && !ValidGateway(s.gateway) then Holders(t) == 0
            else AtLora(t)
  {
    if a.LoraStep? {
      LoraStaysBusy(s.lora, c.param, a.step);
      if L.Step(s.lora, c.param, a.step).report.Some? {
        ReportIsFollowed(s, c, a.step);
        assert Next(s, c, a).slp == s.slp;
      }
    }
  }

  // Whole runs.

  /** None of these steps puts the cycle in two places. */
  ghost predicate NeverDuplicates(s: Sys, c: Config, steps: seq<Action>)
    decreases |steps|
  {
    steps != [] && Enabled(s, c, steps[0]) ==>
      !Duplicates(s, steps[0]) && NeverDuplicates(Next(s, c, steps[0]), c, steps[1..])
  }

  predicate NoMeasurementDone(steps: seq<Action>) {
    forall i :: 0 <= i < |steps| ==> !steps[i].CollapseDone?
  }

  lemma {:induction false} OnePlaceKept(s: Sys, c: Config, steps: seq<Action>, t: Sys)
    requires Periodic(c) && SysInv(s, c) && Holders(s) <= 1
    requires Continues(s, c, steps, t) && NeverDuplicates(s, c, steps)
    ensures SysInv(t, c) && Holders(t) <= 1
    decreases |steps|
  {
    if steps != [] {
      SysInvStep(s, c, steps[0]);
      OnePlaceExactly(s, c, steps[0]);
      OnePlaceKept(Next(s, c, steps[0]), c, steps[1..], t);
    }
  }

  lemma {:induction false} MeasuresUntilDone(s: Sys, c: Config, steps: seq<Action>, t: Sys)
    requires Periodic(c) && SysInv(s, c) && AtCollapse(s) && NoMeasurementDone(steps)
    requires Continues(s, c, steps, t) && NeverDuplicates(s, c, steps)
    ensures AtCollapse(t)
    decreases |steps|
  {
    if steps != [] {
      assert !steps[0].CollapseDone?;
      SysInvStep(s, c, steps[0]);
      CycleMoves(s, c, steps[0]);
      MeasuresUntilDone(Next(s, c, steps[0]), c, steps[1..], t);
    }
  }

  lemma StartupInOnePlace(c: Config, gateway: nat)
    ensures SysInv(Startup(gateway), c) && Holders(Startup(gateway)) <= 1
  {
    RunInv(c, gateway, [], Startup(gateway));
  }

  /** A sleep ends here, outside a loss-rate test. */
  predicate WakesUp(s: Sys) {
    !s.slp.state.SlpIdle? && EndsSleep(s) && !s.lora.llrt.LlrtRun?
  }

  /** In periodic mode, from startup on: between two sleeps that end outside a loss-rate test a measurement is done,
      unless some step put the cycle in two places. */
  lemma MeasuredBetweenSleeps(c: Config, gateway: nat, steps: seq<Action>, s: Sys, between: seq<Action>, t: Sys)
    requires Periodic(c) && Continues(Startup(gateway), c, steps, s) && WakesUp(s)
    requires Continues(Next(s, c, SlpPoll), c, between, t) && WakesUp(t)
    requires NeverDuplicates(Startup(gateway), c, steps) && NeverDuplicates(Next(s, c, SlpPoll), c, between)
    ensures exists i :: 0 <= i < |between| && between[i].CollapseDone?
  {
    StartupInOnePlace(c, gateway);
    OnePlaceKept(Startup(gateway), c, steps, s);
    CycleMoves(s, c, SlpPoll);
    SysInvStep(s, c, SlpPoll);
    if NoMeasurementDone(between) {
      MeasuresUntilDone(Next(s, c, SlpPoll), c, between, t);
    }
  }

  // Without that condition it fails: a run in which a phone connects now and then, without reset or test.

  lemma {:induction false} ContinuesOn(s: Sys, c: Config, steps: seq<Action>, t: Sys, a: Action)
    requires Continues(s, c, steps, t) && Enabled(t, c, a)
    ensures Continues(s, c, steps + [a], Next(t, c, a))
    decreases |steps|
  {
    if steps == [] {
      assert [a][1..] == [];
    } else {
      assert (steps + [a])[1..] == steps[1..] + [a];
      ContinuesOn(Next(s, c, steps[0]), c, steps[1..], t, a);
    }
  }

  /** No measurement done, no reset, no loss-rate test. */
  predicate Quiet(steps: seq<Action>) {
    forall i :: 0 <= i < |steps| ==>
      && !steps[i].CollapseDone?
      && (steps[i].LoraStep? ==> !steps[i].step.AReset? && !steps[i].step.ATestRequest?)
  }

  datatype Path = Path(steps: seq<Action>, end: Sys)

  ghost predicate From(s: Sys, c: Config, q: Path) {
    Continues(s, c, q.steps, q.end) && Quiet(q.steps)
  }

  lemma Go(s: Sys, c: Config, q: Path, a: Action) returns (r: Path)
    requires From(s, c, q) && Enabled(q.end, c, a) && Quiet([a])
    ensures From(s, c, r) && r.end == Next(q.end, c, a)
  {
    r := Path(q.steps + [a], Next(q.end, c, a));
    assert [a][0] == a;
    ContinuesOn(s, c, q.steps, q.end, a);
  }

  /** The node waits for a gateway; a phone connects and disconnects, and LoRa is asked to try again. */
  lemma PhoneVisits(s: Sys, c: Config, q: Path) returns (r: Path)
    requires From(s, c, q) && q.end.disconn && q.end.ble.state.StaIdle? && q.end.ble.req.StaAdv?
    ensures From(s, c, r) && r.end == q.end.(evt := q.end.evt + {EvtBle, EvtLora}, ble := r.end.ble)
    ensures r.end.ble.state.StaIdle? && r.end.ble.req.StaIdle?
  {
    r := Go(s, c, q, BlePoll);
    r := Go(s, c, r, BleConnects);
    r := Go(s, c, r, BlePoll);
    r := Go(s, c, r, BleDisconnects);
    r := Go(s, c, r, BlePoll);
    r := Go(s, c, r, BlePoll);
    assert r.end.evt == q.end.evt + {EvtBle, EvtLora};
  }

  /** A session that has transmitted once and waits for the answer. */
  predicate Waits(l: L.Lora, conn: L.Conn) {
    && l.active && l.req.ReqIdle? && l.slice && l.irq && l.llrt.LlrtStop? && l.fails == 0
    && l.conn == l.preConn == conn
  }

  predicate AtRest(l: L.Lora) {
    l.req.ReqIdle? && !l.active && l.llrt.LlrtStop? && l.fails == 0
  }

  lemma FirstAttempt(l: L.Lora, p: L.Param, w: L.World)
    requires AtRest(l) && LoraAnswers.Favourable(p, w)
    ensures L.Poll(L.TaskStart(l), p, w).report.None? && Waits(L.Poll(L.TaskStart(l), p, w).st, l.conn)
  {
    var b := L.AttemptBegun(L.TaskStart(l), w.source);
    assert L.Poll(L.TaskStart(l), p, w) == L.Outcome(L.Transmitted(b, w), L.None);
  }

  /** The scheduler starts LoRa, and it transmits. */
  lemma Transmits(s: Sys, c: Config, q: Path, w: L.World) returns (r: Path)
    requires From(s, c, q) && LoraAnswers.Favourable(c.param, w)
    requires EvtLora in q.end.evt && EvtSysLp !in q.end.evt && ValidGateway(q.end.gateway) && AtRest(q.end.lora)
    ensures From(s, c, r) && Waits(r.end.lora, q.end.lora.conn)
    ensures r.end == Scheduled(q.end).(lora := r.end.lora)
  {
    FirstAttempt(q.end.lora, c.param, w);
    r := Go(s, c, q, Schedule);
    r := Go(s, c, r, LoraStep(L.APoll(w)));
  }

  /** No answer until the time slice ends: the node, which was not connected, waits for a gateway. */
  lemma GoesOffline(s: Sys, c: Config, q: Path, w: L.World) returns (r: Path)
    requires From(s, c, q) && LoraAnswers.Favourable(c.param, w) && Waits(q.end.lora, L.Offline)
    ensures From(s, c, r) && AtRest(r.end.lora) && r.end.lora.conn.Offline?
    ensures r.end == q.end.(lora := r.end.lora, evt := q.end.evt + {EvtBle}, disconn := true)
  {
    r := Go(s, c, q, LoraStep(L.ASlice));
    assert L.Poll(r.end.lora, c.param, w) == L.StatusStop(r.end.lora, w);
    r := Go(s, c, r, LoraStep(L.APoll(w)));
  }

  lemma Connects(s: Sys, c: Config, q: Path, w: L.World) returns (r: Path)
    requires From(s, c, q) && LoraAnswers.Favourable(c.param, w) && Waits(q.end.lora, L.Offline)
    ensures From(s, c, r) && AtRest(r.end.lora) && r.end.lora.conn.Connected?
    ensures r.end == q.end.(lora := r.end.lora, evt := q.end.evt + {EvtCollapse})
  {
    r := Go(s, c, q, LoraStep(L.ARx));
    assert L.Poll(r.end.lora, c.param, w) == L.StatusTxSuccess(r.end.lora, w);
    r := Go(s, c, r, LoraStep(L.APoll(w)));
  }

  lemma Publishes(s: Sys, c: Config, q: Path, w: L.World) returns (r: Path)
    requires Periodic(c) && From(s, c, q) && LoraAnswers.Favourable(c.param, w) && Waits(q.end.lora, L.Connected)
    ensures From(s, c, r) && AtRest(r.end.lora) && r.end.lora.conn.Connected?
    ensures r.end == q.end.(lora := r.end.lora, evt := q.end.evt + {EvtSysLp})
  {
    r := Go(s, c, q, LoraStep(L.ARx));
    assert L.Poll(r.end.lora, c.param, w) == L.StatusTxSuccess(r.end.lora, w);
    r := Go(s, c, r, LoraStep(L.APoll(w)));
    assert L.Poll(r.end.lora, c.param, w) == L.StatusStop(r.end.lora, w);
    r := Go(s, c, r, LoraStep(L.APoll(w)));
  }

  lemma FallsAsleep(s: Sys, c: Config, q: Path) returns (r: Path)
    requires From(s, c, q) && q.end.evt == {EvtSysLp} && q.end.slp.state.SlpIdle? && AtRest(q.end.lora)
    ensures From(s, c, r) && WakesUp(r.end) && r.end == q.end.(evt := {}, slp := r.end.slp)
  {
    r := Go(s, c, q, Schedule);
    r := Go(s, c, r, SlpPoll);
    r := Go(s, c, r, SlpTimer);
  }

  /** The node measures, and still waits for a gateway although it is connected to one. */
  predicate Twofold(s: Sys) {
    && s.evt <= {EvtCollapse} && s.disconn && s.collapse && ValidGateway(s.gateway)
    && AtRest(s.lora) && s.lora.conn.Connected? && s.slp.state.SlpIdle?
    && s.ble.state.StaIdle? && s.ble.req.StaAdv?
  }

  /** From there it publishes old values, sleeps and wakes up without having measured. */
  lemma SleepsTwofold(s: Sys, c: Config, q: Path, w: L.World) returns (r: Path)
    requires Periodic(c) && From(s, c, q) && Twofold(q.end) && LoraAnswers.Favourable(c.param, w)
    ensures From(s, c, r) && WakesUp(r.end) && Twofold(Next(r.end, c, SlpPoll))
  {
    r := PhoneVisits(s, c, q);
    r := Transmits(s, c, r, w);
    assert r.end.evt == {} && r.end.ble.state.StaIdle? && r.end.ble.req.StaAdv?;
    r := Publishes(s, c, r, w);
    assert r.end.evt == {EvtSysLp};
    r := FallsAsleep(s, c, r);
    assert Next(r.end, c, SlpPoll).evt == {EvtCollapse};
  }

  /** It gets there when the gateway answers only after a phone was connected in between. */
  lemma BecomesTwofold(c: Config, gateway: nat, w: L.World) returns (r: Path)
    requires ValidGateway(gateway) && LoraAnswers.Favourable(c.param, w)
    ensures From(Startup(gateway), c, r) && Twofold(r.end)
  {
    var s := Startup(gateway);
    r := Transmits(s, c, Path([], s), w);
    assert r.end.evt == {} && r.end.ble.state.StaIdle? && r.end.ble.req.StaAdv?;
    r := GoesOffline(s, c, r, w);
    r := PhoneVisits(s, c, r);
    r := Transmits(s, c, r, w);
    r := Connects(s, c, r, w);
    assert r.end.evt == {EvtCollapse};
    r := Go(s, c, r, Schedule);
  }

  /** For instance: two sleeps that end without a measurement between them, in a run without reset or test. */
  lemma SleepsWithoutMeasurement(c: Config, gateway: nat, w: L.World) returns (first: Path, second: Path)
    requires Periodic(c) && ValidGateway(gateway) && LoraAnswers.Favourable(c.param, w)
    ensures From(Startup(gateway), c, first) && WakesUp(first.end)
    ensures From(Next(first.end, c, SlpPoll), c, second) && WakesUp(second.end)
  {
    var r := BecomesTwofold(c, gateway, w);
    first := SleepsTwofold(Startup(gateway), c, r, w);
    var s := Next(first.end, c, SlpPoll);
    second := SleepsTwofold(s, c, Path([], s), w);
  }

  /** Nor is the task always still advertising when its timer fires: a phone that connects and disconnects between two
      polls leaves it idle, with the stop pending and the timer armed. */
  lemma TimeoutOfIdleTask(c: Config, gateway: nat) returns (q: Path)
    requires c.timedAdv
    ensures From(Startup(gateway), c, q) && q.end.ble.state.StaIdle? && q.end.ble.req.StaAdvTimeout?
  {
    var s := Startup(gateway);
    q := Go(s, c, Path([], s), Schedule);
    q := Go(s, c, q, BlePoll);
    q := Go(s, c, q, BleConnects);
    q := Go(s, c, q, BleDisconnects);
    q := Go(s, c, q, BlePoll);
    q := Go(s, c, q, BleAdvTimer);
  }
}
