/** The LoRa session machine of lora_transmission.c as a transition system: every timer callback, interrupt, request and
    poll of the main loop is one atomic step. */
module LoraSession {
  import opened MachineInts
  import opened Backoff
  import opened LoraFrames
  import opened LowPowerTable

  datatype Option<T> = None | Some(value: T)

  /** The one-slot request variable lora_state. */
  datatype Request = ReqIdle | ReqActive | ReqTxSuccess | ReqTxFail | ReqStop

  datatype Conn = Offline | Connected

  /** The value handed to the stop handler. */
  datatype Report = ReportOffline | ReportDiscon | ReportLink | ReportConnect | ReportTest

  /** Status of the loss-rate test (lora_lost_rate_test.c), which the machine reads. */
  datatype Llrt = LlrtStop | LlrtActive | LlrtRun

  datatype Param = Param(txMaxFailTimes: uint32, timing: Timing, idleEnterLp: bool)

  /** The static variables of the task; which of its timers are armed and whether its interrupt is enabled; its entry
      in the sleep table; the frame in the transmit buffer. */
  datatype Lora = Lora(
    req: Request, active: bool, conn: Conn, preConn: Conn, fails: uint32,
    slice: bool, txTimeout: bool, idleTimer: bool, irq: bool,
    lpm: TaskStat, frame: seq<byte>, latch: Latch, llrt: Llrt)

  /** What one poll meets outside the task: the channel check, the radio's answers, the parser's verdict, a random
      number, the loss-rate test's control bit and whether its counters say it is over, and the frame contents. */
  datatype World = World(
    cadClear: bool, txOk: bool, parseOk: bool, random: uint32, singleShot: bool, testOver: bool, source: Source)

  /** The state after a step, with the report it passed to the stop handler, if any. */
  datatype Outcome = Outcome(st: Lora, report: Option<Report>)

  function InitialLora(): Lora {
    Lora(ReqIdle, false, Offline, Offline, 0, false, false, false, false, StaRegister, [], Latch(false, 0), LlrtStop)
  }

  function TaskStart(s: Lora): Lora {
    if !s.active then s.(lpm := StaRun, req := ReqActive, preConn := s.conn) else s
  }

  function TaskStop(s: Lora): Lora {
    if s.active then s.(fails := 0, req := ReqStop) else s
  }

  /** Only a request other than STOP is overwritten. */
  function Requested(s: Lora, r: Request): Lora {
    if s.req != ReqStop then s.(req := r) else s
  }

  function SliceCallback(s: Lora): Lora {
    Requested(s.(slice := false), ReqStop)
  }

  function TxTimeoutCallback(s: Lora): Lora {
    Requested(s.(txTimeout := false), ReqTxFail)
  }

  function IdleCallback(s: Lora): Lora {
    Requested(s.(idleTimer := false), ReqActive)
  }

  function RxInterrupt(s: Lora): Lora {
    if s.active then Requested(s, ReqTxSuccess) else s
  }

  /** The frame a new session builds; a product version the firmware does not know leaves the old one. */
  ghost function LoadedFrame(s: Lora, w: Source): seq<byte>
    requires ValidSource(w)
  {
    if s.llrt.LlrtRun? then TestFrame(w)
    else if s.conn.Offline? then ConnFrame(w)
    else if w.version == INCLINOMETER_VERSION then InclinometerFrame(w)
    else if w.version == COLLAPSE_VERSION then CollapseFrame(w)
    else s.frame
  }

  /** The channel check and the transmission. */
  function Transmitted(s: Lora, w: World): Lora {
    var s1 := s.(irq := true);
    if w.cadClear then
      var s2 := if |s1.frame| > LORA_MTU then s1.(frame := []) else s1;
      if w.txOk then s2.(txTimeout := true) else s2.(req := ReqTxFail)
    else s1.(req := ReqTxFail)
  }

  /** The request is taken; the first attempt of a session loads the frame and starts the time slice. */
  ghost function AttemptBegun(s: Lora, w: Source): Lora
    requires ValidSource(w)
  {
    var s1 := s.(req := ReqIdle, lpm := StaRun);
    if s.active then s1 else s1.(frame := LoadedFrame(s, w), active := true, slice := true)
  }

  ghost function StatusActive(s: Lora, w: World): Lora
    requires ValidSource(w.source)
  {
    Transmitted(AttemptBegun(s, w.source), w)
  }

  /** The session ends and reports. */
  function Ended(s: Lora): Lora {
    s.(active := false, lpm := StaStop)
  }

  /** The loss-rate test leaves RUN only when it is told of a finished session. */
  function AfterReport(s: Lora, r: Report, w: World): Outcome {
    Outcome(if r.ReportTest? && w.testOver then s.(llrt := LlrtStop) else s, Some(r))
  }

  function StatusTxSuccess(s: Lora, w: World): Outcome {
    var s1 := s.(req := ReqIdle, txTimeout := false, irq := false);
    if w.parseOk then
      var s2 := s1.(fails := 0);
      if s.llrt.LlrtRun? then AfterReport(Ended(s2.(slice := false)), ReportTest, w)
      else if s.conn.Offline? then AfterReport(Ended(s2.(slice := false, conn := Connected)), ReportLink, w)
      else Outcome(s2.(req := ReqStop), None)
    else Outcome(s1.(req := ReqTxFail), None)
  }

  function MaxFailTimes(s: Lora, p: Param, w: World): uint32 {
    if s.llrt.LlrtRun? && w.singleShot then 1 else p.txMaxFailTimes
  }

  /** The radio is put away until the back-off timer fires. */
  function BackedOff(s: Lora, p: Param, random: uint32): Lora {
    var latch := if s.fails >= 1 then NextDelay(s.latch, p.timing, s.fails, random) else s.latch;
    s.(irq := false, latch := latch, idleTimer := true, lpm := if p.idleEnterLp then StaLp else s.lpm)
  }

  function StatusTxFail(s: Lora, p: Param, w: World): Lora {
    var s1 := s.(req := ReqIdle, fails := U32(s.fails + 1));
    if s1.fails >= MaxFailTimes(s, p, w) then s1.(req := ReqStop) else BackedOff(s1, p, w.random)
  }

  function StopReport(s: Lora): Report {
    if s.llrt.LlrtRun? then ReportTest
    else if s.preConn.Offline? then ReportOffline
    else if s.fails != 0 then ReportDiscon
    else ReportConnect
  }

  function StatusStop(s: Lora, w: World): Outcome {
    var r := StopReport(s);
    var s1 := Ended(s.(req := ReqIdle, slice := false, txTimeout := false, idleTimer := false, irq := false));
    AfterReport(s1.(conn := if r.ReportDiscon? then Offline else s.conn, fails := 0), r, w)
  }

  function Reset(s: Lora): Outcome {
    Outcome(Ended(s.(req := ReqIdle, conn := Offline, preConn := Offline, fails := 0,
                     idleTimer := false, slice := false, txTimeout := false, irq := false)),
            Some(ReportDiscon))
  }

  /** A requested loss-rate test takes over as soon as no session is active. */
  predicate TestTakesOver(s: Lora) {
    !s.active && s.llrt.LlrtActive?
  }

  ghost function Poll(s: Lora, p: Param, w: World): Outcome
    requires ValidSource(w.source)
  {
    var s := if TestTakesOver(s) then s.(llrt := LlrtRun, req := ReqActive) else s;
    match s.req
    case ReqActive => Outcome(StatusActive(s, w), None)
    case ReqTxSuccess => StatusTxSuccess(s, w)
    case ReqTxFail => Outcome(StatusTxFail(s, p, w), None)
    case ReqStop => StatusStop(s, w)
    case ReqIdle => Outcome(s, None)
  }

  /** The poll transmits: it is a transmission attempt. */
  predicate Attempts(s: Lora) {
    TestTakesOver(s) || s.req.ReqActive?
  }

  datatype Action =
    | AStart | AStop | ASlice | ATxTimeout | AIdle | ARx | APoll(world: World) | AReset | ATestRequest

  /** A one-shot timer fires only while armed, the radio interrupts only while its interrupt is enabled, and a random
      number lies within its bounds. */
  ghost predicate Enabled(s: Lora, p: Param, a: Action) {
    match a
    case ASlice => s.slice
    case ATxTimeout => s.txTimeout
    case AIdle => s.idleTimer
    case ARx => s.irq
    case APoll(w) => ValidSource(w.source) && p.timing.lower <= w.random < p.timing.upper
    case _ => true
  }

  ghost function Step(s: Lora, p: Param, a: Action): Outcome
    requires Enabled(s, p, a)
  {
    match a
    case AStart => Outcome(TaskStart(s), None)
    case AStop => Outcome(TaskStop(s), None)
    case ASlice => Outcome(SliceCallback(s), None)
    case ATxTimeout => Outcome(TxTimeoutCallback(s), None)
    case AIdle => Outcome(IdleCallback(s), None)
    case ARx => Outcome(RxInterrupt(s), None)
    case APoll(w) => Poll(s, p, w)
    case AReset => Reset(s)
    case ATestRequest => Outcome(if s.llrt.LlrtStop? then s.(llrt := LlrtActive) else s, None)
  }

  // What every reachable state satisfies.

  /** The bound on failures, and on attempts, of one session. */
  function Limit(p: Param): nat {
    if p.txMaxFailTimes == 0 then 1 else p.txMaxFailTimes
  }

  /** An active session always has something coming: a pending request, or the receive timeout or the back-off timer;
      and its time slice is running unless its end is already requested. */
  predicate NotStuck(s: Lora) {
    s.active ==>
      && (!s.req.ReqIdle? || s.txTimeout || s.idleTimer)
      && (s.slice || s.req.ReqStop?)
  }

  predicate TimersExclusive(s: Lora) {
    && !(s.txTimeout && s.idleTimer)
    && (!s.active ==> !s.slice && !s.txTimeout && !s.idleTimer && !s.irq)
    && (s.req.ReqTxSuccess? || s.req.ReqTxFail? || s.req.ReqStop? ==> s.active)
  }

  /** The session is between attempts: backing off, or about to try again. */
  predicate Waiting(s: Lora) {
    s.active && (s.idleTimer || s.req.ReqActive?)
  }

  predicate Consistent(s: Lora) {
    && (s.idleTimer ==> !s.irq && (s.req.ReqIdle? || s.req.ReqStop?))
    && (s.txTimeout ==> s.irq && (s.req.ReqIdle? || s.req.ReqTxSuccess? || s.req.ReqStop?))
    && (s.active && s.req.ReqActive? ==> !s.idleTimer && !s.irq && !s.txTimeout)
    && (s.req.ReqTxFail? ==> !s.txTimeout && !s.idleTimer)
    && (s.req.ReqTxSuccess? ==> !s.idleTimer)
  }

  predicate FailsBounded(s: Lora, p: Param) {
    && s.fails <= Limit(p)
    && (!s.active ==> s.fails == 0)
    && (s.active && !s.req.ReqStop? ==> s.fails < Limit(p))
    && (Waiting(s) && !s.req.ReqStop? ==> s.fails >= 1)
  }

  /** The status seen when the session was requested is still the current one. */
  predicate ConnStable(s: Lora) {
    !s.llrt.LlrtRun? && (s.active || s.req.ReqActive?) ==> s.preConn == s.conn
  }

  /** The sleep-table entry: running while a session is requested or busy, never running while there is none, and
      asleep only in a back-off that something will end. */
  predicate SleepEntry(s: Lora) {
    && (!s.active && s.req.ReqIdle? ==> !s.lpm.StaRun?)
    && (!s.active && s.req.ReqActive? ==> s.lpm.StaRun?)
    && (s.active && !s.lpm.StaRun? ==> s.idleTimer || s.req.ReqActive? || s.req.ReqStop?)
  }

  /** The back-off timer is never armed for longer than the ceiling plus the random part. */
  predicate BackoffBounded(s: Lora, p: Param) {
    s.idleTimer ==> s.latch.delayTime <= p.timing.ceiling + p.timing.upper
  }

  /** During a back-off the entry is asleep exactly if the firmware is configured so. */
  predicate BackoffEntry(s: Lora, p: Param) {
    s.idleTimer ==> s.lpm == if p.idleEnterLp then StaLp else StaRun
  }

  predicate Inv(s: Lora, p: Param) {
    && BackoffBounded(s, p) && BackoffEntry(s, p) && NotStuck(s) && TimersExclusive(s) && Consistent(s)
    && FailsBounded(s, p) && ConnStable(s) && SleepEntry(s)
  }

  lemma InvInitial(p: Param)
    ensures Inv(InitialLora(), p)
  {
  }

  lemma InvActive(s: Lora, p: Param, w: World)
    requires ValidSource(w.source) && s.req.ReqActive?
    requires TimersExclusive(s) && Consistent(s) && FailsBounded(s, p) && ConnStable(s) && (s.active ==> s.slice)
    ensures Inv(StatusActive(s, w), p)
  {
    var t := StatusActive(s, w);
    assert t.active && t.slice && t.irq && !t.idleTimer && t.lpm.StaRun?;
    assert t.fails == s.fails && t.conn == s.conn && t.preConn == s.preConn && t.llrt == s.llrt;
    assert if w.cadClear && w.txOk then t.req.ReqIdle? && t.txTimeout else t.req.ReqTxFail? && !t.txTimeout;
  }

  lemma InvTxSuccess(s: Lora, p: Param, w: World)
    requires Inv(s, p) && s.req.ReqTxSuccess?
    ensures Inv(StatusTxSuccess(s, w).st, p)
  {
  }

  lemma InvTxFail(s: Lora, p: Param, w: World)
    requires Inv(s, p) && s.req.ReqTxFail? && w.random < p.timing.upper
    ensures Inv(StatusTxFail(s, p, w), p)
  {
  }

  lemma InvStop(s: Lora, p: Param, w: World)
    requires Inv(s, p) && s.req.ReqStop?
    ensures Inv(StatusStop(s, w).st, p)
  {
  }

  lemma InvPoll(s: Lora, p: Param, w: World)
    requires Inv(s, p) && Enabled(s, p, APoll(w))
    ensures Inv(Poll(s, p, w).st, p)
  {
    if TestTakesOver(s) {
      InvActive(s.(llrt := LlrtRun, req := ReqActive), p, w);
    } else {
      match s.req
      case ReqActive => InvActive(s, p, w);
      case ReqTxSuccess => InvTxSuccess(s, p, w);
      case ReqTxFail => InvTxFail(s, p, w);
      case ReqStop => InvStop(s, p, w);
      case ReqIdle =>
    }
  }

  /** Every step keeps the invariant; polls are the hard case. */
  lemma InvStep(s: Lora, p: Param, a: Action)
    requires Inv(s, p) && Enabled(s, p, a)
    ensures Inv(Step(s, p, a).st, p)
  {
    match a
    case APoll(w) => InvPoll(s, p, w);
    case _ =>
  }

  /** A pending STOP is overwritten by nothing but the stop handler's own poll and a reset. */
  lemma StopIsSticky(s: Lora, p: Param, a: Action)
    requires Inv(s, p) && Enabled(s, p, a) && s.req.ReqStop?
    ensures !a.APoll? && !a.AReset? ==> Step(s, p, a).st.req.ReqStop?
    ensures a.APoll? ==> Step(s, p, a).report.Some? && !Step(s, p, a).st.active
  {
  }

  lemma FailsBelowLimit(s: Lora, p: Param)
    requires Inv(s, p)
    ensures s.req.ReqTxFail? ==> s.fails < Limit(p)
  {
  }

  /** The failure counter never wraps: a failing poll always increases it. */
  lemma FailsNeverWrap(s: Lora, p: Param, w: World)
    requires Inv(s, p) && s.req.ReqTxFail?
    ensures StatusTxFail(s, p, w).fails == s.fails + 1 <= Limit(p)
  {
  }
}
