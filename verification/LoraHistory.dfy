/** Whole runs of the LoRa session machine, with their sessions recorded: what each session transmitted and what it
    reported. */
module LoraHistory {
  import opened MachineInts
  import opened Backoff
  import opened LoraFrames
  import opened LoraSession

  /** What happened in a session: whether a reception was parsed as the gateway's answer; for each failed attempt
      whether a loss-rate test allowed a single shot only; whether a stop was requested; and how many attempts had
      failed when the time slice ended it, if it did. */
  datatype Trace = Trace(answered: bool, shots: seq<bool>, stopCalled: bool, sliceEnd: Option<nat>)

  const NO_TRACE: Trace := Trace(false, [], false, None)

  /** A finished session: the frames of its attempts, its one report, the connection status before and after it,
      whether a reset cut it short, and what happened in it. */
  datatype Session = Session(
    frames: seq<seq<byte>>, report: Report, before: Conn, after: Conn, cut: bool, trace: Trace)

  /** The machine with the attempts, back-off draws and trace of the session in progress, the back-off state that
      session began with, and all finished sessions. */
  datatype History = History(
    st: Lora, frames: seq<seq<byte>>, draws: seq<nat>, latchBefore: Latch, trace: Trace, done: seq<Session>)

  function InitialHistory(): History {
    History(InitialLora(), [], [], InitialLora().latch, NO_TRACE, [])
  }

  /** The trace after one more step. */
  function Traced(t: Trace, s: Lora, a: Action): Trace {
    match a
    case APoll(w) =>
      if s.req.ReqTxSuccess? && w.parseOk then t.(answered := true)
      else if s.req.ReqTxFail? then t.(shots := t.shots + [s.llrt.LlrtRun? && w.singleShot])
      else t
    case AStop => if s.active then t.(stopCalled := true) else t
    case ASlice => if s.req.ReqStop? then t else t.(sliceEnd := Some(|t.shots|))
    case _ => t
  }

  /** The poll handles a failed attempt and backs off. */
  ghost predicate BacksOff(s: Lora, p: Param, w: World) {
    !TestTakesOver(s) && s.req.ReqTxFail? && U32(s.fails + 1) < MaxFailTimes(s, p, w)
  }

  ghost function Next(h: History, p: Param, a: Action): History
    requires Enabled(h.st, p, a)
  {
    var o := Step(h.st, p, a);
    var frames := if a.APoll? && Attempts(h.st) then h.frames + [o.st.frame] else h.frames;
    var draws := if a.APoll? && BacksOff(h.st, p, a.world) then h.draws + [a.world.random] else h.draws;
    var trace := Traced(h.trace, h.st, a);
    match o.report
    case None => History(o.st, frames, draws, h.latchBefore, trace, h.done)
    case Some(r) =>
      var session := Session(frames, r, h.st.conn, o.st.conn, a.AReset?, trace);
      History(o.st, [], [], o.st.latch, NO_TRACE, h.done + [session])
  }

  /** h is the history after the given steps, each taken when enabled. */
  ghost predicate Run(p: Param, steps: seq<Action>, h: History)
    decreases |steps|
  {
    if steps == [] then h == InitialHistory()
    else exists g ::
      Run(p, steps[..|steps| - 1], g) && Enabled(g.st, p, steps[|steps| - 1]) && h == Next(g, p, steps[|steps| - 1])
  }

  /** A report says exactly how the connection status changed over its session. */
  predicate ReportAgrees(s: Session) {
    && (s.report.ReportLink? ==> s.before.Offline? && s.after.Connected?)
    && (s.report.ReportDiscon? ==> s.before.Connected? && s.after.Offline?)
    && (s.report.ReportOffline? ==> s.before.Offline? && s.after.Offline?)
    && (s.report.ReportConnect? ==> s.before.Connected? && s.after.Connected?)
    && (s.report.ReportTest? ==> s.before == s.after)
  }

  predicate AllSame(frames: seq<seq<byte>>) {
    forall i, j :: 0 <= i < j < |frames| ==> frames[i] == frames[j]
  }

  predicate SessionOk(s: Session, p: Param) {
    && |s.frames| <= Limit(p) && AllSame(s.frames)
    && (if s.cut then s.report.ReportDiscon? && s.after.Offline? else |s.frames| >= 1 && ReportAgrees(s))
  }

  /** The most recent LINK or DISCON report is LINK. */
  predicate LinkedLast(done: seq<Session>) {
    if done == [] then false
    else
      var last := done[|done| - 1].report;
      last.ReportLink? || (!last.ReportDiscon? && LinkedLast(done[..|done| - 1]))
  }

  ghost predicate AttemptsMatch(h: History, p: Param) {
    && (h.st.active <==> h.frames != [])
    && |h.frames| <= Limit(p) && |h.st.frame| <= LORA_MTU
    && (forall i :: 0 <= i < |h.frames| ==> h.frames[i] == h.st.frame)
    && (h.st.active && !h.st.req.ReqStop? ==>
          |h.draws| == h.st.fails && |h.frames| == |h.draws| + (if Waiting(h.st) then 0 else 1))
    && (!h.st.active ==> h.draws == [])
  }

  ghost predicate DrawsMatch(h: History, p: Param) {
    && (forall i :: 0 <= i < |h.draws| ==> p.timing.lower <= h.draws[i] < p.timing.upper)
    && h.st.latch == AfterCalls(h.latchBefore, p.timing, h.draws)
  }

  ghost predicate HistoryInv(h: History, p: Param) {
    && Inv(h.st, p) && AttemptsMatch(h, p) && DrawsMatch(h, p)
    && (h.st.active && IsCommand(h.st.frame, CMD_PUBLISH) ==> h.st.conn.Connected?)
    && (h.st.conn.Connected? <==> LinkedLast(h.done))
    && (forall i :: 0 <= i < |h.done| ==> SessionOk(h.done[i], p))
  }

  lemma LoadedFrameFacts(s: Lora, w: Source)
    requires ValidSource(w) && |s.frame| <= LORA_MTU
    ensures |LoadedFrame(s, w)| <= LORA_MTU
    ensures IsCommand(LoadedFrame(s, w), CMD_PUBLISH) ==> s.conn.Connected?
  {
    FramesAreWellFormed(w);
  }

  lemma AttemptKeeps(h: History, p: Param, w: World)
    requires HistoryInv(h, p) && Enabled(h.st, p, APoll(w)) && Attempts(h.st)
    ensures HistoryInv(Next(h, p, APoll(w)), p)
  {
    InvPoll(h.st, p, w);
    var s := if TestTakesOver(h.st) then h.st.(llrt := LlrtRun, req := ReqActive) else h.st;
    LoadedFrameFacts(s, w.source);
    var o := StatusActive(s, w);
    assert Next(h, p, APoll(w)).frames == h.frames + [o.frame];
    if h.st.active {
      assert o.frame == h.st.frame;
    }
  }

  lemma BackoffKeeps(h: History, p: Param, w: World)
    requires HistoryInv(h, p) && Enabled(h.st, p, APoll(w)) && !Attempts(h.st) && h.st.req.ReqTxFail?
    ensures HistoryInv(Next(h, p, APoll(w)), p)
  {
    InvPoll(h.st, p, w);
    FailsNeverWrap(h.st, p, w);
    if BacksOff(h.st, p, w) {
      var draws := h.draws + [w.random];
      assert draws[..|draws| - 1] == h.draws;
    }
  }

  /** What a reporting step does, apart from the history. */
  lemma ReportFacts(s: Lora, p: Param, a: Action)
    requires Inv(s, p) && Enabled(s, p, a) && Step(s, p, a).report.Some?
    ensures var o, r := Step(s, p, a).st, Step(s, p, a).report.value;
            && !o.active && o.frame == s.frame && !(a.APoll? && (Attempts(s) || BacksOff(s, p, a.world)))
            && (o.conn.Connected? <==> r.ReportLink? || (!r.ReportDiscon? && s.conn.Connected?))
            && (if a.AReset? then r.ReportDiscon? && o.conn.Offline?
                else s.active && ReportAgrees(Session([], r, s.conn, o.conn, false, NO_TRACE)))
  {
  }

  lemma OneMoreSession(done: seq<Session>, s: Session, p: Param)
    requires SessionOk(s, p) && forall i :: 0 <= i < |done| ==> SessionOk(done[i], p)
    ensures forall i :: 0 <= i < |done| + 1 ==> SessionOk((done + [s])[i], p)
    ensures LinkedLast(done + [s]) <==> s.report.ReportLink? || (!s.report.ReportDiscon? && LinkedLast(done))
  {
    assert (done + [s])[..|done|] == done;
  }

  /** Closing a session with such a report keeps the history's invariant. */
  lemma ClosingKeeps(h: History, g: History, p: Param, r: Report, cut: bool, trace: Trace)
    requires HistoryInv(h, p) && Inv(g.st, p) && !g.st.active && g.st.frame == h.st.frame
    requires g == History(g.st, [], [], g.st.latch, NO_TRACE,
                          h.done + [Session(h.frames, r, h.st.conn, g.st.conn, cut, trace)])
    requires g.st.conn.Connected? <==> r.ReportLink? || (!r.ReportDiscon? && h.st.conn.Connected?)
    requires if cut then r.ReportDiscon? && g.st.conn.Offline?
             else h.st.active && ReportAgrees(Session([], r, h.st.conn, g.st.conn, false, NO_TRACE))
    ensures HistoryInv(g, p)
  {
    OneMoreSession(h.done, Session(h.frames, r, h.st.conn, g.st.conn, cut, trace), p);
  }

  lemma ReportKeeps(h: History, p: Param, a: Action)
    requires HistoryInv(h, p) && Enabled(h.st, p, a) && Step(h.st, p, a).report.Some?
    ensures HistoryInv(Next(h, p, a), p)
  {
    InvStep(h.st, p, a);
    ReportFacts(h.st, p, a);
    ClosingKeeps(h, Next(h, p, a), p, Step(h.st, p, a).report.value, a.AReset?, Traced(h.trace, h.st, a));
  }

  lemma NextKeeps(h: History, p: Param, a: Action)
    requires HistoryInv(h, p) && Enabled(h.st, p, a)
    ensures HistoryInv(Next(h, p, a), p)
  {
    InvStep(h.st, p, a);
    if Step(h.st, p, a).report.Some? {
      ReportKeeps(h, p, a);
    } else if a.APoll? && Attempts(h.st) {
      AttemptKeeps(h, p, a.world);
    } else if a.APoll? && h.st.req.ReqTxFail? {
      BackoffKeeps(h, p, a.world);
    }
  }

  lemma {:induction false} RunKeeps(p: Param, steps: seq<Action>, h: History)
    requires Run(p, steps, h)
    ensures HistoryInv(h, p)
    decreases |steps|
  {
    if steps != [] {
      var a := steps[|steps| - 1];
      var g :| Run(p, steps[..|steps| - 1], g) && Enabled(g.st, p, a) && h == Next(g, p, a);
      RunKeeps(p, steps[..|steps| - 1], g);
      NextKeeps(g, p, a);
    }
  }

  // The theorems over all runs.

  /** LoRa never gets stuck, its two alternative timers are never armed together, and nothing is armed or enabled
      outside a session. */
  lemma NeverStuck(p: Param, steps: seq<Action>, h: History)
    requires Run(p, steps, h)
    ensures NotStuck(h.st) && TimersExclusive(h.st) && SleepEntry(h.st)
  {
    RunKeeps(p, steps, h);
  }

  /** Every session makes at most max(1, tx_max_fail_times) attempts, all with the same frame, and ends in one report
      that says how the connection status changed. */
  lemma BoundedSessions(p: Param, steps: seq<Action>, h: History, i: nat)
    requires Run(p, steps, h) && i < |h.done|
    ensures |h.done[i].frames| <= Limit(p) && AllSame(h.done[i].frames)
    ensures !h.done[i].cut ==> |h.done[i].frames| >= 1 && ReportAgrees(h.done[i])
  {
    RunKeeps(p, steps, h);
    assert SessionOk(h.done[i], p);
  }

  lemma ReportsEndSessions(s: Lora, p: Param, a: Action)
    requires Inv(s, p) && Enabled(s, p, a)
    ensures s.active ==> (!Step(s, p, a).st.active <==> Step(s, p, a).report.Some?)
    ensures !s.active && !a.AReset? ==> Step(s, p, a).report.None?
  {
    if a.APoll? && Attempts(s) {
      assert Step(s, p, a).st.active;
    }
  }

  /** A session in progress has made at least one attempt and no more than the bound, and is closed by its report and
      by nothing else. */
  lemma OneReportPerSession(p: Param, steps: seq<Action>, h: History, a: Action)
    requires Run(p, steps, h) && Enabled(h.st, p, a)
    ensures h.st.active <==> 1 <= |h.frames| <= Limit(p)
    ensures h.st.active ==> (!Next(h, p, a).st.active <==> |Next(h, p, a).done| == |h.done| + 1)
    ensures !h.st.active && !a.AReset? ==> Next(h, p, a).done == h.done
  {
    RunKeeps(p, steps, h);
    ReportsEndSessions(h.st, p, a);
  }

  /** The connection status is what the last LINK or DISCON report said, and a publish frame goes out only while that
      is LINK. */
  lemma ReportsTrackConnectivity(p: Param, steps: seq<Action>, h: History)
    requires Run(p, steps, h)
    ensures h.st.conn.Connected? <==> LinkedLast(h.done)
    ensures h.st.active && IsCommand(h.st.frame, CMD_PUBLISH) ==> LinkedLast(h.done)
    ensures !h.st.llrt.LlrtRun? && h.st.active ==> h.st.preConn == h.st.conn
  {
    RunKeeps(p, steps, h);
  }

  /** Whenever the back-off timer is armed in a session, its delay is the one the k-th consecutive draw of that session
      gives, where k is the number of failures so far; and it fits 32 bits for parameters that fit. */
  lemma BackoffOfASession(p: Param, steps: seq<Action>, h: History)
    requires Run(p, steps, h) && h.st.idleTimer && !h.st.req.ReqStop?
    ensures |h.draws| == h.st.fails >= 1
    ensures h.st.latch.delayTime == if Exceeded(p.timing, h.draws)
                                    then p.timing.ceiling + h.draws[h.st.fails - 1]
                                    else Doubled(p.timing.base, h.st.fails - 1) + h.draws[h.st.fails - 1]
    ensures TimingFits(p.timing) ==> h.st.latch.delayTime < 0x1_0000_0000
  {
    RunKeeps(p, steps, h);
    DelaysOfASession(h.latchBefore, p.timing, h.draws);
  }

  /** At every poll that backs off, the power of two is evaluated only to a value that fits 32 bits, for any number of
      failures. */
  lemma PowerNeverOverflows(p: Param, steps: seq<Action>, h: History, w: World)
    requires Run(p, steps, h) && Enabled(h.st, p, APoll(w)) && BacksOff(h.st, p, w) && TimingFits(p.timing)
    requires h.st.fails == 0 || !h.st.latch.maxFlag
    ensures Exponential(p.timing, h.st.fails + 1, w.random) < 0x1_0000_0000
  {
    RunKeeps(p, steps, h);
    var draws := h.draws + [w.random];
    assert draws[..|draws| - 1] == h.draws;
    if h.draws != [] {
      DelaysOfASession(h.latchBefore, p.timing, h.draws);
    }
    ExponentialFits(h.latchBefore, p.timing, draws);
  }
}
