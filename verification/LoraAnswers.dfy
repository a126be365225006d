/** What the reports and frames of a run say about the gateway: when a CONNECT report means that it answered, and that
    every frame sent obeys the receive rule. */
module LoraAnswers {
  import opened MachineInts
  import opened Backoff
  import opened LoraFrames
  import opened LoraSession
  import opened LoraHistory

  /** Something in the session lets it report CONNECT: an answer, a stop request, or a time slice that ended before the
      first failed attempt. */
  predicate Excused(t: Trace) {
    t.answered || t.stopCalled || t.sliceEnd == Some(0)
  }

  /** Of a session that began connected and was neither cut by a reset nor a loss-rate test, the report is CONNECT
      exactly then, and DISCON otherwise. */
  predicate ConnectExact(s: Session) {
    s.before.Connected? && !s.cut && !s.report.ReportTest? ==>
      && (s.report.ReportConnect? <==> Excused(s.trace))
      && (s.report.ReportDiscon? <==> !Excused(s.trace))
  }

  /** The trace of the session in progress against the failure counter. */
  predicate TraceMatches(s: Lora, t: Trace) {
    && (!s.active ==> t == NO_TRACE)
    && (s.active && !s.req.ReqStop? ==> t == Trace(false, t.shots, false, None) && |t.shots| == s.fails)
    && (s.active && s.req.ReqStop? && !s.llrt.LlrtRun? && s.conn.Connected? ==> (s.fails == 0 <==> Excused(t)))
  }

  /** A frame, once there is one, obeys the receive rule; and there is one in a session or while connected. */
  predicate FrameMatches(h: History) {
    && (h.st.frame != [] ==> ObeysReceiveRule(h.st.frame))
    && (h.st.active || h.st.conn.Connected? ==> h.st.frame != [])
  }

  ghost predicate AnswerInv(h: History) {
    && TraceMatches(h.st, h.trace) && FrameMatches(h)
    && forall i :: 0 <= i < |h.done| ==>
         ConnectExact(h.done[i]) && forall j :: 0 <= j < |h.done[i].frames| ==> ObeysReceiveRule(h.done[i].frames[j])
  }

  lemma LoadedFrameObeys(s: Lora, w: Source)
    requires ValidSource(w)
    requires s.frame != [] ==> ObeysReceiveRule(s.frame)
    requires s.conn.Connected? ==> s.frame != []
    ensures ObeysReceiveRule(LoadedFrame(s, w))
  {
    FramesAreWellFormed(w);
  }

  lemma FrameOfAttempt(h: History, p: Param, w: World)
    requires HistoryInv(h, p) && FrameMatches(h) && Enabled(h.st, p, APoll(w)) && Attempts(h.st)
    ensures FrameMatches(Next(h, p, APoll(w)))
  {
    var s := if TestTakesOver(h.st) then h.st.(llrt := LlrtRun, req := ReqActive) else h.st;
    LoadedFrameObeys(s, w.source);
    LoadedFrameFacts(s, w.source);
  }

  lemma FrameKept(s: Lora, p: Param, a: Action)
    requires Inv(s, p) && Enabled(s, p, a) && !(a.APoll? && Attempts(s))
    ensures var t := Step(s, p, a).st;
            t.frame == s.frame && (t.active || t.conn.Connected? ==> s.active || s.conn.Connected?)
  {
  }

  lemma FrameStep(h: History, p: Param, a: Action)
    requires HistoryInv(h, p) && FrameMatches(h) && Enabled(h.st, p, a)
    ensures FrameMatches(Next(h, p, a))
  {
    if a.APoll? && Attempts(h.st) {
      FrameOfAttempt(h, p, a.world);
    } else {
      FrameKept(h.st, p, a);
    }
  }

  lemma TraceOfAttempt(s: Lora, p: Param, t: Trace, w: World)
    requires Inv(s, p) && TraceMatches(s, t) && Enabled(s, p, APoll(w)) && Attempts(s)
    ensures TraceMatches(Poll(s, p, w).st, Traced(t, s, APoll(w)))
  {
    var r := if TestTakesOver(s) then s.(llrt := LlrtRun, req := ReqActive) else s;
    var b := AttemptBegun(r, w.source);
    assert b.active && b.fails == s.fails && b.req.ReqIdle?;
  }

  lemma TraceOfStep(s: Lora, p: Param, t: Trace, a: Action)
    requires Inv(s, p) && TraceMatches(s, t) && Enabled(s, p, a) && Step(s, p, a).report.None?
    ensures TraceMatches(Step(s, p, a).st, Traced(t, s, a))
  {
    match a
    case APoll(w) =>
      if Attempts(s) {
        TraceOfAttempt(s, p, t, w);
      } else if s.req.ReqTxFail? {
        FailsNeverWrap(s, p, w);
      }
    case _ =>
  }

  /** The session that a step closes, if it closes one. */
  lemma ClosedSession(h: History, p: Param, a: Action)
    requires HistoryInv(h, p) && TraceMatches(h.st, h.trace) && Enabled(h.st, p, a)
    requires Step(h.st, p, a).report.Some?
    ensures var g := Next(h, p, a);
            ConnectExact(g.done[|h.done|]) && g.done[|h.done|].frames == h.frames && TraceMatches(g.st, g.trace)
  {
    ReportFacts(h.st, p, a);
  }

  lemma AnswerStep(h: History, p: Param, a: Action)
    requires HistoryInv(h, p) && AnswerInv(h) && Enabled(h.st, p, a)
    ensures AnswerInv(Next(h, p, a))
  {
    FrameStep(h, p, a);
    if Step(h.st, p, a).report.None? {
      TraceOfStep(h.st, p, h.trace, a);
    } else {
      ClosedSession(h, p, a);
      assert forall j :: 0 <= j < |h.frames| ==> ObeysReceiveRule(h.frames[j]);
    }
  }

  lemma {:induction false} RunAnswers(p: Param, steps: seq<Action>, h: History)
    requires Run(p, steps, h)
    ensures HistoryInv(h, p) && AnswerInv(h)
    decreases |steps|
  {
    RunKeeps(p, steps, h);
    if steps != [] {
      var a := steps[|steps| - 1];
      var g :| Run(p, steps[..|steps| - 1], g) && Enabled(g.st, p, a) && h == Next(g, p, a);
      RunAnswers(p, steps[..|steps| - 1], g);
      AnswerStep(g, p, a);
    }
  }

  /** Every frame of every session obeys the receive rule. */
  lemma FramesObeyReceiveRule(p: Param, steps: seq<Action>, h: History)
    requires Run(p, steps, h)
    ensures h.st.active ==> ObeysReceiveRule(h.st.frame)
    ensures forall i, j :: 0 <= i < |h.done| && 0 <= j < |h.done[i].frames| ==> ObeysReceiveRule(h.done[i].frames[j])
  {
    RunAnswers(p, steps, h);
  }

  /** Over all runs: a session that began connected, was not cut and was no test reports CONNECT without an answer if
      and only if a stop was requested in it or its time slice ended before the first failure, and there was no
      answer. */
  lemma ConnectWithoutAnswerIff(p: Param, steps: seq<Action>, h: History, i: nat)
    requires Run(p, steps, h) && i < |h.done|
    requires h.done[i].before.Connected? && !h.done[i].cut && !h.done[i].report.ReportTest?
    ensures var t := h.done[i].trace;
            && (h.done[i].report.ReportConnect? && !t.answered
                <==> !t.answered && (t.stopCalled || t.sliceEnd == Some(0)))
            && (t.answered ==> h.done[i].report.ReportConnect?)
            && (h.done[i].report.ReportConnect? || h.done[i].report.ReportDiscon?)
  {
    RunAnswers(p, steps, h);
    assert ConnectExact(h.done[i]);
  }

  // Both exceptions happen.

  /** One more step of a run. */
  lemma RunExtends(p: Param, steps: seq<Action>, h: History, a: Action)
    requires Run(p, steps, h) && Enabled(h.st, p, a)
    ensures Run(p, steps + [a], Next(h, p, a))
  {
    var more := steps + [a];
    assert more[..|more| - 1] == steps && more[|more| - 1] == a;
  }

  /** A world in which everything works. */
  ghost predicate Favourable(p: Param, w: World) {
    && ValidSource(w.source) && p.timing.lower <= w.random < p.timing.upper
    && w.cadClear && w.txOk && w.parseOk && !w.singleShot
  }

  /** A session is requested and makes its first attempt. */
  lemma Sends(p: Param, w: World, steps: seq<Action>, h: History) returns (more: seq<Action>, g: History)
    requires Favourable(p, w) && Run(p, steps, h) && !h.st.active && h.st.llrt.LlrtStop? && h.trace == NO_TRACE
    ensures Run(p, more, g) && g.done == h.done && g.trace == NO_TRACE && g.st.active && g.st.req.ReqIdle?
    ensures g.st.slice && g.st.txTimeout && g.st.irq && g.st.llrt.LlrtStop?
    ensures g.st.conn == g.st.preConn == h.st.conn && g.st.fails == h.st.fails
  {
    RunKeeps(p, steps, h);
    RunExtends(p, steps, h, AStart);
    more, g := steps + [AStart], Next(h, p, AStart);
    RunExtends(p, more, g, APoll(w));
    LoadedFrameFacts(g.st, w.source);
    var b := AttemptBegun(g.st, w.source);
    assert b.active && b.slice && b.conn == b.preConn == h.st.conn && b.fails == h.st.fails;
    assert Poll(g.st, p, w) == Outcome(Transmitted(b, w), None);
    more, g := more + [APoll(w)], Next(g, p, APoll(w));
  }

  /** The node connects: the first attempt is answered. */
  lemma Connects(p: Param, w: World) returns (steps: seq<Action>, h: History)
    requires Favourable(p, w)
    ensures Run(p, steps, h) && |h.done| == 1 && h.trace == NO_TRACE
    ensures h.st.conn.Connected? && !h.st.active && h.st.llrt.LlrtStop? && h.st.fails == 0
  {
    steps, h := Sends(p, w, [], InitialHistory());
    RunExtends(p, steps, h, ARx);
    steps, h := steps + [ARx], Next(h, p, ARx);
    RunExtends(p, steps, h, APoll(w));
    assert Poll(h.st, p, w) == StatusTxSuccess(h.st, w);
    steps, h := steps + [APoll(w)], Next(h, p, APoll(w));
  }

  /** The poll that ends a connected session with no failure on the counter. */
  lemma Closes(p: Param, w: World, steps: seq<Action>, h: History) returns (more: seq<Action>, g: History)
    requires Favourable(p, w) && Run(p, steps, h) && h.st.active && h.st.req.ReqStop? && h.st.llrt.LlrtStop?
    requires h.st.conn == h.st.preConn == Connected && h.st.fails == 0
    ensures Run(p, more, g) && |g.done| == |h.done| + 1
    ensures var s := g.done[|h.done|]; s.before.Connected? && s.report.ReportConnect? && !s.cut && s.trace == h.trace
  {
    RunExtends(p, steps, h, APoll(w));
    assert Poll(h.st, p, w) == StatusStop(h.st, w) && StopReport(h.st) == ReportConnect;
    more, g := steps + [APoll(w)], Next(h, p, APoll(w));
  }

  /** The time slice ends before the first failure: CONNECT, and nothing was received. */
  lemma SliceConnectsWithoutAnswer(p: Param, w: World) returns (steps: seq<Action>, h: History)
    requires Favourable(p, w)
    ensures Run(p, steps, h) && |h.done| == 2 && h.done[1].before.Connected? && h.done[1].report.ReportConnect?
    ensures h.done[1].trace == Trace(false, [], false, Some(0))
  {
    steps, h := Connects(p, w);
    steps, h := Sends(p, w, steps, h);
    RunExtends(p, steps, h, ASlice);
    steps, h := steps + [ASlice], Next(h, p, ASlice);
    steps, h := Closes(p, w, steps, h);
  }

  /** An attempt fails, and a stop request clears the counter: CONNECT again, although the gateway was silent. */
  lemma StopConnectsAfterFailure(p: Param, w: World) returns (steps: seq<Action>, h: History)
    requires Favourable(p, w)
    ensures Run(p, steps, h) && |h.done| == 2 && h.done[1].before.Connected? && h.done[1].report.ReportConnect?
    ensures h.done[1].trace == Trace(false, [false], true, None)
  {
    steps, h := Connects(p, w);
    steps, h := Sends(p, w, steps, h);
    steps, h := Fails(p, w, steps, h);
    RunExtends(p, steps, h, AStop);
    steps, h := steps + [AStop], Next(h, p, AStop);
    steps, h := Closes(p, w, steps, h);
  }

  lemma Fails(p: Param, w: World, steps: seq<Action>, h: History) returns (more: seq<Action>, g: History)
    requires Favourable(p, w) && Run(p, steps, h) && h.st.active && h.st.req.ReqIdle? && h.st.txTimeout
    requires h.st.llrt.LlrtStop? && h.trace == NO_TRACE && h.st.fails == 0
    ensures Run(p, more, g) && g.done == h.done && g.trace == Trace(false, [false], false, None) && g.st.active
    ensures g.st.llrt.LlrtStop? && g.st.conn == h.st.conn && g.st.preConn == h.st.preConn
  {
    RunExtends(p, steps, h, ATxTimeout);
    more, g := steps + [ATxTimeout], Next(h, p, ATxTimeout);
    FailureIsHandled(p, w, g);
    RunExtends(p, more, g, APoll(w));
    more, g := more + [APoll(w)], Next(g, p, APoll(w));
  }

  lemma FailureIsHandled(p: Param, w: World, h: History)
    requires Favourable(p, w) && h.st.active && h.st.req.ReqTxFail? && h.trace == NO_TRACE
    ensures var g := Next(h, p, APoll(w));
            && g.done == h.done && g.trace == Trace(false, [false], false, None) && g.st.active
            && g.st.llrt == h.st.llrt && g.st.conn == h.st.conn && g.st.preConn == h.st.preConn
  {
    assert Poll(h.st, p, w) == Outcome(StatusTxFail(h.st, p, w), None);
  }
}
