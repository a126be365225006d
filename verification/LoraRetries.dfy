/** How often a session tries: an attempt that fails is followed by another one until the limit is reached, and a
    session that nothing else ends uses all of its attempts. */
module LoraRetries {
  import opened MachineInts
  import opened Backoff
  import opened LoraFrames
  import opened LoraSession
  import opened LoraHistory
  import opened LoraAnswers

  /** An attempt transmits if the channel is clear, and then waits for an answer until its timeout; a busy channel or a
      transmission that fails is a failed attempt at once. */
  lemma AttemptOutcome(p: Param, steps: seq<Action>, h: History, w: World)
    requires Run(p, steps, h) && Enabled(h.st, p, APoll(w)) && Attempts(h.st)
    ensures var t := Step(h.st, p, APoll(w)).st;
            && t.active && t.irq && t.slice && !t.idleTimer
            && (if w.cadClear && w.txOk then t.req.ReqIdle? && t.txTimeout else t.req.ReqTxFail? && !t.txTimeout)
  {
    RunKeeps(p, steps, h);
    InvPoll(h.st, p, w);
    var s := if TestTakesOver(h.st) then h.st.(llrt := LlrtRun, req := ReqActive) else h.st;
    var b := AttemptBegun(s, w.source);
    assert b.active && b.req.ReqIdle? && !b.txTimeout && !b.idleTimer;
    assert Step(h.st, p, APoll(w)).st == Transmitted(b, w);
  }

  /** A session that is not cut reports TEST exactly if it belongs to a loss-rate test. */
  lemma ReportsOfTests(s: Lora, p: Param, a: Action)
    requires Enabled(s, p, a) && Step(s, p, a).report.Some? && !a.AReset?
    ensures Step(s, p, a).report.value.ReportTest? <==> s.llrt.LlrtRun?
  {
  }

  lemma PollKeepsTestStatus(s: Lora, p: Param, w: World)
    requires Inv(s, p) && Enabled(s, p, APoll(w))
    ensures var o := Poll(s, p, w);
            o.st.llrt == if TestTakesOver(s) then LlrtRun
                         else if s.llrt.LlrtRun? && o.report == Some(ReportTest) && w.testOver then LlrtStop
                         else s.llrt
  {
    var t := if TestTakesOver(s) then s.(llrt := LlrtRun, req := ReqActive) else s;
    if t.req.ReqActive? {
      assert AttemptBegun(t, w.source).llrt == t.llrt;
    }
  }

  lemma OtherStepsKeepTestStatus(s: Lora, p: Param, a: Action)
    requires Enabled(s, p, a) && !a.APoll?
    ensures Step(s, p, a).st.llrt == if a.ATestRequest? && s.llrt.LlrtStop? then LlrtActive else s.llrt
  {
  }

  /** The status of the loss-rate test: a request waits until no session is active; then the test runs until its
      counters say at the end of one of its sessions that it is over. */
  lemma TestStatus(p: Param, steps: seq<Action>, h: History, a: Action)
    requires Run(p, steps, h) && Enabled(h.st, p, a)
    ensures var o := Step(h.st, p, a);
            match h.st.llrt
            case LlrtStop => o.st.llrt == if a.ATestRequest? then LlrtActive else LlrtStop
            case LlrtActive => o.st.llrt == if a.APoll? && !h.st.active then LlrtRun else LlrtActive
            case LlrtRun =>
              o.st.llrt == if a.APoll? && o.report == Some(ReportTest) && a.world.testOver then LlrtStop else LlrtRun
  {
    RunKeeps(p, steps, h);
    if a.APoll? {
      PollKeepsTestStatus(h.st, p, a.world);
    } else {
      OtherStepsKeepTestStatus(h.st, p, a);
    }
  }

  predicate NoneBefore(shots: seq<bool>, n: int) {
    forall i :: 0 <= i < n && i < |shots| ==> !shots[i]
  }

  /** Nothing ended the session but its failures. */
  predicate LeftAlone(t: Trace) {
    !t.answered && !t.stopCalled && t.sliceEnd.None?
  }

  /** The attempts of a session that only its failures end: one for each failure, none of them allowed a single shot but
      perhaps the last one, and as many as the limit says unless that one was. */
  predicate UsedUp(frames: nat, shots: seq<bool>, p: Param) {
    && frames == |shots| >= 1 && NoneBefore(shots, |shots| - 1)
    && (shots[|shots| - 1] || |shots| == Limit(p))
  }

  predicate TriedEnough(s: Session, p: Param) {
    !s.cut && LeftAlone(s.trace) ==>
      UsedUp(|s.frames|, s.trace.shots, p) && (!s.report.ReportTest? ==> |s.frames| == Limit(p))
  }

  /** The same of the session in progress. */
  predicate Trying(h: History, p: Param) {
    h.st.active ==>
      && (!h.st.llrt.LlrtRun? || !h.st.req.ReqStop? ==> NoneBefore(h.trace.shots, |h.trace.shots|))
      && (h.st.req.ReqStop? && LeftAlone(h.trace) ==> UsedUp(|h.frames|, h.trace.shots, p))
  }

  ghost predicate RetryInv(h: History, p: Param) {
    && TraceMatches(h.st, h.trace) && Trying(h, p)
    && forall i :: 0 <= i < |h.done| ==> TriedEnough(h.done[i], p)
  }

  /** A failed attempt backs off if another one is allowed, and asks for the end of the session if not. */
  lemma FailureStep(h: History, p: Param, w: World)
    requires HistoryInv(h, p) && RetryInv(h, p) && Enabled(h.st, p, APoll(w)) && h.st.req.ReqTxFail?
    ensures var g, single := Next(h, p, APoll(w)), h.st.llrt.LlrtRun? && w.singleShot;
            && g.st.active && g.done == h.done && g.st.llrt == h.st.llrt && g.frames == h.frames
            && g.trace == h.trace.(shots := h.trace.shots + [single]) && |g.frames| == |g.trace.shots|
            && (if single || |g.trace.shots| == Limit(p) then g.st.req.ReqStop?
                else g.st.req.ReqIdle? && g.st.idleTimer)
  {
    FailsNeverWrap(h.st, p, w);
    assert Poll(h.st, p, w) == Outcome(StatusTxFail(h.st, p, w), None);
  }

  lemma FailureKeepsTrying(h: History, p: Param, w: World)
    requires HistoryInv(h, p) && RetryInv(h, p) && Enabled(h.st, p, APoll(w)) && h.st.req.ReqTxFail?
    ensures Trying(Next(h, p, APoll(w)), p)
  {
    FailureStep(h, p, w);
    assert NoneBefore(h.trace.shots, |h.trace.shots|);
  }

  lemma AttemptKeepsTrying(h: History, p: Param, w: World)
    requires HistoryInv(h, p) && RetryInv(h, p) && Enabled(h.st, p, APoll(w)) && Attempts(h.st)
    ensures Trying(Next(h, p, APoll(w)), p)
  {
    TraceOfAttempt(h.st, p, h.trace, w);
    var g := Next(h, p, APoll(w));
    assert !g.st.req.ReqStop? && g.trace == h.trace;
  }

  lemma OtherStepKeepsTrying(h: History, p: Param, a: Action)
    requires HistoryInv(h, p) && RetryInv(h, p) && Enabled(h.st, p, a) && Step(h.st, p, a).report.None?
    requires !(a.APoll? && (Attempts(h.st) || h.st.req.ReqTxFail?))
    ensures Trying(Next(h, p, a), p)
  {
  }

  lemma RetryStep(h: History, p: Param, a: Action)
    requires HistoryInv(h, p) && RetryInv(h, p) && Enabled(h.st, p, a)
    ensures RetryInv(Next(h, p, a), p)
  {
    var g := Next(h, p, a);
    if Step(h.st, p, a).report.Some? {
      ClosedSession(h, p, a);
      ClosingStep(h, p, a);
    } else {
      TraceOfStep(h.st, p, h.trace, a);
      if a.APoll? && Attempts(h.st) {
        AttemptKeepsTrying(h, p, a.world);
      } else if a.APoll? && h.st.req.ReqTxFail? {
        FailureKeepsTrying(h, p, a.world);
      } else {
        OtherStepKeepsTrying(h, p, a);
      }
    }
  }

  lemma ClosingStep(h: History, p: Param, a: Action)
    requires HistoryInv(h, p) && RetryInv(h, p) && Enabled(h.st, p, a) && Step(h.st, p, a).report.Some?
    ensures TriedEnough(Next(h, p, a).done[|h.done|], p) && !Next(h, p, a).st.active
  {
    ReportFacts(h.st, p, a);
  }

  lemma {:induction false} RunRetries(p: Param, steps: seq<Action>, h: History)
    requires Run(p, steps, h)
    ensures HistoryInv(h, p) && RetryInv(h, p)
    decreases |steps|
  {
    RunKeeps(p, steps, h);
    if steps != [] {
      var a := steps[|steps| - 1];
      var g :| Run(p, steps[..|steps| - 1], g) && Enabled(g.st, p, a) && h == Next(g, p, a);
      RunRetries(p, steps[..|steps| - 1], g);
      RetryStep(g, p, a);
    }
  }

  /** Over all runs: the poll that handles the k-th failed attempt of a session leaves the back-off timer armed, without
      a request, if k is below the limit and no loss-rate test allows a single shot only; and requests the end of the
      session otherwise. */
  lemma FailedAttemptIsRetriedIff(p: Param, steps: seq<Action>, h: History, w: World)
    requires Run(p, steps, h) && Enabled(h.st, p, APoll(w)) && h.st.req.ReqTxFail?
    ensures var t, k := Step(h.st, p, APoll(w)), |h.trace.shots| + 1;
            && t.report.None? && t.st.active && (t.st.idleTimer <==> !t.st.req.ReqStop?)
            && (t.st.idleTimer <==> k < p.txMaxFailTimes && !(h.st.llrt.LlrtRun? && w.singleShot))
  {
    RunRetries(p, steps, h);
    FailureStep(h, p, w);
    FailsBelowLimit(h.st, p);
  }

  /** Over all runs: a session that was neither cut nor stopped, got no answer and did not run out of time made exactly
      as many attempts as the limit says; in a loss-rate test it ended at the first failure that was allowed a single
      shot, if there was one. */
  lemma SessionUsesItsAttempts(p: Param, steps: seq<Action>, h: History, i: nat)
    requires Run(p, steps, h) && i < |h.done| && !h.done[i].cut && LeftAlone(h.done[i].trace)
    ensures !h.done[i].report.ReportTest? ==> |h.done[i].frames| == Limit(p)
    ensures var n, shots := |h.done[i].frames|, h.done[i].trace.shots;
            && |shots| == n >= 1 && (forall k :: 0 <= k < n - 1 ==> !shots[k])
            && (n == Limit(p) || (n < Limit(p) && shots[n - 1]))
  {
    RunRetries(p, steps, h);
    assert TriedEnough(h.done[i], p) && SessionOk(h.done[i], p);
  }
}
