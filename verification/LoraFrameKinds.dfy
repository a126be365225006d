/** Which frame a session sends: TEST in a loss-rate test, CONNECT while the node is not connected, and PUBLISH while it
    is. */
module LoraFrameKinds {
  import opened MachineInts
  import opened LoraFrames
  import opened LoraSession
  import opened LoraHistory
  import opened LoraRetries

  /** The command of the frames of a session, by whether it is a loss-rate test and by the connection status. */
  function CommandFor(test: bool, conn: Conn): byte {
    if test then 5 else if conn.Connected? then 3 else 1
  }

  predicate AllCommands(frames: seq<seq<byte>>, cmd: byte) {
    forall i :: 0 <= i < |frames| ==> IsCommand(frames[i], cmd)
  }

  /** The firmware knows the product it runs on. */
  predicate KnownProduct(a: Action) {
    a.APoll? ==> a.world.source.version == 200 || a.world.source.version == 201
  }

  predicate KnownProducts(steps: seq<Action>) {
    forall i :: 0 <= i < |steps| ==> KnownProduct(steps[i])
  }

  /** The frame of the session in progress, and of every finished one that was not cut. */
  ghost predicate Kinds(h: History) {
    && (h.st.active ==> IsCommand(h.st.frame, CommandFor(h.st.llrt.LlrtRun?, h.st.conn)))
    && forall i :: 0 <= i < |h.done| ==> KindOf(h.done[i])
  }

  predicate KindOf(s: Session) {
    !s.cut ==> AllCommands(s.frames, CommandFor(s.report.ReportTest?, s.before))
  }

  lemma LoadedKind(s: Lora, w: Source)
    requires ValidSource(w) && (w.version == 200 || w.version == 201)
    ensures IsCommand(LoadedFrame(s, w), CommandFor(s.llrt.LlrtRun?, s.conn)) && |LoadedFrame(s, w)| <= LORA_MTU
  {
    FramesAreWellFormed(w);
  }

  lemma FirstAttemptKind(h: History, p: Param, w: World)
    requires HistoryInv(h, p) && Kinds(h) && Enabled(h.st, p, APoll(w)) && Attempts(h.st) && KnownProduct(APoll(w))
    ensures Kinds(Next(h, p, APoll(w)))
  {
    var s := if TestTakesOver(h.st) then h.st.(llrt := LlrtRun, req := ReqActive) else h.st;
    LoadedKind(s, w.source);
    var b := AttemptBegun(s, w.source);
    assert b.frame == (if s.active then s.frame else LoadedFrame(s, w.source)) && b.llrt == s.llrt && b.conn == s.conn;
    assert |b.frame| <= LORA_MTU;
    var g := Next(h, p, APoll(w));
    assert g.st == Transmitted(b, w) && g.done == h.done;
  }

  lemma ClosingKind(h: History, p: Param, a: Action)
    requires HistoryInv(h, p) && Kinds(h) && Enabled(h.st, p, a) && Step(h.st, p, a).report.Some?
    ensures KindOf(Next(h, p, a).done[|h.done|]) && !Next(h, p, a).st.active
  {
    ReportFacts(h.st, p, a);
    if !a.AReset? {
      ReportsOfTests(h.st, p, a);
    }
  }

  lemma OtherKind(h: History, p: Param, a: Action)
    requires HistoryInv(h, p) && Kinds(h) && Enabled(h.st, p, a) && Step(h.st, p, a).report.None?
    requires !(a.APoll? && Attempts(h.st))
    ensures Kinds(Next(h, p, a))
  {
    var t := Step(h.st, p, a).st;
    assert t.active ==> h.st.active && t.frame == h.st.frame && t.conn == h.st.conn;
    assert t.active ==> t.llrt.LlrtRun? == h.st.llrt.LlrtRun?;
  }

  lemma KindStep(h: History, p: Param, a: Action)
    requires HistoryInv(h, p) && Kinds(h) && Enabled(h.st, p, a) && KnownProduct(a)
    ensures Kinds(Next(h, p, a))
  {
    if Step(h.st, p, a).report.Some? {
      ClosingKind(h, p, a);
    } else if a.APoll? && Attempts(h.st) {
      FirstAttemptKind(h, p, a.world);
    } else {
      OtherKind(h, p, a);
    }
  }

  /** Over all runs on a known product: every frame of a session carries the command that its purpose calls for. */
  lemma {:induction false} FrameFitsSession(p: Param, steps: seq<Action>, h: History)
    requires Run(p, steps, h) && KnownProducts(steps)
    ensures h.st.active ==> IsCommand(h.st.frame, CommandFor(h.st.llrt.LlrtRun?, h.st.conn))
    ensures forall i :: 0 <= i < |h.done| && !h.done[i].cut ==>
              AllCommands(h.done[i].frames, CommandFor(h.done[i].report.ReportTest?, h.done[i].before))
    decreases |steps|
  {
    RunKeeps(p, steps, h);
    if steps != [] {
      var a := steps[|steps| - 1];
      var g :| Run(p, steps[..|steps| - 1], g) && Enabled(g.st, p, a) && h == Next(g, p, a);
      FrameFitsSession(p, steps[..|steps| - 1], g);
      RunKeeps(p, steps[..|steps| - 1], g);
      KindStep(g, p, a);
    }
  }
}
