/** The task table of low_power_manage.c, from which the firmware decides whether it may sleep. */
module LowPowerTable {
  import opened MachineInts

  const LPM_TASK_MAX_NUMBER: nat := 10

  datatype TaskStat = StaInvalid | StaStop | StaRun | StaLp | StaNull | StaRegister

  datatype Entry = Entry(id: byte, stat: TaskStat)

  predicate IsTaskState(state: TaskStat) {
    state.StaStop? || state.StaRun? || state.StaLp?
  }

  /** The abstract table: the live entries in order of registration, and the slots beyond them that still hold an
      abandoned state and therefore refuse a registration. */
  datatype View = View(live: seq<Entry>, stale: set<nat>)

  predicate ValidView(v: View) {
    && |v.live| <= LPM_TASK_MAX_NUMBER
    && (forall i :: 0 <= i < |v.live| ==> !v.live[i].stat.StaNull?)
    && (forall k :: k in v.stale ==> |v.live| <= k < LPM_TASK_MAX_NUMBER)
  }

  /** The position of the first entry with this id, or the length of the table. */
  function FirstOf(live: seq<Entry>, id: byte): (i: nat)
    ensures i <= |live| && (i < |live| ==> live[i].id == id)
    ensures forall j :: 0 <= j < i ==> live[j].id != id
  {
    if live == [] then 0 else if live[0].id == id then 0 else 1 + FirstOf(live[1..], id)
  }

  predicate CanRegister(v: View) {
    |v.live| < LPM_TASK_MAX_NUMBER && |v.live| !in v.stale
  }

  function Registered(v: View, id: byte): View {
    if CanRegister(v) then v.(live := v.live + [Entry(id, StaRegister)]) else v
  }

  /** Cancelling removes the first entry with the id; the slot that falls free stays marked unless it held that very
      entry. */
  function Cancelled(v: View, id: byte): View {
    var i := FirstOf(v.live, id);
    if i == |v.live| then v
    else View(v.live[..i] + v.live[i + 1..], if i == |v.live| - 1 then v.stale else v.stale + {|v.live| - 1})
  }

  function StatSet(v: View, id: byte, state: TaskStat): View {
    var i := FirstOf(v.live, id);
    if !IsTaskState(state) || i == |v.live| then v else v.(live := v.live[i := Entry(id, state)])
  }

  function Queried(v: View, id: byte): TaskStat {
    var i := FirstOf(v.live, id);
    if i == |v.live| then StaInvalid else v.live[i].stat
  }

  class LpmTable {
    var nums: nat
    const ids: array<byte>
    const stats: array<TaskStat>

    ghost predicate Valid()
      reads this, ids, stats
    {
      && ids.Length == LPM_TASK_MAX_NUMBER && stats.Length == LPM_TASK_MAX_NUMBER && nums <= LPM_TASK_MAX_NUMBER
      && forall i :: 0 <= i < nums ==> !stats[i].StaNull?
    }

    ghost function Table(): View
      reads this, ids, stats
      requires Valid()
    {
      View(seq(nums, i requires 0 <= i < nums && Valid() reads this, ids, stats => Entry(ids[i], stats[i])),
           set k | nums <= k < LPM_TASK_MAX_NUMBER && !stats[k].StaNull?)
    }

    constructor ()
      ensures Valid() && Table() == View([], {})
    {
      nums := 0;
      ids := new byte[LPM_TASK_MAX_NUMBER];
      stats := new TaskStat[LPM_TASK_MAX_NUMBER];
      new;
      for i := 0 to LPM_TASK_MAX_NUMBER
        modifies stats
        invariant forall k :: 0 <= k < i ==> stats[k].StaNull?
      {
        stats[i] := StaNull;
      }
    }

    method TaskReg(task_id: byte) returns (status: bool)
      requires Valid()
      modifies this`nums, ids, stats
      ensures Valid() && status == CanRegister(old(Table())) && Table() == Registered(old(Table()), task_id)
    {
      status := false;
      if nums < LPM_TASK_MAX_NUMBER {
        if stats[nums].StaNull? {
          ids[nums] := task_id;
          stats[nums] := StaRegister;
          nums := nums + 1;
          status := true;
          assert Table().live == old(Table()).live + [Entry(task_id, StaRegister)];
        }
      }
    }

    /** The index of the first live entry with this id, or nums. */
    method Find(task_id: byte) returns (i: nat)
      requires Valid()
      ensures i == FirstOf(Table().live, task_id)
    {
      i := 0;
      while i < nums && ids[i] != task_id
        invariant i <= nums
        invariant forall j :: 0 <= j < i ==> ids[j] != task_id
      {
        i := i + 1;
      }
      FirstOfIs(Table().live, task_id, i);
    }

    /** Moves the entries behind a cancelled slot down by one. */
    method CloseGap(hole: nat)
      requires Valid() && hole < nums
      modifies ids, stats
      ensures forall j :: 0 <= j < hole ==> ids[j] == old(ids[j]) && stats[j] == old(stats[j])
      ensures forall j :: hole <= j < nums - 1 ==> ids[j] == old(ids[j + 1]) && stats[j] == old(stats[j + 1])
      ensures forall j :: nums <= j < LPM_TASK_MAX_NUMBER ==> stats[j] == old(stats[j])
      ensures stats[nums - 1].StaNull? <==> hole == nums - 1
    {
      stats[hole] := StaNull;
      var i := hole + 1;
      while i < nums
        invariant hole < i <= nums
        invariant forall j :: 0 <= j < hole || i - 1 < j < LPM_TASK_MAX_NUMBER
                          ==> ids[j] == old(ids[j]) && stats[j] == old(stats[j])
        invariant forall j :: hole <= j < i - 1 ==> ids[j] == old(ids[j + 1]) && stats[j] == old(stats[j + 1])
        invariant if i - 1 == hole then stats[hole].StaNull? else stats[i - 1] == old(stats[i - 1])
      {
        if stats[i].StaNull? {
          break;
        }
        ids[i - 1] := ids[i];
        stats[i - 1] := stats[i];
        i := i + 1;
      }
    }

    method TaskCancelReg(task_id: byte) returns (status: bool)
      requires Valid()
      modifies this`nums, ids, stats
      ensures Valid()
      ensures status <==> exists e :: e in old(Table()).live && e.id == task_id
      ensures Table() == Cancelled(old(Table()), task_id)
    {
      ghost var before := Table();
      var i := Find(task_id);
      status := i < nums;
      if status {
        assert before.live[i] in before.live;
        CloseGap(i);
        nums := nums - 1;
        CancelledIs(before, Table(), task_id);
      }
    }

    method TaskSetStat(task_id: byte, state: TaskStat) returns (status: bool)
      requires Valid()
      modifies stats
      ensures Valid() && Table() == StatSet(old(Table()), task_id, state)
      ensures status <==>
                && (state == StaStop || state == StaRun || state == StaLp)
                && exists e :: e in old(Table()).live && e.id == task_id
    {
      if !IsTaskState(state) {
        return false;
      }
      var i := Find(task_id);
      status := i < nums;
      if status {
        assert old(Table()).live[i] in old(Table()).live;
        stats[i] := state;
        assert Table().live == old(Table()).live[i := Entry(task_id, state)];
      }
    }

    method TaskQryStat(task_id: byte) returns (status: TaskStat)
      requires Valid()
      ensures status == Queried(Table(), task_id)
      ensures (forall e :: e in Table().live ==> e.id != task_id) ==> status == StaInvalid
      ensures (exists e :: e in Table().live && e.id == task_id) ==> Entry(task_id, status) in Table().live
    {
      var i := Find(task_id);
      status := if i < nums then stats[i] else StaInvalid;
      assert i < nums ==> Table().live[i] == Entry(task_id, status);
    }

    /** The firmware stays awake exactly when some live entry is running. */
    method IsTaskRun() returns (run: bool)
      requires Valid()
      ensures run <==> exists i :: 0 <= i < |Table().live| && Table().live[i].stat.StaRun?
    {
      for i := 0 to nums
        invariant forall j :: 0 <= j < i ==> !Table().live[j].stat.StaRun?
      {
        if stats[i].StaRun? {
          assert Table().live[i].stat.StaRun?;
          return true;
        }
      }
      return false;
    }
  }

  /** The view a cancellation leaves, slot by slot. */
  lemma CancelledIs(v: View, w: View, id: byte)
    requires ValidView(v)
    requires FirstOf(v.live, id) < |v.live| == |w.live| + 1
    requires forall j :: 0 <= j < |w.live| ==> w.live[j] == v.live[if j < FirstOf(v.live, id) then j else j + 1]
    requires forall k :: k in w.stale <==> k in v.stale || (k == |v.live| - 1 && FirstOf(v.live, id) != k)
    ensures w == Cancelled(v, id)
  {
    var c := Cancelled(v, id);
    assert w.live == c.live;
    assert w.stale == c.stale;
  }

  lemma {:induction false} FirstOfIs(live: seq<Entry>, id: byte, i: nat)
    requires i <= |live| && (i < |live| ==> live[i].id == id)
    requires forall j :: 0 <= j < i ==> live[j].id != id
    ensures FirstOf(live, id) == i
  {
    if i > 0 {
      FirstOfIs(live[1..], id, i - 1);
    }
  }

  // Runs of the table.

  datatype Op = Reg(id: byte) | Cancel(id: byte) | SetStat(id: byte, state: TaskStat)

  function Next(v: View, op: Op): View {
    match op
    case Reg(id) => Registered(v, id)
    case Cancel(id) => Cancelled(v, id)
    case SetStat(id, state) => StatSet(v, id, state)
  }

  function RunOps(v: View, ops: seq<Op>): View
    decreases |ops|
  {
    if ops == [] then v else RunOps(Next(v, ops[0]), ops[1..])
  }

  lemma NextValid(v: View, op: Op)
    requires ValidView(v)
    ensures ValidView(Next(v, op))
  {
  }

  /** Cancelling removes one entry, the first with its id, and keeps the others in order. */
  lemma CancelRemovesFirst(v: View, id: byte)
    requires ValidView(v)
    ensures var i := FirstOf(v.live, id);
            && |Cancelled(v, id).live| == (if i < |v.live| then |v.live| - 1 else |v.live|)
            && (forall j :: 0 <= j < i ==> Cancelled(v, id).live[j] == v.live[j])
            && (forall j :: i < j < |v.live| ==> Cancelled(v, id).live[j - 1] == v.live[j])
  {
  }

  /** ... so every other task is still found, in the state it had. */
  lemma CancelKeepsOthers(v: View, id: byte, other: byte)
    requires ValidView(v) && other != id
    ensures Queried(Cancelled(v, id), other) == Queried(v, other)
  {
    var i, k := FirstOf(v.live, id), FirstOf(v.live, other);
    var live := Cancelled(v, id).live;
    if i < |v.live| {
      forall j | 0 <= j < |live|
        ensures live[j] == v.live[if j < i then j else j + 1]
      {
      }
      FirstOfIs(live, other, if k > i then k - 1 else k);
    }
  }

  /** Setting a state changes the first entry with the id, if there is one and the state is stop, run or low-power, and
      nothing else. */
  lemma SetChangesOneEntry(v: View, id: byte, state: TaskStat)
    requires ValidView(v)
    ensures var w, i := StatSet(v, id, state), FirstOf(v.live, id);
            && |w.live| == |v.live| && w.stale == v.stale
            && (forall j :: 0 <= j < |v.live| && j != i ==> w.live[j] == v.live[j])
            && (i < |v.live| ==> w.live[i] == if state == StaStop || state == StaRun || state == StaLp
                                              then Entry(id, state) else v.live[i])
  {
  }

  /** A slot left behind by cancelling an earlier entry is lost for good: from then on the table never again holds more
      live tasks than that slot's index, whatever is registered or cancelled. */
  lemma {:induction false} StaleSlotIsLost(v: View, ops: seq<Op>, slot: nat)
    requires ValidView(v) && slot in v.stale
    ensures ValidView(RunOps(v, ops)) && slot in RunOps(v, ops).stale && |RunOps(v, ops).live| <= slot
    decreases |ops|
  {
    if ops != [] {
      NextValid(v, ops[0]);
      StaleSlotIsLost(Next(v, ops[0]), ops[1..], slot);
    }
  }

  /** Every cancellation in the run removed the most recently registered live task, or nothing. */
  ghost predicate CancelsLast(v: View, ops: seq<Op>)
    decreases |ops|
  {
    ops != [] ==>
      && (ops[0].Cancel? ==> FirstOf(v.live, ops[0].id) >= |v.live| - 1)
      && CancelsLast(Next(v, ops[0]), ops[1..])
  }

  lemma {:induction false} NoStaleSlots(v: View, ops: seq<Op>)
    requires ValidView(v) && v.stale == {}
    ensures ValidView(RunOps(v, ops)) && (RunOps(v, ops).stale == {} <==> CancelsLast(v, ops))
    decreases |ops|
  {
    if ops != [] {
      NextValid(v, ops[0]);
      var w := Next(v, ops[0]);
      if w.stale == {} {
        NoStaleSlots(w, ops[1..]);
      } else {
        assert ops[0].Cancel? && |v.live| - 1 in w.stale;
        StaleSlotIsLost(w, ops[1..], |v.live| - 1);
      }
    }
  }

  /** After any run from the empty table, a table that can still hold ten tasks is exactly one whose cancellations all
      took the last task; only then does "fewer than ten live" always suffice to register. */
  lemma RegistrationCapacity(ops: seq<Op>)
    ensures var v := RunOps(View([], {}), ops);
            && (CancelsLast(View([], {}), ops) ==> (CanRegister(v) <==> |v.live| < LPM_TASK_MAX_NUMBER))
            && (!CancelsLast(View([], {}), ops) ==>
                  exists slot :: slot in v.stale &&
                    forall more: seq<Op> :: |RunOps(v, more).live| <= slot < LPM_TASK_MAX_NUMBER)
  {
    var v := RunOps(View([], {}), ops);
    NoStaleSlots(View([], {}), ops);
    if !CancelsLast(View([], {}), ops) {
      var slot :| slot in v.stale;
      forall more: seq<Op>
        ensures |RunOps(v, more).live| <= slot < LPM_TASK_MAX_NUMBER
      {
        StaleSlotIsLost(v, more, slot);
      }
    }
  }

  /** Two tasks registered and the first cancelled: one task is live, yet registration is refused. */
  lemma RegistrationRefusedAfterCancel()
    ensures var v := RunOps(View([], {}), [Reg(1), Reg(2), Cancel(1)]);
            v.live == [Entry(2, StaRegister)] && !CanRegister(v)
  {
    var v1 := Registered(View([], {}), 1);
    var v2 := Registered(v1, 2);
    var v3 := Cancelled(v2, 1);
    assert v2.live == [Entry(1, StaRegister), Entry(2, StaRegister)];
    assert v3.live == [Entry(2, StaRegister)] && v3.stale == {1};
    assert RunOps(v3, []) == v3 && RunOps(v2, [Cancel(1)]) == v3;
    assert RunOps(v1, [Reg(2), Cancel(1)]) == RunOps(v2, [Reg(2), Cancel(1)][1..]);
    assert RunOps(View([], {}), [Reg(1), Reg(2), Cancel(1)]) == RunOps(v1, [Reg(1), Reg(2), Cancel(1)][1..]);
    assert [Reg(1), Reg(2), Cancel(1)][1..] == [Reg(2), Cancel(1)] && [Reg(2), Cancel(1)][1..] == [Cancel(1)];
  }
}
