/** A run in which a shard that nobody ever asked to move ends up with another owner than the
    one the assignment matrix gives it. */
module StaleOwner {
  import opened Device
  import opened Handover
  import opened Assignment
  import opened Safety
  import opened Migration
  import opened Scenario
  import SS = ShortSolver

  /** Two working cores, no offloading core, four shards dealt s % 2. */
  const CFG: Config := Config(2, 0, 4, 32)

  const FIRST_A: SS.Matrix := [[1, 0], [0, 1], [1, 0], [0, 1]]
  const SWAPPED_A: SS.Matrix := [[0, 1], [1, 0], [1, 0], [0, 1]]    // shards 0 and 1 change places

  const QUIET: seq<bool> := [false, false]
  const NOWHERE: seq<nat> := [NONE, NONE]

  function Owned(o: nat): Control {
    Control(o, 0, false, 0.0, 0.0)
  }

  const FIRST_FLAGS: Flags :=
    Flags([Owned(0), Owned(1), Owned(0), Owned(1)], QUIET, QUIET, QUIET, QUIET, QUIET, NOWHERE, [0, 2], [1, 3], [], [])
  const WORKERS: seq<Worker> := [Worker(0, 1, false, NONE), Worker(2, 3, false, NONE)]
  const START: State := State(Packets([[], []], [[], [], [], []], [], [], [], [], []), FIRST_FLAGS, WORKERS, [],
                              FIRST_A, multiset{})

  /** One packet waits for core 0. */
  const WAITING: State := START.(pk := Packets([[7], []], [[], [], [], []], [], [], [], [], []), entered := multiset{7})

  const ANSWER: Answer := Answer(SWAPPED_A, [0.0, 0.0, 0.0, 0.0], {}, [], true)
  const ASKED_FLAGS: Flags :=
    FIRST_FLAGS.(shards := [Control(0, 1, true, 0.0, 0.0), Control(1, 0, true, 0.0, 0.0), Owned(0), Owned(1)],
                 transferShard := [true, true], signal := [true, true])
  const ASKED: State := WAITING.(fl := ASKED_FLAGS, a := SWAPPED_A)

  lemma RowIsHot(a: SS.Matrix, s: nat, h: nat)
    requires s < |a| == 4 && h < 2 && |a[s]| == 2 && a[s][h] == 1 && a[s][1 - h] == 0
    ensures SS.HotBelow(SS.Row(a, s), 2, 2)
  {
    assert SS.Row(a, s).At(0) == a[s][0] && SS.Row(a, s).At(1) == a[s][1];
    assert SS.Hot(SS.Row(a, s), 2, h);
  }

  lemma MatricesOk()
    ensures OneHot(FIRST_A, CFG) && OneHot(SWAPPED_A, CFG)
  {
    RowIsHot(FIRST_A, 0, 0);
    RowIsHot(FIRST_A, 1, 1);
    RowIsHot(FIRST_A, 2, 0);
    RowIsHot(FIRST_A, 3, 1);
    RowIsHot(SWAPPED_A, 0, 1);
    RowIsHot(SWAPPED_A, 1, 0);
    RowIsHot(SWAPPED_A, 2, 0);
    RowIsHot(SWAPPED_A, 3, 1);
  }

  lemma Starts()
    ensures Initial(START, CFG)
  {
    assert forall s :: 0 <= s < 4 ==> FirstCore(s, 2) == if s == 0 || s == 2 then 0 else 1;
    FirstMatrixIs(FIRST_A, 2, 4, 2);
  }

  lemma Arrives()
    requires Inv(START, CFG)
    ensures Step(START, Arrive(0, 7), WAITING, CFG)
  {
    var nic, w: nat := START.pk.nic, 0;
    assert nic[w] + [7] == [7];
    assert nic[w := [7]] == WAITING.pk.nic;
    assert START.entered + multiset{7} == WAITING.entered;
  }

  /** Which cells change from 0 to 1. */
  lemma Changes(s: int, w: int)
    ensures Requested(FIRST_A, SWAPPED_A, s, w) <==> (s == 0 && w == 1) || (s == 1 && w == 0)
  {
  }

  lemma Decides()
    requires Inv(WAITING, CFG)
    ensures AnswerOk(ANSWER, CFG) && Step(WAITING, Decide(ANSWER), ASKED, CFG)
  {
    MatricesOk();
    var shards := Wanted(FIRST_FLAGS.shards, ANSWER.wanted);
    assert shards == FIRST_FLAGS.shards;
    forall s, w ensures Requested(FIRST_A, SWAPPED_A, s, w) <==> (s == 0 && w == 1) || (s == 1 && w == 0) {
      Changes(s, w);
    }
    assert Relinked(FIRST_FLAGS, []) == FIRST_FLAGS;
    assert Requested(FIRST_A, SWAPPED_A, 0, 1) && Requested(FIRST_A, SWAPPED_A, 1, 0);
    assert Leaves(shards, FIRST_A, SWAPPED_A, 0, 0, 2) && Leaves(shards, FIRST_A, SWAPPED_A, 1, 1, 2);
    assert Notified(QUIET, {}) == QUIET;
  }

  /** The state after a run of the task of core 0. */
  ghost function Worked(st: State): State
    requires Inv(st, CFG)
  {
    assert WorkerOk(st.workers[0], 0, st.fl, st.pk, CFG);
    var l := AfterWork(LocalOf(st, 0), 0, Nothing(), CFG);
    st.(pk := l.pk, fl := l.fl, workers := st.workers[0 := l.wk])
  }

  /** Core 0 is working off its private ring, which holds `n` packets; the controls of the
      shards are as the controller left them. */
  ghost predicate WorkingOff(st: State, n: nat) {
    && |st.workers| == 2 && st.workers[0].myown && st.workers[0].myring == 1
    && |st.pk.rings| == 4 && |st.pk.rings[1]| == n
    && st.fl.shards == ASKED_FLAGS.shards && st.a == SWAPPED_A
  }

  lemma DrainsNic()
    requires Inv(ASKED, CFG)
    ensures WorkingOff(Worked(ASKED), 1)
  {
    var l := LocalOf(ASKED, 0);
    assert IfR(l, 0, CFG) == l && IfOff(l, 0, CFG) == l;
    var l' := AfterTransferShard(l, 0, CFG);
    assert Drainable(1, 32) == 1;
    assert l'.wk == Worker(0, 1, true, NONE) && l'.fl.shards == ASKED_FLAGS.shards;
    assert |l'.pk.rings[1]| == 1;
  }

  lemma EmitsOne(st: State)
    requires Inv(st, CFG) && WorkingOff(st, 1)
    ensures WorkingOff(Worked(st), 0)
  {
  }

  lemma SettlesAll(st: State)
    requires Inv(st, CFG) && WorkingOff(st, 0)
    ensures OwnerAt(Worked(st), 3) == 0 && Worked(st).a == SWAPPED_A
  {
    var l := LocalOf(st, 0);
    assert AfterWork(l, 0, Nothing(), CFG).fl == Settled(st.fl, 0);
    assert Settled(st.fl, 0).shards[3] == Taken(Cleared(st.fl.shards[3], 0, true), 0);
  }

  lemma FirstArrives() returns (states: seq<State>, evs: seq<Event>)
    ensures IsRun(states, evs, CFG) && states == [START, WAITING] && evs == [Arrive(0, 7)]
  {
    Starts();
    InvInitial(START, CFG);
    Arrives();
    RunSnoc([START], [], Arrive(0, 7), WAITING, CFG);
    states, evs := [START, WAITING], [Arrive(0, 7)];
    assert [START] + [WAITING] == states && [] + [Arrive(0, 7)] == evs;
  }

  lemma ThenDecides() returns (states: seq<State>, evs: seq<Event>)
    ensures IsRun(states, evs, CFG) && states == [START, WAITING, ASKED] && evs == [Arrive(0, 7), Decide(ANSWER)]
  {
    var before, arrived := FirstArrives();
    RunInv(before, arrived, 1, CFG);
    Decides();
    RunSnoc(before, arrived, Decide(ANSWER), ASKED, CFG);
    states, evs := [START, WAITING, ASKED], [Arrive(0, 7), Decide(ANSWER)];
    assert before + [ASKED] == states && arrived + [Decide(ANSWER)] == evs;
  }

  /** One more run of the task of core 0. */
  lemma WorksOnce(states: seq<State>, evs: seq<Event>, drains: bool) returns (st': State)
    requires IsRun(states, evs, CFG)
    requires if drains then states[|evs|] == ASKED else WorkingOff(states[|evs|], 1)
    ensures IsRun(states + [st'], evs + [Work(0, Nothing())], CFG) && WorkingOff(st', if drains then 1 else 0)
  {
    RunInv(states, evs, |evs|, CFG);
    st' := Worked(states[|evs|]);
    if drains {
      DrainsNic();
    } else {
      EmitsOne(states[|evs|]);
    }
    RunSnoc(states, evs, Work(0, Nothing()), st', CFG);
  }

  lemma SettlesOnce(states: seq<State>, evs: seq<Event>) returns (st': State)
    requires IsRun(states, evs, CFG) && WorkingOff(states[|evs|], 0)
    ensures IsRun(states + [st'], evs + [Work(0, Nothing())], CFG) && OwnerAt(st', 3) == 0 && st'.a == SWAPPED_A
  {
    RunInv(states, evs, |evs|, CFG);
    st' := Worked(states[|evs|]);
    SettlesAll(states[|evs|]);
    RunSnoc(states, evs, Work(0, Nothing()), st', CFG);
  }

  /** What the run looks like from shard 3. */
  lemma ShardThree(states: seq<State>, evs: seq<Event>)
    requires |states| == 6 && |evs| == 5
    requires forall i :: 0 <= i <= 5 ==> states[i].a == if i < 2 then FIRST_A else SWAPPED_A
    requires forall i :: 0 <= i < 5 ==> if i == 1 then evs[i] == Decide(ANSWER) else !evs[i].Decide?
    ensures forall i :: 0 <= i <= 5 ==> SS.Cell(states[i].a, 3, 1) == 1
    ensures forall i :: 0 <= i < 5 ==> Quiet(states[i], evs[i], 3, CFG)
    ensures OwnerAt(states[5], 3) == 0 ==> !InColumn(states[5], 3)
  {
    forall v ensures !Requested(FIRST_A, SWAPPED_A, 3, v) {
      Changes(3, v);
    }
  }

  /** The run: a packet arrives, the controller swaps shards 0 and 1, and core 0 drains its
      queue, emits the packet and settles.  Shard 3 is never requested and the matrix gives
      it to core 1 all along, but core 0 owns it at the end. */
  lemma OwnerLeavesColumn() returns (states: seq<State>, evs: seq<Event>)
    ensures IsRun(states, evs, CFG) && |states| == 6 && |evs| == 5
    ensures forall i :: 0 <= i <= 5 ==> SS.Cell(states[i].a, 3, 1) == 1
    ensures forall i :: 0 <= i < 5 ==> Quiet(states[i], evs[i], 3, CFG)
    ensures OwnerAt(states[0], 3) == 1 && OwnerAt(states[5], 3) == 0 && !InColumn(states[5], 3)
  {
    var work := Work(0, Nothing());
    states, evs := ThenDecides();
    var drained := WorksOnce(states, evs, true);
    states, evs := states + [drained], evs + [work];
    var emitted := WorksOnce(states, evs, false);
    states, evs := states + [emitted], evs + [work];
    var settled := SettlesOnce(states, evs);
    states, evs := states + [settled], evs + [work];
    ShardThree(states, evs);
  }
}
