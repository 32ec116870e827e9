/** Runs with two working and two offloading cores after which a ring is polled by both offloading
    cores, or the offload ring of a core by none. */
module ServedRuns {
  import opened Device
  import opened Handover
  import opened Assignment
  import opened Safety
  import opened Scenario
  import opened Rebalance
  import SS = ShortSolver

  /** Two working cores, two offloading cores, two shards. */
  const CFG: Config := Config(2, 2, 2, 32)

  const FIRST_A: SS.Matrix := [[1, 0, 0, 0], [0, 1, 0, 0]]
  const BLANK: seq<nat> := [0, 0, 0, 0]
  const FIRST_O: SS.Matrix := [[1, 0, 0, 0], [0, 1, 0, 0], BLANK, BLANK]
  const SWAPPED_O: SS.Matrix := [[0, 1, 0, 0], [1, 0, 0, 0], BLANK, BLANK]
  const OFF_FROM: seq<nat> := [0, 1, 0, 0]

  const QUIET: seq<bool> := [false, false]
  const BOTH: seq<bool> := [true, true]
  const FIRST_FLAGS: Flags :=
    Flags([Control(0, 0, false, 0.0, 0.0), Control(1, 0, false, 0.0, 0.0)], QUIET, QUIET, QUIET, QUIET, QUIET,
          [NONE, NONE], [0, 2], [1, 3], [[0], [2]], [[], []])

  const IDLE: Packets := Packets([[], []], [[], [], [], []], [], [], [], [], [])

  function Core(q: nat, ring: nat, own: bool, off: nat): seq<Worker> {
    [Worker(q, ring, own, off), Worker(2, 3, false, 1)]
  }

  const START: State :=
    State(IDLE, FIRST_FLAGS, Core(0, 1, false, 0), [Offloader([], 0), Offloader([], 0)], FIRST_A, multiset{})

  lemma Starts()
    ensures Initial(START, CFG)
  {
    assert forall s :: 0 <= s < 2 ==> FirstCore(s, 2) == s;
    FirstMatrixIs(FIRST_A, 2, 2, 4);
    RingsDealt();
  }

  lemma RingsDealt()
    ensures Dealt(CFG, 2) == [[0], [2]]
  {
    assert Dealt(CFG, 0) == [[], []];
    assert [] + [0] == [0] && [] + [2] == [2];
    assert FirstCore(0, 2) == 0 && FirstCore(1, 2) == 1;
    assert Dealt(CFG, 1) == Push([[], []], 0, 0) == [[0], []];
    assert Dealt(CFG, 2) == Push([[0], []], 1, 2);
  }

  // ---------------------------------------------------------------------
  // The controller lets the two offloading cores change places, and back

  /** The changes that the matrices ask for. */
  const THERE: seq<Relink> := [Stop(0, 0), Switch(0, 1), Switch(1, 0), Stop(1, 1)]
  const BACK: seq<Relink> := [Stop(0, 1), Stop(1, 0)]

  lemma LinksOfOne(o: SS.Matrix, newO: SS.Matrix, w: nat)
    requires w < 4
    ensures LinksOfCore(o, newO, OFF_FROM, w, 4)
         == LinkAt(o, newO, OFF_FROM, w, 0) + LinkAt(o, newO, OFF_FROM, w, 1)
            + LinkAt(o, newO, OFF_FROM, w, 2) + LinkAt(o, newO, OFF_FROM, w, 3)
  {
    assert LinksOfCore(o, newO, OFF_FROM, w, 1) == LinkAt(o, newO, OFF_FROM, w, 0);
    assert LinksOfCore(o, newO, OFF_FROM, w, 2)
           == LinksOfCore(o, newO, OFF_FROM, w, 1) + LinkAt(o, newO, OFF_FROM, w, 1);
    assert LinksOfCore(o, newO, OFF_FROM, w, 3)
           == LinksOfCore(o, newO, OFF_FROM, w, 2) + LinkAt(o, newO, OFF_FROM, w, 2);
  }

  lemma LinksOfAll(o: SS.Matrix, newO: SS.Matrix)
    requires forall e :: 0 <= e < 4 ==>
               SS.Cell(o, e, 2) == SS.Cell(o, e, 3) == SS.Cell(newO, e, 2) == SS.Cell(newO, e, 3) == 0
    ensures LinksOf(o, newO, OFF_FROM, 4, 4)
            == LinksOfCore(o, newO, OFF_FROM, 0, 4) + LinksOfCore(o, newO, OFF_FROM, 1, 4)
  {
    LinksOfOne(o, newO, 2);
    LinksOfOne(o, newO, 3);
    assert LinksOf(o, newO, OFF_FROM, 4, 1) == LinksOfCore(o, newO, OFF_FROM, 0, 4);
    assert LinksOf(o, newO, OFF_FROM, 4, 2) == LinksOf(o, newO, OFF_FROM, 4, 1) + LinksOfCore(o, newO, OFF_FROM, 1, 4);
    assert LinksOf(o, newO, OFF_FROM, 4, 3) == LinksOf(o, newO, OFF_FROM, 4, 2);
  }

  lemma LinksThere()
    ensures LinksOf(FIRST_O, SWAPPED_O, OFF_FROM, 4, 4) == THERE
  {
    LinksOfOne(FIRST_O, SWAPPED_O, 0);
    LinksOfOne(FIRST_O, SWAPPED_O, 1);
    LinksOfAll(FIRST_O, SWAPPED_O);
  }

  lemma LinksBack()
    ensures LinksOf(SWAPPED_O, FIRST_O, OFF_FROM, 4, 4) == BACK
  {
    LinksOfOne(SWAPPED_O, FIRST_O, 0);
    LinksOfOne(SWAPPED_O, FIRST_O, 1);
    LinksOfAll(SWAPPED_O, FIRST_O);
  }

  /** An answer that leaves the shards alone. */
  function Answers(notify: set<nat>, links: seq<Relink>): Answer {
    Answer(FIRST_A, [0.0, 0.0], notify, links, true)
  }

  lemma RelinkedOne(fl: Flags, links: seq<Relink>, link: Relink)
    requires |fl.queues| == |fl.newOff| == |fl.transferOff|
    requires forall k :: 0 <= k < |links| ==> links[k].w < |fl.queues| && links[k].e < |fl.toRemove|
    requires link.w < |fl.queues| && link.e < |fl.toRemove|
    ensures Relinked(fl, links + [link]) == match link
              case Switch(w, e) =>
                var fl1 := Relinked(fl, links);
                fl1.(newOff := fl1.newOff[w := e], transferOff := fl1.transferOff[w := true])
              case Stop(w, e) =>
                var fl1 := Relinked(fl, links);
                fl1.(toRemove := Push(fl1.toRemove, e, fl1.queues[w]))
  {
    assert (links + [link])[..|links|] == links;
  }

  lemma RelinkedThere(fl: Flags)
    requires fl.newOff == [NONE, NONE] && fl.transferOff == QUIET && fl.queues == [0, 2] && fl.toRemove == [[], []]
    ensures Relinked(fl, THERE) == fl.(newOff := [1, 0], transferOff := BOTH, toRemove := [[0], [2]])
  {
    assert [] + [0] == [0] && [] + [2] == [2];
    RelinkedOne(fl, [], Stop(0, 0));
    assert [] + [Stop(0, 0)] == THERE[..1];
    RelinkedOne(fl, THERE[..1], Switch(0, 1));
    assert THERE[..1] + [Switch(0, 1)] == THERE[..2];
    RelinkedOne(fl, THERE[..2], Switch(1, 0));
    assert THERE[..2] + [Switch(1, 0)] == THERE[..3];
    RelinkedOne(fl, THERE[..3], Stop(1, 1));
    assert THERE[..3] + [Stop(1, 1)] == THERE;
  }

  lemma RelinkedBack(fl: Flags)
    requires |fl.newOff| == |fl.transferOff| == 2 && fl.queues == [0, 2] && fl.toRemove == [[], []]
    ensures Relinked(fl, BACK) == fl.(toRemove := [[2], [0]])
  {
    assert [] + [0] == [0] && [] + [2] == [2];
    RelinkedOne(fl, [], Stop(0, 1));
    assert [] + [Stop(0, 1)] == BACK[..1];
    RelinkedOne(fl, BACK[..1], Stop(1, 0));
    assert BACK[..1] + [Stop(1, 0)] == BACK;
  }

  // ---------------------------------------------------------------------
  // A ring is polled by both

  const DIVERTED: State :=
    START.(pk := IDLE.(rings := [[7], [], [], []], extracted := [7], diverted := [7]), entered := multiset{7})
  const TOLD_FLAGS: Flags :=
    FIRST_FLAGS.(newOff := [1, 0], transferOff := BOTH, toRemove := [[0], [2]], transferR := [true, false],
                 signal := BOTH)
  const MOVED_FLAGS: Flags :=
    FIRST_FLAGS.(newOff := [NONE, 0], transferOff := [false, true], toRemove := [[0, 0, 1], [2]],
                 toAdd := [[0, 1], [2, 1]], signal := [false, true], queues := [1, 2], rings := [0, 3])
  const TOLD: State := DIVERTED.(fl := TOLD_FLAGS)
  const MOVED: State := TOLD.(workers := Core(1, 0, true, 1), fl := MOVED_FLAGS)
  const POLLED: State :=
    MOVED.(pk := IDLE.(extracted := [7], diverted := [7], offEmitted := [7]),
           fl := MOVED_FLAGS.(toRemove := [[], [2]], toAdd := [[], [2, 1]]),
           offs := [Offloader([0, 1], 1), Offloader([], 0)])
  const SHARED: State :=
    POLLED.(fl := MOVED_FLAGS.(toRemove := [[], []], toAdd := [[], []]),
            offs := [Offloader([0, 1], 1), Offloader([2, 1], 1)])

  lemma Tells()
    ensures GoesOn(DIVERTED, Decide(Answers({0}, THERE)), TOLD, CFG)
  {
    RelinkedThere(DIVERTED.fl);
    assert Notified(QUIET, {0}) == [true, false];
    if Inv(DIVERTED, CFG) {
      SameRatios(DIVERTED);
      DecidesSame(DIVERTED, Answers({0}, THERE), TOLD_FLAGS, CFG);
    }
  }

  lemma SameRatios(st: State)
    requires st.fl.shards == FIRST_FLAGS.shards
    ensures Wanted(st.fl.shards, [0.0, 0.0]) == st.fl.shards && BOTH == seq(2, _ => true)
  {
  }

  ghost predicate ToldCore(l: Local) {
    && LocalOk(l, 0, CFG) && l.fl == TOLD_FLAGS && l.wk == Worker(0, 1, false, 0)
    && l.pk.rings[0] != [] && l.pk.rings[1] == []
  }

  lemma TaskMoves(l: Local)
    requires ToldCore(l)
    ensures AfterWork(l, 0, Nothing(), CFG) == Local(l.pk, MOVED_FLAGS, Worker(1, 0, true, 1))
  {
    SignalMoves(l);
    var l1 := AfterSignal(l, 0, CFG);
    assert AfterChanges(l1, 0, CFG) == l1;
  }

  lemma SignalMoves(l: Local)
    requires ToldCore(l)
    ensures AfterSignal(l, 0, CFG) == Local(l.pk, MOVED_FLAGS, Worker(1, 0, true, 1))
  {
    RingsExchanged(l);
    var l1 := IfR(l, 0, CFG);
    OffChanged(l1, FIRST_FLAGS.(signal := BOTH, queues := [1, 2], rings := [0, 3]));
    assert IfOff(l1, 0, CFG).fl == MOVED_FLAGS.(signal := BOTH);
  }

  lemma RingsExchanged(l: Local)
    requires ToldCore(l)
    ensures AfterTransferR(l, 0, CFG) ==
            Local(l.pk, TOLD_FLAGS.(transferR := QUIET, queues := [1, 2], rings := [0, 3],
                                 toRemove := [[0, 0], [2]], toAdd := [[0, 1], [2]]), Worker(1, 0, true, 0))
  {
    assert [0] + [0] == [0, 0] && [0] + [1] == [0, 1];
    assert RatiosTaken(TOLD_FLAGS.shards, 0) == TOLD_FLAGS.shards;
  }

  lemma OffChanged(l: Local, fl: Flags)
    requires LocalOk(l, 0, CFG) && l.wk == Worker(1, 0, true, 0) && l.pk.rings[1] == []
    requires l.fl == fl.(newOff := [1, 0], transferOff := BOTH, toRemove := [[0, 0], [2]], toAdd := [[0, 1], [2]])
    ensures AfterTransferOff(l, 0, CFG) ==
            Local(l.pk, fl.(newOff := [NONE, 0], transferOff := [false, true], toRemove := [[0, 0, 1], [2]],
                            toAdd := [[0, 1], [2, 1]]), Worker(1, 0, true, 1))
  {
    NothingDrained(l.pk, 1, 0);
    assert [0, 0] + [1] == [0, 0, 1] && [2] + [1] == [2, 1];
  }

  lemma CoreMoves(st: State)
    requires st.fl == TOLD_FLAGS && st.workers == Core(0, 1, false, 0)
    requires 1 < |st.pk.rings| && st.pk.rings[0] != [] && st.pk.rings[1] == []
    ensures Does(st, 0, Nothing(), Local(st.pk, MOVED_FLAGS, Worker(1, 0, true, 1)), CFG)
  {
    if Inv(st, CFG) {
      LocalIsOk(st, 0, CFG);
      TaskMoves(LocalOf(st, 0));
    }
  }

  /** Core 0 exchanges its rings and changes its offloading core in one task. */
  lemma Moves(st: State, st': State)
    requires st.fl == TOLD_FLAGS && st.workers == Core(0, 1, false, 0)
    requires 1 < |st.pk.rings| && st.pk.rings[0] != [] && st.pk.rings[1] == []
    requires st' == st.(fl := MOVED_FLAGS, workers := Core(1, 0, true, 1))
    ensures GoesOn(st, Work(0, Nothing()), st', CFG)
  {
    CoreMoves(st);
    assert st.workers[0 := Worker(1, 0, true, 1)] == st'.workers;
    Works(st, 0, Nothing(), Local(st.pk, MOVED_FLAGS, Worker(1, 0, true, 1)), st', CFG);
  }

  lemma WithoutNothing(gone: seq<nat>)
    ensures WithoutAll([], gone) == []
  {
    if w :| w in WithoutAll([], gone) {
      assert w in [];
    }
  }

  /** Offloading core 0 drops the ring before it adds it. */
  lemma Polls0()
    ensures GoesOn(MOVED, Offload(0), POLLED, CFG)
  {
    WithoutNothing([0, 0, 1]);
    assert [7][..1] == [7] && [7][1..] == [] && [] + [7] == [7];
    assert MOVED.pk.rings[0 := []] == POLLED.pk.rings;
    if Inv(MOVED, CFG) {
      Polls(MOVED, 0, [0, 1], 0, 1, POLLED, CFG);
    }
  }

  lemma Polls1()
    ensures GoesOn(POLLED, Offload(1), SHARED, CFG)
  {
    WithoutNothing([2]);
    EmitsNothing(POLLED.pk, 2);
    if Inv(POLLED, CFG) {
      Polls(POLLED, 1, [2, 1], 2, 0, SHARED, CFG);
    }
  }

  /** After a change of ratio and of offloading core in one epoch, with the changes that the
      matrices ask for, both offloading cores poll ring 1, which core 0 now diverts to, and
      one of them polls its private ring too. */
  lemma ServedByBoth() returns (states: seq<State>, evs: seq<Event>)
    ensures IsRun(states, evs, CFG)
    ensures evs == [Arrive(0, 7), Work(0, All()), Decide(Answers({0}, LinksOf(FIRST_O, SWAPPED_O, OFF_FROM, 4, 4))),
                    Work(0, Nothing()), Offload(0), Offload(1)]
    ensures var st := states[6];
            st.workers == Core(1, 0, true, 1) && st.offs == [Offloader([0, 1], 1), Offloader([2, 1], 1)]
  {
    Starts();
    LinksThere();
    states, evs := Receive([START], [], 7, All(), START, DIVERTED, CFG);
    Tells();
    states, evs := Next(states, evs, Decide(Answers({0}, THERE)), TOLD, CFG);
    Moves(TOLD, MOVED);
    states, evs := Next(states, evs, Work(0, Nothing()), MOVED, CFG);
    states, evs := PollBoth(states, evs);
  }

  lemma PollBoth(states: seq<State>, evs: seq<Event>) returns (states': seq<State>, evs': seq<Event>)
    requires IsRun(states, evs, CFG) && states[|evs|] == MOVED
    ensures IsRun(states', evs', CFG) && evs' == evs + [Offload(0), Offload(1)] && states'[|evs'|] == SHARED
  {
    Polls0();
    states', evs' := Next(states, evs, Offload(0), POLLED, CFG);
    Polls1();
    states', evs' := Next(states', evs', Offload(1), SHARED, CFG);
  }

  // ---------------------------------------------------------------------
  // A ring is polled by none

  const READY: State :=
    START.(fl := FIRST_FLAGS.(toAdd := [[], [2]]), offs := [Offloader([0], 1), Offloader([], 0)])
  const SENT_FLAGS: Flags :=
    FIRST_FLAGS.(newOff := [1, 0], transferOff := BOTH, toRemove := [[0], [2]], toAdd := [[], [2]], signal := BOTH)
  const SWITCHED_FLAGS: Flags :=
    FIRST_FLAGS.(newOff := [NONE, 0], transferOff := [false, true], toRemove := [[0, 0], [2]],
                 toAdd := [[], [2, 0]], signal := [false, true])
  const SENT: State := READY.(fl := SENT_FLAGS)
  const SWITCHED: State := SENT.(fl := SWITCHED_FLAGS, workers := Core(0, 1, false, 1))
  const DROPPED: State :=
    SWITCHED.(fl := SWITCHED_FLAGS.(toRemove := [[], [2]]), offs := [Offloader([], 1), Offloader([], 0)])
  const TAKEN_UP: State :=
    DROPPED.(fl := SWITCHED_FLAGS.(toRemove := [[], []], toAdd := [[], []]),
             offs := [Offloader([], 1), Offloader([2, 0], 1)])
  const SENT_BACK: State := TAKEN_UP.(fl := TAKEN_UP.fl.(toRemove := [[2], [0]], signal := BOTH))
  const ALONE: State :=
    SENT_BACK.(fl := SENT_BACK.fl.(toRemove := [[2], []]), offs := [Offloader([], 1), Offloader([2], 2)])

  lemma Readies()
    ensures GoesOn(START, Offload(0), READY, CFG)
  {
    WithoutNothing([]);
    EmitsNothing(IDLE, 0);
    if Inv(START, CFG) {
      Polls(START, 0, [0], 0, 0, READY, CFG);
    }
  }

  lemma Sends()
    ensures GoesOn(READY, Decide(Answers({}, THERE)), SENT, CFG)
  {
    RelinkedThere(READY.fl);
    assert Notified(QUIET, {}) == QUIET;
    if Inv(READY, CFG) {
      SameRatios(READY);
      DecidesSame(READY, Answers({}, THERE), SENT_FLAGS, CFG);
    }
  }

  ghost predicate SentCore(l: Local) {
    && LocalOk(l, 0, CFG) && l.fl == SENT_FLAGS && l.wk == Worker(0, 1, false, 0)
    && l.pk.nic[0] == [] && l.pk.rings[0] == [] && l.pk.rings[1] == []
  }

  lemma OffSwitched(l: Local)
    requires SentCore(l)
    ensures AfterTransferOff(l, 0, CFG) == Local(l.pk, SWITCHED_FLAGS.(signal := BOTH), Worker(0, 1, false, 1))
  {
    NothingDrained(l.pk, 0, 1);
    assert [0] + [0] == [0, 0] && [2] + [0] == [2, 0];
  }

  lemma SignalSwitches(l: Local)
    requires SentCore(l)
    ensures AfterSignal(l, 0, CFG) == Local(l.pk, SWITCHED_FLAGS, Worker(0, 1, false, 1))
  {
    assert IfR(l, 0, CFG) == l;
    OffSwitched(l);
  }

  lemma TaskSwitches(l: Local)
    requires SentCore(l)
    ensures AfterWork(l, 0, Nothing(), CFG) == Local(l.pk, SWITCHED_FLAGS, Worker(0, 1, false, 1))
  {
    SignalSwitches(l);
    var l1 := AfterSignal(l, 0, CFG);
    assert AfterChanges(l1, 0, CFG) == l1;
    NothingReceived(l1.pk, 0, 0);
  }

  lemma CoreSwitches(st: State)
    requires st.fl == SENT_FLAGS && st.workers == Core(0, 1, false, 0) && st.pk == IDLE
    ensures Does(st, 0, Nothing(), Local(st.pk, SWITCHED_FLAGS, Worker(0, 1, false, 1)), CFG)
  {
    if Inv(st, CFG) {
      LocalIsOk(st, 0, CFG);
      TaskSwitches(LocalOf(st, 0));
    }
  }

  /** Core 0 changes its offloading core. */
  lemma Switches(st: State, st': State)
    requires st.fl == SENT_FLAGS && st.workers == Core(0, 1, false, 0) && st.pk == IDLE
    requires st' == st.(fl := SWITCHED_FLAGS, workers := Core(0, 1, false, 1))
    ensures GoesOn(st, Work(0, Nothing()), st', CFG)
  {
    CoreSwitches(st);
    assert st.workers[0 := Worker(0, 1, false, 1)] == st'.workers;
    Works(st, 0, Nothing(), Local(st.pk, SWITCHED_FLAGS, Worker(0, 1, false, 1)), st', CFG);
  }

  lemma WithoutZero()
    ensures WithoutAll([0], [0, 0]) == [] && WithoutAll([2, 0], [0]) == [2]
  {
    assert [0, 0][..1] == [0] && [0][..0] == [] && [2, 0][..1] == [2] && [2][..0] == [];
    assert Without([], 0) == [];
    assert Without([0], 0) == [] && Without([2], 0) == [] + [2] == [2];
    assert Without([2, 0], 0) == [2];
    assert WithoutAll([0], []) == [0] && WithoutAll([2, 0], []) == [2, 0];
    assert WithoutAll([0], [0]) == [] && WithoutAll([2, 0], [0]) == [2];
  }

  lemma Drops()
    ensures GoesOn(SWITCHED, Offload(0), DROPPED, CFG)
  {
    WithoutZero();
    if Inv(SWITCHED, CFG) {
      PollsNone(SWITCHED, 0, DROPPED, CFG);
    }
  }

  lemma TakesUp()
    ensures GoesOn(DROPPED, Offload(1), TAKEN_UP, CFG)
  {
    WithoutNothing([2]);
    EmitsNothing(IDLE, 2);
    if Inv(DROPPED, CFG) {
      Polls(DROPPED, 1, [2, 0], 2, 0, TAKEN_UP, CFG);
    }
  }

  lemma SendsBack()
    ensures GoesOn(TAKEN_UP, Decide(Answers({}, BACK)), SENT_BACK, CFG)
  {
    RelinkedBack(TAKEN_UP.fl);
    assert Notified(QUIET, {}) == QUIET;
    if Inv(TAKEN_UP, CFG) {
      SameRatios(TAKEN_UP);
      DecidesSame(TAKEN_UP, Answers({}, BACK), SENT_BACK.fl, CFG);
    }
  }

  lemma DropsAgain()
    ensures GoesOn(SENT_BACK, Offload(1), ALONE, CFG)
  {
    WithoutZero();
    EmitsNothing(IDLE, 2);
    if Inv(SENT_BACK, CFG) {
      Polls(SENT_BACK, 1, [2], 2, 0, ALONE, CFG);
    }
  }

  lemma Leave() returns (states: seq<State>, evs: seq<Event>)
    ensures IsRun(states, evs, CFG) && states[|evs|] == TAKEN_UP
    ensures evs == [Offload(0), Decide(Answers({}, THERE)), Work(0, Nothing()), Offload(0), Offload(1)]
  {
    Starts();
    Readies();
    states, evs := Next([START], [], Offload(0), READY, CFG);
    Sends();
    states, evs := Next(states, evs, Decide(Answers({}, THERE)), SENT, CFG);
    Switches(SENT, SWITCHED);
    states, evs := Next(states, evs, Work(0, Nothing()), SWITCHED, CFG);
    Drops();
    states, evs := Next(states, evs, Offload(0), DROPPED, CFG);
    TakesUp();
    states, evs := Next(states, evs, Offload(1), TAKEN_UP, CFG);
  }

  /** A core goes to another offloading core and is sent back to the one it started with, with the
      changes that the matrices ask for: its offload ring 0 is polled by none, none is about
      to add it, and the core itself has nothing left to do about it. */
  lemma ServedByNone() returns (states: seq<State>, evs: seq<Event>)
    ensures IsRun(states, evs, CFG)
    ensures evs == [Offload(0), Decide(Answers({}, LinksOf(FIRST_O, SWAPPED_O, OFF_FROM, 4, 4))), Work(0, Nothing()),
                    Offload(0), Offload(1), Decide(Answers({}, LinksOf(SWAPPED_O, FIRST_O, OFF_FROM, 4, 4))),
                    Offload(1)]
    ensures var st := states[7];
            && st.workers == Core(0, 1, false, 1) && st.offs == [Offloader([], 1), Offloader([2], 2)]
            && st.fl.toAdd == [[], []] && st.fl.transferOff == [false, true]
            && st.fl.transferR == st.fl.transferShard == QUIET
  {
    LinksThere();
    LinksBack();
    states, evs := Leave();
    SendsBack();
    states, evs := Next(states, evs, Decide(Answers({}, BACK)), SENT_BACK, CFG);
    DropsAgain();
    states, evs := Next(states, evs, Offload(1), ALONE, CFG);
  }
}
