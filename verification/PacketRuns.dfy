/** Runs with two working cores and one offloading core in which a packet meets `extract_state`
    twice, never, or is overtaken by a later one of the same queue. */
module PacketRuns {
  import opened Device
  import opened Handover
  import opened Assignment
  import opened Safety
  import opened Scenario
  import SS = ShortSolver

  /** Two working cores, one offloading core, two shards. */
  const CFG: Config := Config(2, 1, 2, 32)

  const FIRST_A: SS.Matrix := [[1, 0, 0], [0, 1, 0]]
  const SWAPPED_A: SS.Matrix := [[0, 1, 0], [1, 0, 0]]

  const QUIET: seq<bool> := [false, false]
  const FIRST_FLAGS: Flags :=
    Flags([Control(0, 0, false, 0.0, 0.0), Control(1, 0, false, 0.0, 0.0)], QUIET, QUIET, QUIET, QUIET, QUIET,
          [NONE, NONE], [0, 2], [1, 3], [[0, 2]], [[]])

  /** A state of the runs: receive queue 0, the rings of core 0, and what has left. */
  function Place(nic: seq<Buf>, q: seq<Buf>, ring: seq<Buf>, emitted: seq<Buf>, offEmitted: seq<Buf>,
                 extracted: seq<Buf>, diverted: seq<Buf>): Packets {
    Packets([nic, []], [q, ring, [], []], emitted, offEmitted, [], extracted, diverted)
  }

  function Core(q: nat, ring: nat, own: bool): seq<Worker> {
    [Worker(q, ring, own, 0), Worker(2, 3, false, 0)]
  }

  const START: State :=
    State(Place([], [], [], [], [], [], []), FIRST_FLAGS, Core(0, 1, false), [Offloader([], 0)], FIRST_A, multiset{})

  // ---------------------------------------------------------------------
  // The steps the runs are made of

  lemma Starts()
    ensures Initial(START, CFG)
  {
    assert forall s :: 0 <= s < 2 ==> FirstCore(s, 2) == s;
    FirstMatrixIs(FIRST_A, 2, 2, 3);
    RingsDealt();
  }

  lemma RingsDealt()
    ensures Dealt(CFG, 2) == [[0, 2]]
  {
    assert Dealt(CFG, 0) == [[]];
    PushedOne([], 0);
    assert [] + [0] == [0];
    assert FirstCore(0, 1) == FirstCore(1, 1) == 0;
    assert Dealt(CFG, 1) == Push([[]], 0, 0);
    PushedOne([0], 2);
    assert [0] + [2] == [0, 2];
    assert Dealt(CFG, 2) == Push([[0]], 0, 2);
  }

  lemma PushedOne(list: seq<nat>, ring: nat)
    requires |list| < RING_SIZE
    ensures Push([list], 0, ring) == [list + [ring]]
  {
  }

  /** The offloading core reads its lists for the first time and finds nothing to poll. */
  const READY: State := START.(fl := FIRST_FLAGS.(toAdd := [[]]), offs := [Offloader([0, 2], 1)])

  lemma Readies()
    ensures GoesOn(START, Offload(0), READY, CFG)
  {
    EmitsNothing(START.pk, 0);
    assert WithoutAll([], []) + [0, 2] == [0, 2];
    if Inv(START, CFG) {
      Polls(START, 0, [0, 2], 0, 0, READY, CFG);
    }
  }

  lemma Begin() returns (states: seq<State>, evs: seq<Event>)
    ensures IsRun(states, evs, CFG) && evs == [Offload(0)] && states[1] == READY
  {
    Starts();
    Readies();
    states, evs := Next([START], [], Offload(0), READY, CFG);
  }

  // ---------------------------------------------------------------------
  // The controller swaps the two shards

  const SWAP: Answer := Answer(SWAPPED_A, [0.0, 0.0], {}, [], true)

  /** After the request; `toRemove` and `toAdd` are the lists of the offloading core. */
  function AskedFlags(toRemove: seq<nat>, toAdd: seq<nat>): Flags {
    FIRST_FLAGS.(shards := [Control(0, 1, true, 0.0, 0.0), Control(1, 0, true, 0.0, 0.0)],
                 transferShard := [true, true], signal := [true, true], toRemove := [toRemove], toAdd := [toAdd])
  }

  lemma RowIsHot(a: SS.Matrix, s: nat, h: nat)
    requires s < |a| == 2 && h < 2 && |a[s]| == 3 && a[s][h] == 1 && a[s][1 - h] == 0 && a[s][2] == 0
    ensures SS.HotBelow(SS.Row(a, s), 3, 2)
  {
    assert SS.Row(a, s).At(0) == a[s][0] && SS.Row(a, s).At(1) == a[s][1] && SS.Row(a, s).At(2) == a[s][2];
    assert SS.Hot(SS.Row(a, s), 3, h);
  }

  lemma SwappedOk()
    ensures OneHot(SWAPPED_A, CFG)
  {
    RowIsHot(SWAPPED_A, 0, 1);
    RowIsHot(SWAPPED_A, 1, 0);
  }

  lemma Changes(s: int, w: int)
    ensures Requested(FIRST_A, SWAPPED_A, s, w) <==> (s == 0 && w == 1) || (s == 1 && w == 0)
  {
  }

  lemma Swaps(st: State)
    requires st.fl == FIRST_FLAGS.(toAdd := [[]]) && st.a == FIRST_A
    ensures GoesOn(st, Decide(SWAP), st.(fl := AskedFlags([], []), a := SWAPPED_A), CFG)
  {
    SwappedOk();
    var shards, fl' := Wanted(st.fl.shards, SWAP.wanted), AskedFlags([], []);
    assert shards == FIRST_FLAGS.shards;
    forall s, w ensures Requested(FIRST_A, SWAPPED_A, s, w) <==> (s == 0 && w == 1) || (s == 1 && w == 0) {
      Changes(s, w);
    }
    assert Requested(FIRST_A, SWAPPED_A, 0, 1) && Requested(FIRST_A, SWAPPED_A, 1, 0);
    assert Leaves(shards, FIRST_A, SWAPPED_A, 0, 0, 3) && Leaves(shards, FIRST_A, SWAPPED_A, 1, 1, 3);
    assert Notified(QUIET, {}) == QUIET;
    if Inv(st, CFG) {
      assert ControlStep(st.fl, fl', FIRST_A, SWAP, CFG);
    }
  }

  // ---------------------------------------------------------------------
  // Counted twice

  const DIVERTED: State := READY.(pk := Place([], [7], [], [], [], [7], [7]), entered := multiset{7})
  const ASKED: State := DIVERTED.(fl := AskedFlags([], []), a := SWAPPED_A)
  const DRAINED_FLAGS: Flags := AskedFlags([0], [0]).(transferShard := [false, true], signal := [false, true])
  const DRAINED: State :=
    ASKED.(pk := Place([], [], [7], [], [], [7], [7]), workers := Core(0, 1, true), fl := DRAINED_FLAGS)
  const EMITTED: State := DRAINED.(pk := Place([], [], [], [7], [], [7, 7], [7]))

  ghost predicate AskedCore(l: Local) {
    && LocalOk(l, 0, CFG) && l.fl == AskedFlags([], []) && l.wk == Worker(0, 1, false, 0)
    && l.pk == Place([], [7], [], [], [], [7], [7])
  }

  lemma RingDrained(l: Local)
    requires AskedCore(l)
    ensures AfterTransferShard(l, 0, CFG)
         == Local(Place([], [], [7], [], [], [7], [7]), DRAINED_FLAGS.(signal := [true, true]), Worker(0, 1, true, 0))
  {
    ReceivedNothing(l.pk, 0, 1);
    assert Drained(l.pk, 0, 1) == Place([], [], [7], [], [], [7], [7]) by {
      assert [] + [7] == [7] && [7][..1] == [7] && [7][1..] == [];
      assert l.pk.rings[0 := []][1 := [7]] == [[], [7], [], []];
    }
    PushedOne([], 0);
    assert [] + [0] == [0];
  }

  lemma TaskDrains(l: Local)
    requires AskedCore(l)
    ensures AfterWork(l, 0, Nothing(), CFG)
            == Local(Place([], [], [7], [], [], [7], [7]), DRAINED_FLAGS, Worker(0, 1, true, 0))
  {
    assert IfR(l, 0, CFG) == l && IfOff(l, 0, CFG) == l;
    RingDrained(l);
    var l1 := AfterSignal(l, 0, CFG);
    assert AfterChanges(l1, 0, CFG) == l1;
  }

  lemma CoreDrains(st: State)
    requires st.fl == AskedFlags([], []) && st.workers == Core(0, 1, false)
    requires st.pk == Place([], [7], [], [], [], [7], [7])
    ensures Does(st, 0, Nothing(), Local(Place([], [], [7], [], [], [7], [7]), DRAINED_FLAGS, Worker(0, 1, true, 0)),
                 CFG)
  {
    if Inv(st, CFG) {
      LocalIsOk(st, 0, CFG);
      TaskDrains(LocalOf(st, 0));
    }
  }

  /** Core 0 answers the signal: its offload ring is emptied into its private ring. */
  lemma DrainsOffloadRing(st: State, st': State)
    requires st.fl == AskedFlags([], []) && st.workers == Core(0, 1, false)
    requires st.pk == Place([], [7], [], [], [], [7], [7])
    requires st' == st.(pk := Place([], [], [7], [], [], [7], [7]), fl := DRAINED_FLAGS, workers := Core(0, 1, true))
    ensures GoesOn(st, Work(0, Nothing()), st', CFG)
  {
    CoreDrains(st);
    assert st.workers[0 := Worker(0, 1, true, 0)] == st'.workers;
    Works(st, 0, Nothing(), Local(st'.pk, DRAINED_FLAGS, Worker(0, 1, true, 0)), st', CFG);
  }

  lemma CoreEmits(st: State)
    requires st.workers == Core(0, 1, true) && st.pk == Place([], [], [7], [], [], [7], [7])
    ensures Does(st, 0, Nothing(), Local(Place([], [], [], [7], [], [7, 7], [7]), st.fl, Worker(0, 1, true, 0)), CFG)
  {
    assert Emitted(st.pk, 1, 1) == Place([], [], [], [7], [], [7, 7], [7]) by {
      assert [7][..1] == [7] && [7][1..] == [] && [7] + [7] == [7, 7] && [] + [7] == [7];
      assert st.pk.rings[1 := []] == [[], [], [], []];
    }
    if Inv(st, CFG) {
      LocalIsOk(st, 0, CFG);
    }
  }

  /** It works off its private ring. */
  lemma EmitsAgain(st: State, st': State)
    requires st.workers == Core(0, 1, true) && st.pk == Place([], [], [7], [], [], [7], [7])
    requires st' == st.(pk := Place([], [], [], [7], [], [7, 7], [7]))
    ensures GoesOn(st, Work(0, Nothing()), st', CFG)
  {
    CoreEmits(st);
    assert st.workers[0 := Worker(0, 1, true, 0)] == st.workers;
    Works(st, 0, Nothing(), Local(st'.pk, st.fl, Worker(0, 1, true, 0)), st', CFG);
  }

  /** The packet is diverted, drained back when a shard is asked to move, and emitted: it has met
      `extract_state` twice. */
  lemma CountedTwice() returns (states: seq<State>, evs: seq<Event>)
    ensures IsRun(states, evs, CFG)
    ensures evs == [Offload(0), Arrive(0, 7), Work(0, All()), Decide(SWAP), Work(0, Nothing()), Work(0, Nothing())]
    ensures var st := states[6];
            st.entered == multiset{7} && st.pk.emitted == [7] && st.pk.diverted == [7] && Count(st.pk.extracted, 7) == 2
  {
    states, evs := Begin();
    states, evs := Receive(states, evs, 7, All(), READY, DIVERTED, CFG);
    Swaps(DIVERTED);
    states, evs := Next(states, evs, Decide(SWAP), ASKED, CFG);
    DrainsOffloadRing(ASKED, DRAINED);
    states, evs := Next(states, evs, Work(0, Nothing()), DRAINED, CFG);
    EmitsAgain(DRAINED, EMITTED);
    states, evs := Next(states, evs, Work(0, Nothing()), EMITTED, CFG);
  }

  // ---------------------------------------------------------------------
  // A packet is left behind

  const WAITING: State := READY.(pk := READY.pk.(nic := [[7], []]), entered := multiset{} + multiset{7})
  const WANTED: State := WAITING.(fl := AskedFlags([], []), a := SWAPPED_A)

  const ONE_RELEASED: seq<Control> := [Control(0, 1, true, 0.0, 0.0), Control(1, 0, false, 0.0, 0.0)]
  const RELEASED_FLAGS: Flags :=
    AskedFlags([2], [2]).(shards := ONE_RELEASED, hadChanges := [true, false],
                          transferShard := [true, false], signal := [true, false])
  const RELEASED: State := WANTED.(fl := RELEASED_FLAGS)
  const STUCK_FLAGS: Flags := FIRST_FLAGS.(shards := ONE_RELEASED, toRemove := [[2, 0]], toAdd := [[2, 0]])
  const LEFT_BEHIND: Packets := Place([], [], [7], [], [], [], [])
  const STUCK: State := RELEASED.(pk := LEFT_BEHIND, fl := STUCK_FLAGS)

  ghost predicate WantedCore(l: Local) {
    && LocalOk(l, 1, CFG) && l.fl == AskedFlags([], []) && l.wk == Worker(2, 3, false, 0)
    && l.pk.nic[1] == [] && l.pk.rings[2] == []
  }

  lemma ShardReleased(l: Local)
    requires WantedCore(l)
    ensures AfterTransferShard(l, 1, CFG) == l.(fl := RELEASED_FLAGS.(signal := [true, true]))
  {
    ReceivedNothing(l.pk, 1, 3);
    NothingDrained(l.pk, 2, 3);
    FlagsReleased(l.fl);
  }

  lemma FlagsReleased(fl: Flags)
    requires fl == AskedFlags([], [])
    ensures var wk := Worker(2, 3, false, 0);
            Released(Linked(Unlinked(fl, wk), wk), 1).(transferShard := [true, false])
            == RELEASED_FLAGS.(signal := [true, true])
  {
    PushedOne([], 2);
    assert [] + [2] == [2];
    var fl2 := AskedFlags([2], [2]);
    assert Raised(QUIET, fl2.shards, 2, 1, false) == [true, false] by {
      assert Releases(fl2.shards[1], 1, false);
    }
    assert Released(fl2, 1).shards == ONE_RELEASED;
  }

  lemma TaskReleases(l: Local)
    requires WantedCore(l)
    ensures AfterWork(l, 1, Nothing(), CFG) == l.(fl := RELEASED_FLAGS)
  {
    assert IfR(l, 1, CFG) == l && IfOff(l, 1, CFG) == l;
    ShardReleased(l);
    var l1 := AfterSignal(l, 1, CFG);
    assert l1 == l.(fl := RELEASED_FLAGS);
    assert AfterChanges(l1, 1, CFG) == l1;
    NothingReceived(l1.pk, 1, 2);
  }

  lemma CoreReleases(st: State)
    requires st.fl == AskedFlags([], []) && st.workers == Core(0, 1, false)
    requires |st.pk.nic| == 2 && |st.pk.rings| == 4 && st.pk.nic[1] == [] && st.pk.rings[2] == []
    ensures Does(st, 1, Nothing(), Local(st.pk, RELEASED_FLAGS, Worker(2, 3, false, 0)), CFG)
  {
    if Inv(st, CFG) {
      LocalIsOk(st, 1, CFG);
      TaskReleases(LocalOf(st, 1));
    }
  }

  /** Core 1 has nothing to drain and releases its shard, which is meant for core 0. */
  lemma Releases1(st: State)
    requires st.fl == AskedFlags([], []) && st.workers == Core(0, 1, false)
    requires |st.pk.nic| == 2 && |st.pk.rings| == 4 && st.pk.nic[1] == [] && st.pk.rings[2] == []
    ensures GoesOn(st, Work(1, Nothing()), st.(fl := RELEASED_FLAGS), CFG)
  {
    CoreReleases(st);
    assert st.workers[1 := Worker(2, 3, false, 0)] == st.workers;
    Works(st, 1, Nothing(), Local(st.pk, RELEASED_FLAGS, Worker(2, 3, false, 0)), st.(fl := RELEASED_FLAGS), CFG);
  }

  ghost predicate ReleasedCore(l: Local) {
    && LocalOk(l, 0, CFG) && l.fl == RELEASED_FLAGS && l.wk == Worker(0, 1, false, 0)
    && l.pk == Place([7], [], [], [], [], [], [])
  }

  lemma NicDrained(l: Local)
    requires ReleasedCore(l)
    ensures AfterTransferShard(l, 0, CFG)
         == Local(LEFT_BEHIND, STUCK_FLAGS.(hadChanges := [true, false], signal := [true, false]),
                  Worker(0, 1, true, 0))
  {
    assert Drainable(1, 32) == 1;
    OneReceived(l.pk);
    NothingDrained(LEFT_BEHIND, 0, 1);
    FlagsLinked(l.fl);
  }

  lemma OneReceived(pk: Packets)
    requires pk == Place([7], [], [], [], [], [], [])
    ensures Received(pk, 0, 1, 1) == Place([], [], [7], [], [], [], [])
  {
    assert [7][..1] == [7] && [7][1..] == [] && [] + [7] == [7];
    assert pk.nic[0 := []] == [[], []];
    assert pk.rings[1 := [7]] == [[], [7], [], []];
  }

  lemma FlagsLinked(fl: Flags)
    requires fl == RELEASED_FLAGS
    ensures var wk := Worker(0, 1, false, 0);
            Linked(Unlinked(fl, wk), wk).(transferShard := QUIET)
            == STUCK_FLAGS.(hadChanges := [true, false], signal := [true, false])
  {
    PushedOne([2], 0);
    assert [2] + [0] == [2, 0];
  }

  lemma SignalDrains(l: Local)
    requires ReleasedCore(l)
    ensures AfterSignal(l, 0, CFG)
            == Local(LEFT_BEHIND, STUCK_FLAGS.(hadChanges := [true, false]), Worker(0, 1, true, 0))
  {
    assert IfR(l, 0, CFG) == l && IfOff(l, 0, CFG) == l;
    NicDrained(l);
  }

  lemma TaskForgets(l: Local)
    requires ReleasedCore(l)
    ensures AfterWork(l, 0, Nothing(), CFG) == Local(LEFT_BEHIND, STUCK_FLAGS, Worker(0, 1, false, 0))
  {
    SignalDrains(l);
    var l1 := AfterSignal(l, 0, CFG);
    assert Awaited(ONE_RELEASED, 0) by {
      assert ONE_RELEASED[1].ownerNew == 0;
    }
    assert AfterChanges(l1, 0, CFG) == Local(LEFT_BEHIND, STUCK_FLAGS, Worker(0, 1, false, 0));
    NothingReceived(LEFT_BEHIND, 0, 0);
  }

  lemma CoreForgets(st: State)
    requires st.fl == RELEASED_FLAGS && st.workers == Core(0, 1, false) && st.pk == Place([7], [], [], [], [], [], [])
    ensures Does(st, 0, Nothing(), Local(LEFT_BEHIND, STUCK_FLAGS, Worker(0, 1, false, 0)), CFG)
  {
    if Inv(st, CFG) {
      LocalIsOk(st, 0, CFG);
      TaskForgets(LocalOf(st, 0));
    }
  }

  /** Core 0 drains its receive queue into its private ring, and in the same task, because a
      shard has been released to it, forgets that it has a private ring to work off. */
  lemma Forgets(st: State, st': State)
    requires st.fl == RELEASED_FLAGS && st.workers == Core(0, 1, false) && st.pk == Place([7], [], [], [], [], [], [])
    requires st' == st.(pk := LEFT_BEHIND, fl := STUCK_FLAGS)
    ensures GoesOn(st, Work(0, Nothing()), st', CFG)
  {
    CoreForgets(st);
    assert st.workers[0 := Worker(0, 1, false, 0)] == st.workers;
    Works(st, 0, Nothing(), Local(LEFT_BEHIND, STUCK_FLAGS, Worker(0, 1, false, 0)), st', CFG);
  }

  lemma Stuck() returns (states: seq<State>, evs: seq<Event>)
    ensures IsRun(states, evs, CFG) && states[|evs|] == STUCK
    ensures evs == [Offload(0), Arrive(0, 7), Decide(SWAP), Work(1, Nothing()), Work(0, Nothing())]
  {
    states, evs := Begin();
    Arrives(READY, 7, CFG);
    states, evs := Next(states, evs, Arrive(0, 7), WAITING, CFG);
    Swaps(WAITING);
    states, evs := Next(states, evs, Decide(SWAP), WANTED, CFG);
    Releases1(WANTED);
    states, evs := Next(states, evs, Work(1, Nothing()), RELEASED, CFG);
    Forgets(RELEASED, STUCK);
    states, evs := Next(states, evs, Work(0, Nothing()), STUCK, CFG);
  }

  /** Packet 8 arrives after packet 7 in the same queue, and is emitted while packet 7 is still
      in the private ring. */
  lemma Overtaken() returns (states: seq<State>, evs: seq<Event>)
    ensures IsRun(states, evs, CFG)
    ensures evs == [Offload(0), Arrive(0, 7), Decide(SWAP), Work(1, Nothing()), Work(0, Nothing()),
                    Arrive(0, 8), Work(0, Nothing())]
    ensures states[7].pk == Place([], [], [7], [8], [], [8], []) && states[7].workers == Core(0, 1, false)
  {
    states, evs := Stuck();
    var st := STUCK.(pk := Place([], [], [7], [8], [], [8], []), entered := STUCK.entered + multiset{8});
    states, evs := Receive(states, evs, 8, Nothing(), STUCK, st, CFG);
  }

  // ---------------------------------------------------------------------
  // Never counted

  const ALSO: State := STUCK.(pk := Place([], [8], [7], [], [], [8], [8]), entered := STUCK.entered + multiset{8})

  /** Core 0 is told that a ratio is to change. */
  const TELL: Answer := Answer(SWAPPED_A, [0.0, 0.0], {0}, [], true)
  const TOLD_FLAGS: Flags := STUCK_FLAGS.(transferR := [true, false], signal := [true, true])
  const TOLD: State := ALSO.(fl := TOLD_FLAGS)
  const EXCHANGED_FLAGS: Flags :=
    STUCK_FLAGS.(signal := [false, true], queues := [1, 2], rings := [0, 3], toRemove := [[2, 0, 0]],
                 toAdd := [[2, 0, 1]])
  const EXCHANGED: State := TOLD.(workers := Core(1, 0, true), fl := EXCHANGED_FLAGS)
  const POLLED: State :=
    EXCHANGED.(pk := Place([], [], [7], [], [8], [8], [8]), fl := EXCHANGED_FLAGS.(toRemove := [[]], toAdd := [[]]),
               offs := [Offloader([2, 0, 1], 2)])
  const GONE: State := POLLED.(pk := Place([], [], [], [], [8, 7], [8], [8]), offs := [Offloader([2, 0, 1], 3)])

  lemma Tells()
    ensures GoesOn(ALSO, Decide(TELL), TOLD, CFG)
  {
    assert Wanted(ALSO.fl.shards, TELL.wanted) == ALSO.fl.shards;
    assert Notified(QUIET, {0}) == [true, false];
    assert [true, true] == seq(2, _ => true);
    if Inv(ALSO, CFG) {
      DecidesSame(ALSO, TELL, TOLD_FLAGS, CFG);
    }
  }

  ghost predicate ToldCore(l: Local) {
    LocalOk(l, 0, CFG) && l.fl == TOLD_FLAGS && l.wk == Worker(0, 1, false, 0) && l.pk.rings[0] != []
  }

  lemma RingsExchanged(l: Local)
    requires ToldCore(l)
    ensures IfR(l, 0, CFG) == Local(l.pk, EXCHANGED_FLAGS.(signal := [true, true]), Worker(1, 0, true, 0))
  {
    PushedOne([2, 0], 0);
    PushedOne([2, 0], 1);
    assert [2, 0] + [0] == [2, 0, 0] && [2, 0] + [1] == [2, 0, 1];
    assert RatiosTaken(ONE_RELEASED, 0) == ONE_RELEASED;
  }

  lemma TaskExchanges(l: Local)
    requires ToldCore(l)
    ensures AfterWork(l, 0, Nothing(), CFG) == Local(l.pk, EXCHANGED_FLAGS, Worker(1, 0, true, 0))
  {
    RingsExchanged(l);
    var l1 := AfterSignal(l, 0, CFG);
    assert l1 == Local(l.pk, EXCHANGED_FLAGS, Worker(1, 0, true, 0));
    assert AfterChanges(l1, 0, CFG) == l1;
  }

  lemma CoreExchanges(st: State)
    requires st.fl == TOLD_FLAGS && st.workers == Core(0, 1, false) && 0 < |st.pk.rings| && st.pk.rings[0] != []
    ensures Does(st, 0, Nothing(), Local(st.pk, EXCHANGED_FLAGS, Worker(1, 0, true, 0)), CFG)
  {
    if Inv(st, CFG) {
      LocalIsOk(st, 0, CFG);
      TaskExchanges(LocalOf(st, 0));
    }
  }

  /** Core 0 exchanges its two rings. */
  lemma Exchanges(st: State, st': State)
    requires st.fl == TOLD_FLAGS && st.workers == Core(0, 1, false) && 0 < |st.pk.rings| && st.pk.rings[0] != []
    requires st' == st.(fl := EXCHANGED_FLAGS, workers := Core(1, 0, true))
    ensures GoesOn(st, Work(0, Nothing()), st', CFG)
  {
    CoreExchanges(st);
    assert st.workers[0 := Worker(1, 0, true, 0)] == st'.workers;
    Works(st, 0, Nothing(), Local(st.pk, EXCHANGED_FLAGS, Worker(1, 0, true, 0)), st', CFG);
  }

  lemma ServedNow()
    ensures Served(Offloader([0, 2], 1), EXCHANGED_FLAGS, 0) == [2, 0, 1]
  {
    WithoutBoth();
    assert [2, 0, 0][..2] == [2, 0] && [2, 0][..1] == [2] && [2][..0] == [];
    assert WithoutAll([0, 2], []) == [0, 2];
    assert WithoutAll([0, 2], [2]) == [0];
    assert WithoutAll([0, 2], [2, 0]) == [];
    assert WithoutAll([0, 2], [2, 0, 0]) == [];
    assert [] + [2, 0, 1] == [2, 0, 1];
  }

  lemma WithoutBoth()
    ensures Without([0, 2], 2) == [0] && Without([0], 0) == []
  {
    assert [0, 2][..1] == [0] && [0][..0] == [];
    assert Without([], 2) == [] == Without([], 0);
    assert Without([0], 2) == [] + [0] == [0];
  }

  /** The offloading core reads its lists and polls the ring of packet 8, */
  lemma Polls8()
    ensures GoesOn(EXCHANGED, Offload(0), POLLED, CFG)
  {
    ServedNow();
    assert [8][..1] == [8] && [8][1..] == [] && [] + [8] == [8];
    assert EXCHANGED.pk.rings[0 := []] == POLLED.pk.rings;
    if Inv(EXCHANGED, CFG) {
      Polls(EXCHANGED, 0, [2, 0, 1], 0, 1, POLLED, CFG);
    }
  }

  /** then that of packet 7. */
  lemma Polls7()
    ensures GoesOn(POLLED, Offload(0), GONE, CFG)
  {
    assert WithoutAll([2, 0, 1], []) + [] == [2, 0, 1];
    assert [7][..1] == [7] && [7][1..] == [] && [8] + [7] == [8, 7];
    assert POLLED.pk.rings[1 := []] == GONE.pk.rings;
    if Inv(POLLED, CFG) {
      Polls(POLLED, 0, [2, 0, 1], 1, 1, GONE, CFG);
    }
  }

  /** The packet that was left behind leaves through the offloading core, without ever having met
      `extract_state` or having been diverted. */
  lemma NeverCounted() returns (states: seq<State>, evs: seq<Event>)
    ensures IsRun(states, evs, CFG)
    ensures evs == [Offload(0), Arrive(0, 7), Decide(SWAP), Work(1, Nothing()), Work(0, Nothing()),
                    Arrive(0, 8), Work(0, All()), Decide(TELL), Work(0, Nothing()), Offload(0), Offload(0)]
    ensures states[11].pk == Place([], [], [], [], [8, 7], [8], [8]) && states[11].entered == multiset{7, 8}
  {
    states, evs := Stuck();
    states, evs := Receive(states, evs, 8, All(), STUCK, ALSO, CFG);
    Tells();
    states, evs := Next(states, evs, Decide(TELL), TOLD, CFG);
    Exchanges(TOLD, EXCHANGED);
    states, evs := Next(states, evs, Work(0, Nothing()), EXCHANGED, CFG);
    states, evs := Leaves7(states, evs);
  }

  lemma Leaves7(states: seq<State>, evs: seq<Event>) returns (states': seq<State>, evs': seq<Event>)
    requires IsRun(states, evs, CFG) && states[|evs|] == EXCHANGED
    ensures IsRun(states', evs', CFG) && evs' == evs + [Offload(0), Offload(0)] && states'[|evs'|] == GONE
  {
    Polls8();
    states', evs' := Next(states, evs, Offload(0), POLLED, CFG);
    Polls7();
    states', evs' := Next(states', evs', Offload(0), GONE, CFG);
  }
}
