/** The handover of one shard from its owner `o` to a working core `w`, along any run. */
module Migration {
  import opened Device
  import opened Handover
  import opened Assignment
  import opened Safety
  import SS = ShortSolver

  /** How far the handover has come: 0 requested, 1 released by the owner, 2 taken by the
      new owner; -1 is none of these. */
  function Rank(c: Control, o: nat, w: nat): int {
    if c.owner == o && c.ownerNew == w then (if c.pause then 0 else 1)
    else if c.owner == w && c.ownerNew == NONE then 2
    else -1
  }

  function RankAt(st: State, s: nat, o: nat, w: nat): int {
    if s < |st.fl.shards| then Rank(st.fl.shards[s], o, w) else -1
  }

  function OwnerAt(st: State, s: nat): nat {
    if s < |st.fl.shards| then st.fl.shards[s].owner else NONE
  }

  ghost predicate SameControl(c: Control, c': Control) {
    c' == c.(r := c'.r)
  }

  /** What a core finds empty when it releases its shards: its private ring, if it was working
      that off; otherwise its receive queue and its offload ring, when it answers the
      controller's signal.  The other places are not looked at. */
  ghost predicate DrainedOwner(pk: Packets, fl: Flags, wk: Worker, me: nat)
    requires me < |pk.nic| && wk.q < |pk.rings| && wk.myring < |pk.rings| && me < |fl.signal| && me < |fl.transferShard|
  {
    if wk.myown then pk.rings[wk.myring] == []
    else fl.signal[me] && fl.transferShard[me] && pk.nic[me] == [] && pk.rings[wk.q] == []
  }

  lemma TransferRControls(l: Local, me: nat, cfg: Config, s: nat)
    requires LocalOk(l, me, cfg) && s < cfg.shards
    ensures var l' := AfterTransferR(l, me, cfg);
            && SameControl(l.fl.shards[s], l'.fl.shards[s])
            && l'.fl.hadChanges == l.fl.hadChanges && l'.fl.transferShard == l.fl.transferShard
            && l'.wk.myown == (l.wk.myown || |l.pk.rings[l.wk.q]| != 0)
            && (!l'.wk.myown ==> l'.pk == l.pk && l'.wk == l.wk)
  {
  }

  lemma TransferOffControls(l: Local, me: nat, cfg: Config, s: nat)
    requires LocalOk(l, me, cfg) && s < cfg.shards
    ensures var l' := AfterTransferOff(l, me, cfg);
            && l'.fl.shards == l.fl.shards
            && l'.fl.hadChanges == l.fl.hadChanges && l'.fl.transferShard == l.fl.transferShard
            && l'.wk.myown == (l.wk.myown || |l.pk.rings[l.wk.q]| != 0)
            && l'.pk.nic == l.pk.nic && l'.wk.q == l.wk.q
  {
  }

  lemma TransferShardControls(l: Local, me: nat, cfg: Config, s: nat)
    requires LocalOk(l, me, cfg) && s < cfg.shards
    ensures var l' := AfterTransferShard(l, me, cfg);
            var c := l.fl.shards[s];
            if l.wk.myown || l.pk.nic[me] != [] || l.pk.rings[l.wk.q] != [] then
              l'.fl.shards == l.fl.shards && l'.fl.hadChanges == l.fl.hadChanges
            else
              && l'.fl.shards[s] == Cleared(c, me, false)
              && (Releases(c, me, false) ==> l'.fl.hadChanges[c.ownerNew])
  {
  }

  /** The signalled part of the task changes a shard only by releasing it, when the core is
      drained, and then the new owner is told. */
  lemma SignalControls(l: Local, me: nat, cfg: Config, s: nat)
    requires LocalOk(l, me, cfg) && s < cfg.shards && !l.wk.myown
    ensures var l' := AfterSignal(l, me, cfg);
            var c, c' := l.fl.shards[s], l'.fl.shards[s];
            || SameControl(c, c')
            || (SameControl(c.(pause := false), c') && Releases(c, me, false)
                && DrainedOwner(l.pk, l.fl, l.wk, me) && l'.fl.hadChanges[c.ownerNew])
  {
    if l.fl.signal[me] {
      var l1 := IfR(l, me, cfg);
      var l2 := IfOff(l1, me, cfg);
      if l.fl.transferR[me] {
        TransferRControls(l, me, cfg, s);
      }
      if l1.fl.transferOff[me] {
        TransferOffControls(l1, me, cfg, s);
      }
      if l2.fl.transferShard[me] {
        TransferShardControls(l2, me, cfg, s);
      }
    }
  }

  /** What a run of the task of core `me` can do to a shard. */
  lemma WorkControls(l: Local, me: nat, diverts: Buf -> bool, cfg: Config, s: nat)
    requires LocalOk(l, me, cfg) && s < cfg.shards && (cfg.e == 0 ==> forall y :: !diverts(y))
    ensures var l' := AfterWork(l, me, diverts, cfg);
            var c, c' := l.fl.shards[s], l'.fl.shards[s];
            if l.wk.myown && l.pk.rings[l.wk.myring] == [] then
              && c' == Taken(Cleared(c, me, true), me)
              && (Releases(c, me, true) ==> l'.fl.hadChanges[c.ownerNew])
            else
              || SameControl(c, c')
              || (!l.wk.myown && SameControl(c.(pause := false), c') && Releases(c, me, false)
                  && DrainedOwner(l.pk, l.fl, l.wk, me) && (c.ownerNew != me ==> l'.fl.hadChanges[c.ownerNew]))
  {
    if !l.wk.myown {
      SignalControls(l, me, cfg, s);
    }
  }

  // ---------------------------------------------------------------------
  // One step

  /** The event does not ask for shard `s` to move. */
  ghost predicate Quiet(st: State, ev: Event, s: nat, cfg: Config) {
    ev.Decide? ==> forall v :: 0 <= v < cfg.w + cfg.e ==> !Requested(st.a, ev.ans.newA, s, v)
  }

  /** A step moves the handover on by at most one rank: the release is by the drained owner,
      which tells the new owner in the same step; the taking is by the new owner. */
  ghost predicate Advance(st: State, ev: Event, st': State, s: nat, o: nat, w: nat, cfg: Config) {
    var k, k' := RankAt(st, s, o, w), RankAt(st', s, o, w);
    && 0 <= k <= k' <= k + 1 && k' <= 2
    && (k == 0 && k' == 1 ==> ReleasedBy(st, ev, st', o, w, cfg))
    && (k == 1 && k' == 2 ==> TakenBy(st, ev, w, cfg))
  }

  /** The step is a run of the task of core `o`, which is drained, and core `w` is told. */
  ghost predicate ReleasedBy(st: State, ev: Event, st': State, o: nat, w: nat, cfg: Config) {
    && Inv(st, cfg) && o < cfg.w && WorkerOk(st.workers[o], o, st.fl, st.pk, cfg)
    && ev.Work? && ev.me == o && DrainedOwner(st.pk, st.fl, st.workers[o], o)
    && w < |st'.fl.hadChanges| && st'.fl.hadChanges[w]
  }

  /** The step is a run of the task of core `w`, whose private ring has run empty. */
  ghost predicate TakenBy(st: State, ev: Event, w: nat, cfg: Config) {
    && Inv(st, cfg) && w < cfg.w && WorkerOk(st.workers[w], w, st.fl, st.pk, cfg)
    && ev.Work? && ev.me == w && st.workers[w].myown && st.pk.rings[st.workers[w].myring] == []
  }

  lemma HandoverStep(st: State, ev: Event, st': State, s: nat, o: nat, w: nat, cfg: Config)
    requires Inv(st, cfg) && Step(st, ev, st', cfg) && Inv(st', cfg)
    requires s < cfg.shards && o < cfg.w && w < cfg.w && o != w && Quiet(st, ev, s, cfg)
    requires 0 <= RankAt(st, s, o, w)
    ensures Advance(st, ev, st', s, o, w, cfg)
  {
    match ev
    case Arrive(v, x) =>
    case Work(me, diverts) => HandoverWork(st, me, diverts, st', s, o, w, cfg);
    case Offload(e) =>
    case Decide(ans) =>
      assert st'.fl.shards[s] == Wanted(st.fl.shards, ans.wanted)[s];
  }

  lemma HandoverWork(st: State, me: nat, diverts: Buf -> bool, st': State, s: nat, o: nat, w: nat, cfg: Config)
    requires Inv(st, cfg) && Step(st, Work(me, diverts), st', cfg)
    requires s < cfg.shards && o < cfg.w && w < cfg.w && o != w
    requires 0 <= RankAt(st, s, o, w)
    ensures Advance(st, Work(me, diverts), st', s, o, w, cfg)
  {
    assert WorkerOk(st.workers[me], me, st.fl, st.pk, cfg);
    WorkControls(LocalOf(st, me), me, diverts, cfg, s);
  }

  /** The request itself. */
  lemma RequestStep(st: State, ans: Answer, st': State, s: nat, w: nat, cfg: Config)
    requires Inv(st, cfg) && Step(st, Decide(ans), st', cfg)
    requires s < cfg.shards && w < cfg.w + cfg.e && Requested(st.a, ans.newA, s, w) && OwnerAt(st, s) != w
    ensures OwnerAt(st, s) < cfg.w && w < cfg.w && RankAt(st', s, OwnerAt(st, s), w) == 0
    ensures |st'.fl.transferShard| == cfg.w && st'.fl.transferShard[OwnerAt(st, s)]
  {
    RequestedIsWorker(st.a, ans.newA, s, w, cfg);
    var shards := Wanted(st.fl.shards, ans.wanted);
    assert st'.fl.shards[s] == Asked(shards[s], w);
    assert Leaves(shards, st.a, ans.newA, s, shards[s].owner, cfg.w + cfg.e);
  }

  /** A shard that is requested for the core that owns it already is left alone. */
  lemma OwnRequest(st: State, ans: Answer, st': State, s: nat, w: nat, cfg: Config)
    requires Inv(st, cfg) && Step(st, Decide(ans), st', cfg)
    requires s < cfg.shards && w < cfg.w + cfg.e && Requested(st.a, ans.newA, s, w) && OwnerAt(st, s) == w
    ensures |st'.fl.shards| == cfg.shards
    ensures var c, c' := st.fl.shards[s], st'.fl.shards[s];
            && c'.owner == c.owner == w && c'.ownerNew == c.ownerNew && c'.pause == c.pause && c'.r == c.r
            && c'.rNew == ans.wanted[s]
  {
    assert st'.fl.shards[s] == Asked(Wanted(st.fl.shards, ans.wanted)[s], w);
  }

  /** A decision raises flags for exactly these cores: to hand shards over, those that own a shard
      which the new matrix newly gives to another core; to take ratios, those it names; to
      look at all, everybody or nobody. */
  lemma DecisionTells(st: State, ans: Answer, st': State, o: nat, cfg: Config)
    requires Inv(st, cfg) && Step(st, Decide(ans), st', cfg) && o < cfg.w
    ensures var fl, fl' := st.fl, st'.fl;
            && |fl'.transferShard| == |fl'.transferR| == |fl'.signal| == cfg.w && fl'.hadChanges == fl.hadChanges
            && (fl'.transferShard[o] <==>
                  fl.transferShard[o]
                  || exists s, w :: 0 <= s < cfg.shards && 0 <= w < cfg.w + cfg.e && w != o && fl.shards[s].owner == o
                                    && SS.Cell(st.a, s, w) == 0 && SS.Cell(ans.newA, s, w) == 1)
            && (fl'.transferR[o] <==> fl.transferR[o] || o in ans.notify)
            && (fl'.signal[o] <==> fl.signal[o] || ans.signal)
  {
    var shards := Wanted(st.fl.shards, ans.wanted);
    forall s | 0 <= s < cfg.shards
      ensures Leaves(shards, st.a, ans.newA, s, o, cfg.w + cfg.e) <==>
                st.fl.shards[s].owner == o
                && exists w :: 0 <= w < cfg.w + cfg.e && w != o
                               && SS.Cell(st.a, s, w) == 0 && SS.Cell(ans.newA, s, w) == 1
    {
      assert forall w :: Requested(st.a, ans.newA, s, w) <==>
                           SS.Cell(st.a, s, w) == 0 && SS.Cell(ans.newA, s, w) == 1;
    }
  }

  // ---------------------------------------------------------------------
  // Any run

  /** At step `i` core `w` is asked to take shard `s` from its owner `o`, and no other request
      for the shard is made before step `j`. */
  ghost predicate AskedOnce(states: seq<State>, evs: seq<Event>, i: nat, j: nat, s: nat, o: nat, w: nat, cfg: Config) {
    && IsRun(states, evs, cfg) && i < j <= |evs| && s < cfg.shards && w < cfg.w + cfg.e
    && evs[i].Decide? && Requested(states[i].a, evs[i].ans.newA, s, w)
    && OwnerAt(states[i], s) == o != w
    && forall m :: i < m < j ==> Quiet(states[m], evs[m], s, cfg)
  }

  /** From the request on, every state is in one of the three phases and every step goes on
      as it should. */
  ghost predicate OnTrack(states: seq<State>, evs: seq<Event>, i: nat, j: nat, s: nat, o: nat, w: nat, cfg: Config) {
    && i < j <= |evs| && |states| == |evs| + 1 && RankAt(states[i + 1], s, o, w) == 0
    && forall m :: i < m < j ==> Advance(states[m], evs[m], states[m + 1], s, o, w, cfg)
  }

  lemma FirstStep(states: seq<State>, evs: seq<Event>, i: nat, j: nat, s: nat, o: nat, w: nat, cfg: Config)
    requires AskedOnce(states, evs, i, j, s, o, w, cfg)
    ensures o < cfg.w && w < cfg.w && RankAt(states[i + 1], s, o, w) == 0
  {
    RunStep(states, evs, i, cfg);
    RequestStep(states[i], evs[i].ans, states[i + 1], s, w, cfg);
  }

  lemma NextStep(states: seq<State>, evs: seq<Event>, i: nat, j: nat, m: nat, s: nat, o: nat, w: nat, cfg: Config)
    requires AskedOnce(states, evs, i, j, s, o, w, cfg) && i < m < j && 0 <= RankAt(states[m], s, o, w)
    requires o < cfg.w && w < cfg.w
    ensures Advance(states[m], evs[m], states[m + 1], s, o, w, cfg)
  {
    RunStep(states, evs, m, cfg);
    HandoverStep(states[m], evs[m], states[m + 1], s, o, w, cfg);
  }

  lemma {:induction false} HandoverTo(states: seq<State>, evs: seq<Event>, i: nat, j: nat, k: nat, s: nat, o: nat,
                                      w: nat, cfg: Config)
    requires AskedOnce(states, evs, i, j, s, o, w, cfg) && i < k <= j
    requires o < cfg.w && w < cfg.w && RankAt(states[i + 1], s, o, w) == 0
    ensures OnTrack(states, evs, i, k, s, o, w, cfg) && 0 <= RankAt(states[k], s, o, w) <= 2
    decreases k
  {
    if i + 1 < k {
      HandoverTo(states, evs, i, j, k - 1, s, o, w, cfg);
      NextStep(states, evs, i, j, k - 1, s, o, w, cfg);
    }
  }

  /** The handover along any run. */
  lemma HandoverRun(states: seq<State>, evs: seq<Event>, i: nat, j: nat, s: nat, o: nat, w: nat, cfg: Config)
    requires AskedOnce(states, evs, i, j, s, o, w, cfg)
    ensures OnTrack(states, evs, i, j, s, o, w, cfg)
    ensures 0 <= RankAt(states[j], s, o, w) <= 2
  {
    FirstStep(states, evs, i, j, s, o, w, cfg);
    HandoverTo(states, evs, i, j, j, s, o, w, cfg);
  }

  /** The owner of the shard at any later time: still the old one, unless the old owner
      has released the shard while drained and the new one has taken it afterwards. */
  lemma OwnerChangesOnce(states: seq<State>, evs: seq<Event>, i: nat, j: nat, s: nat, o: nat, w: nat, cfg: Config)
    returns (release: nat, take: nat)
    requires AskedOnce(states, evs, i, j, s, o, w, cfg)
    ensures OwnerAt(states[j], s) == o || OwnerAt(states[j], s) == w
    ensures 0 < RankAt(states[j], s, o, w) ==>
              i < release < j && ReleasedBy(states[release], evs[release], states[release + 1], o, w, cfg)
    ensures OwnerAt(states[j], s) == w ==>
              i < release < take < j && TakenBy(states[take], evs[take], w, cfg)
    ensures forall m :: i < m <= j && OwnerAt(states[m], s) == w ==> OwnerAt(states[j], s) == w
  {
    HandoverRun(states, evs, i, j, s, o, w, cfg);
    release, take := Causes(states, evs, i, j, s, o, w, cfg);
    forall m | i < m <= j && OwnerAt(states[m], s) == w ensures OwnerAt(states[j], s) == w {
      OwnerStays(states, evs, i, j, m, s, o, w, cfg);
    }
  }

  /** Once the new owner has the shard, it keeps it. */
  lemma OwnerStays(states: seq<State>, evs: seq<Event>, i: nat, j: nat, m: nat, s: nat, o: nat, w: nat, cfg: Config)
    requires OnTrack(states, evs, i, j, s, o, w, cfg) && i < m <= j && o != w && OwnerAt(states[m], s) == w
    requires RankAt(states[j], s, o, w) <= 2
    ensures OwnerAt(states[j], s) == w
  {
    RankKeeps(states, evs, i, m, i + 1, s, o, w, cfg);
    RankKeeps(states, evs, i, j, m, s, o, w, cfg);
  }

  lemma Causes(states: seq<State>, evs: seq<Event>, i: nat, j: nat, s: nat, o: nat, w: nat, cfg: Config)
    returns (release: nat, take: nat)
    requires OnTrack(states, evs, i, j, s, o, w, cfg) && o != w && 0 <= RankAt(states[j], s, o, w)
    ensures OwnerAt(states[j], s) == if RankAt(states[j], s, o, w) == 2 then w else o
    ensures 0 < RankAt(states[j], s, o, w) ==>
              i < release < j && ReleasedBy(states[release], evs[release], states[release + 1], o, w, cfg)
    ensures RankAt(states[j], s, o, w) == 2 ==>
              i < release < take < j && TakenBy(states[take], evs[take], w, cfg)
  {
    release, take := 0, 0;
    if 0 < RankAt(states[j], s, o, w) {
      release := RankRises(states, evs, i, j, 0, s, o, w, cfg);
      if RankAt(states[j], s, o, w) == 2 {
        take := RankRises(states, evs, i, j, 1, s, o, w, cfg);
        if take <= release {
          RankKeeps(states, evs, i, release, take + 1, s, o, w, cfg);
        }
      }
    }
  }

  /** A rank that has been passed was left in one step. */
  lemma {:induction false} RankRises(states: seq<State>, evs: seq<Event>, i: nat, j: nat, k: nat, s: nat, o: nat,
                                     w: nat, cfg: Config)
    returns (m: nat)
    requires OnTrack(states, evs, i, j, s, o, w, cfg) && k < RankAt(states[j], s, o, w)
    ensures i < m < j && RankAt(states[m], s, o, w) == k && RankAt(states[m + 1], s, o, w) == k + 1
    ensures Advance(states[m], evs[m], states[m + 1], s, o, w, cfg)
    decreases j
  {
    assert Advance(states[j - 1], evs[j - 1], states[j], s, o, w, cfg);
    if RankAt(states[j - 1], s, o, w) <= k {
      m := j - 1;
    } else {
      m := RankRises(states, evs, i, j - 1, k, s, o, w, cfg);
    }
  }

  /** Ranks never fall. */
  lemma {:induction false} RankKeeps(states: seq<State>, evs: seq<Event>, i: nat, j: nat, m: nat, s: nat, o: nat,
                                     w: nat, cfg: Config)
    requires OnTrack(states, evs, i, j, s, o, w, cfg) && i < m
    ensures m <= j ==> RankAt(states[m], s, o, w) <= RankAt(states[j], s, o, w)
    decreases j
  {
    if m < j {
      assert Advance(states[j - 1], evs[j - 1], states[j], s, o, w, cfg);
      RankKeeps(states, evs, i, j - 1, m, s, o, w, cfg);
    }
  }

  // ---------------------------------------------------------------------
  // Who may change an owner, and a ratio

  /** The owner of a shard changes in a step exactly when a core that has worked off its
      private ring finds the shard released and meant for it; that core is the new owner. */
  lemma OwnerChangesIff(st: State, ev: Event, st': State, s: nat, cfg: Config)
    requires Inv(st, cfg) && Step(st, ev, st', cfg) && s < cfg.shards
    ensures OwnerAt(st', s) != OwnerAt(st, s) <==> TakesOver(st, ev, s, cfg)
    ensures OwnerAt(st', s) != OwnerAt(st, s) ==> OwnerAt(st', s) == ev.me
  {
    match ev
    case Arrive(v, x) =>
    case Work(me, diverts) =>
      assert WorkerOk(st.workers[me], me, st.fl, st.pk, cfg);
      WorkControls(LocalOf(st, me), me, diverts, cfg, s);
    case Offload(e) =>
    case Decide(ans) =>
      AskedKeeps(Wanted(st.fl.shards, ans.wanted), st'.fl.shards, st.a, ans.newA, cfg, s);
  }

  lemma RRatios(l: Local, me: nat, cfg: Config, s: nat)
    requires LocalOk(l, me, cfg) && s < cfg.shards
    ensures var l' := IfR(l, me, cfg);
            var c, c' := l.fl.shards[s], l'.fl.shards[s];
            c' == c.(r := if l.fl.transferR[me] && c.owner == me then c.rNew else c.r)
  {
  }

  lemma OffRatios(l: Local, me: nat, cfg: Config, s: nat)
    requires LocalOk(l, me, cfg) && s < cfg.shards
    ensures IfOff(l, me, cfg).fl.shards[s] == l.fl.shards[s]
  {
  }

  lemma ShardRatios(l: Local, me: nat, cfg: Config, s: nat)
    requires LocalOk(l, me, cfg) && s < cfg.shards
    ensures IfShard(l, me, cfg).fl.shards[s].r == l.fl.shards[s].r
  {
    if l.fl.transferShard[me] {
      TransferShardControls(l, me, cfg, s);
    }
  }

  /** A task gives a shard its new ratio exactly when its owner has been told to. */
  lemma WorkRatios(l: Local, me: nat, diverts: Buf -> bool, cfg: Config, s: nat)
    requires LocalOk(l, me, cfg) && s < cfg.shards && (cfg.e == 0 ==> forall y :: !diverts(y))
    ensures var c := l.fl.shards[s];
            AfterWork(l, me, diverts, cfg).fl.shards[s].r ==
            if !l.wk.myown && l.fl.signal[me] && l.fl.transferR[me] && c.owner == me then c.rNew else c.r
  {
    if !l.wk.myown && l.fl.signal[me] {
      var l1 := IfR(l, me, cfg);
      RRatios(l, me, cfg, s);
      OffRatios(l1, me, cfg, s);
      ShardRatios(IfOff(l1, me, cfg), me, cfg, s);
    }
  }

  /** The ratio of a shard changes in a step only by a run of its owner's task that answers
      the signal, and then to the ratio last wanted. */
  lemma RatioChangesIff(st: State, ev: Event, st': State, s: nat, cfg: Config)
    requires Inv(st, cfg) && Step(st, ev, st', cfg) && s < cfg.shards && |st'.fl.shards| == cfg.shards
    ensures var c := st.fl.shards[s];
            st'.fl.shards[s].r ==
            if ev.Work? && c.owner == ev.me && !st.workers[ev.me].myown && st.fl.signal[ev.me] && st.fl.transferR[ev.me]
            then c.rNew else c.r
  {
    match ev
    case Arrive(v, x) =>
    case Work(me, diverts) =>
      assert WorkerOk(st.workers[me], me, st.fl, st.pk, cfg);
      WorkRatios(LocalOf(st, me), me, diverts, cfg, s);
    case Offload(e) =>
    case Decide(ans) =>
      AskedKeeps(Wanted(st.fl.shards, ans.wanted), st'.fl.shards, st.a, ans.newA, cfg, s);
  }

  /** What is wanted changes in a decision only, which sets it to the ratio of the answer. */
  lemma WantedChangesIff(st: State, ev: Event, st': State, s: nat, cfg: Config)
    requires Inv(st, cfg) && Step(st, ev, st', cfg) && s < cfg.shards && |st'.fl.shards| == cfg.shards
    ensures st'.fl.shards[s].rNew == if ev.Decide? then ev.ans.wanted[s] else st.fl.shards[s].rNew
  {
    match ev
    case Arrive(v, x) =>
    case Work(me, diverts) =>
      assert WorkerOk(st.workers[me], me, st.fl, st.pk, cfg);
      WorkControls(LocalOf(st, me), me, diverts, cfg, s);
    case Offload(e) =>
    case Decide(ans) =>
      AskedKeeps(Wanted(st.fl.shards, ans.wanted), st'.fl.shards, st.a, ans.newA, cfg, s);
  }

  /** The ratio of the last decision before step `i`; 0 if there was none. */
  function LastWanted(evs: seq<Event>, i: nat, s: nat): real
    requires i <= |evs|
  {
    if i == 0 then 0.0
    else if evs[i - 1].Decide? && s < |evs[i - 1].ans.wanted| then evs[i - 1].ans.wanted[s]
    else LastWanted(evs, i - 1, s)
  }

  /** The step is a task in which the owner of the shard answers a signal to take new ratios. */
  ghost predicate TakesRatio(st: State, ev: Event, s: nat) {
    && s < |st.fl.shards| && ev.Work? && st.fl.shards[s].owner == ev.me
    && ev.me < |st.workers| && !st.workers[ev.me].myown
    && ev.me < |st.fl.signal| && st.fl.signal[ev.me] && ev.me < |st.fl.transferR| && st.fl.transferR[ev.me]
  }

  /** The ratio that was wanted when the owner last took one. */
  ghost function LastTaken(states: seq<State>, evs: seq<Event>, i: nat, s: nat): real
    requires i <= |evs| <= |states|
  {
    if i == 0 then 0.0
    else if TakesRatio(states[i - 1], evs[i - 1], s) then LastWanted(evs, i - 1, s)
    else LastTaken(states, evs, i - 1, s)
  }

  /** In any run: what is wanted of a shard is the ratio of the last decision, and the ratio in
      force is the one that was wanted when its owner last answered the signal. */
  lemma {:induction false} RatioInForce(states: seq<State>, evs: seq<Event>, i: nat, s: nat, cfg: Config)
    requires IsRun(states, evs, cfg) && i <= |evs| && s < cfg.shards
    ensures |states[i].fl.shards| == cfg.shards
    ensures states[i].fl.shards[s].rNew == LastWanted(evs, i, s)
    ensures states[i].fl.shards[s].r == LastTaken(states, evs, i, s)
    decreases i
  {
    if i != 0 {
      RatioInForce(states, evs, i - 1, s, cfg);
      RatioNext(states, evs, i - 1, s, cfg);
    }
  }

  lemma RatioNext(states: seq<State>, evs: seq<Event>, i: nat, s: nat, cfg: Config)
    requires IsRun(states, evs, cfg) && i < |evs| && s < cfg.shards
    ensures |states[i].fl.shards| == |states[i + 1].fl.shards| == cfg.shards
    ensures evs[i].Decide? ==> |evs[i].ans.wanted| == cfg.shards
    ensures var c, c' := states[i].fl.shards[s], states[i + 1].fl.shards[s];
            && c'.rNew == (if evs[i].Decide? then evs[i].ans.wanted[s] else c.rNew)
            && c'.r == (if TakesRatio(states[i], evs[i], s) then c.rNew else c.r)
  {
    RunStep(states, evs, i, cfg);
    WantedChangesIff(states[i], evs[i], states[i + 1], s, cfg);
    RatioChangesIff(states[i], evs[i], states[i + 1], s, cfg);
  }

  // ---------------------------------------------------------------------
  // The owner and the column of A

  /** The matrix gives the shard to its owner. */
  predicate InColumn(st: State, s: nat) {
    SS.Cell(st.a, s, OwnerAt(st, s)) == 1
  }

  /** The step is a task in which its core takes the shard from another owner. */
  ghost predicate TakesOver(st: State, ev: Event, s: nat, cfg: Config) {
    && s < |st.fl.shards| && ev.Work? && TakenBy(st, ev, ev.me, cfg)
    && st.fl.shards[s].owner != ev.me && st.fl.shards[s].ownerNew == ev.me && !st.fl.shards[s].pause
  }

  /** A row with two 1s is not one-hot. */
  lemma OneCell(a: SS.Matrix, s: nat, v: nat, w: nat, cfg: Config)
    requires OneHot(a, cfg) && s < cfg.shards && v < cfg.w + cfg.e && w < cfg.w + cfg.e
    requires SS.Cell(a, s, v) == 1 && SS.Cell(a, s, w) == 1
    ensures v == w
  {
    assert SS.HotBelow(SS.Row(a, s), cfg.w + cfg.e, cfg.w);
    assert SS.Row(a, s).At(v) == SS.Cell(a, s, v) && SS.Row(a, s).At(w) == SS.Cell(a, s, w);
  }

  /** A step parts the owner from the column of A exactly if it is a take-over, or a decision
      that gives the shard to another core. */
  lemma ColumnLostIff(st: State, ev: Event, st': State, s: nat, cfg: Config)
    requires Inv(st, cfg) && Step(st, ev, st', cfg) && s < cfg.shards && InColumn(st, s)
    ensures !InColumn(st', s) <==> TakesOver(st, ev, s, cfg) || !Quiet(st, ev, s, cfg)
  {
    var o := OwnerAt(st, s);
    OwnerChangesIff(st, ev, st', s, cfg);
    if ev.Decide? {
      DecidedColumn(st.a, ev.ans.newA, s, o, cfg);
    } else if TakesOver(st, ev, s, cfg) && InColumn(st', s) {
      OneCell(st.a, s, o, ev.me, cfg);
    }
  }

  lemma DecidedColumn(a: SS.Matrix, newA: SS.Matrix, s: nat, o: nat, cfg: Config)
    requires OneHot(a, cfg) && OneHot(newA, cfg) && s < cfg.shards && o < cfg.w && SS.Cell(a, s, o) == 1
    ensures SS.Cell(newA, s, o) != 1 <==> exists v :: 0 <= v < cfg.w + cfg.e && Requested(a, newA, s, v)
  {
    assert SS.HotBelow(SS.Row(newA, s), cfg.w + cfg.e, cfg.w);
    var h: nat :| h < cfg.w && SS.Hot(SS.Row(newA, s), cfg.w + cfg.e, h);
    assert SS.Row(newA, s).At(h) == SS.Cell(newA, s, h) && SS.Row(newA, s).At(o) == SS.Cell(newA, s, o);
    if h == o {
      forall v | 0 <= v < cfg.w + cfg.e ensures !Requested(a, newA, s, v) {
        if Requested(a, newA, s, v) {
          OneCell(newA, s, v, o, cfg);
        }
      }
    } else {
      if SS.Cell(a, s, h) == 1 {
        OneCell(a, s, o, h, cfg);
      }
      assert SS.Cell(a, s, h) == 0 by {
        assert SS.Binary(a);
      }
      assert Requested(a, newA, s, h);
    }
  }

  /** The step moves the column of the shard away from its owner, or gives it to a core that is
      not its column. */
  ghost predicate Parts(st: State, ev: Event, s: nat, cfg: Config) {
    if ev.Decide? then SS.Cell(ev.ans.newA, s, OwnerAt(st, s)) != 1
    else TakesOver(st, ev, s, cfg) && SS.Cell(st.a, s, ev.me) != 1
  }

  /** The step leaves or brings the column to the owner, or gives the shard to its column. */
  ghost predicate Joins(st: State, ev: Event, s: nat, cfg: Config) {
    if ev.Decide? then SS.Cell(ev.ans.newA, s, OwnerAt(st, s)) == 1
    else TakesOver(st, ev, s, cfg) && SS.Cell(st.a, s, ev.me) == 1
  }

  lemma ColumnAfter(st: State, ev: Event, st': State, s: nat, cfg: Config)
    requires Inv(st, cfg) && Step(st, ev, st', cfg) && s < cfg.shards
    ensures InColumn(st', s) <==> Joins(st, ev, s, cfg) || (InColumn(st, s) && !Parts(st, ev, s, cfg))
  {
    OwnerChangesIff(st, ev, st', s, cfg);
  }

  lemma InColumnAtStart(st: State, s: nat, cfg: Config)
    requires Initial(st, cfg) && s < cfg.shards
    ensures InColumn(st, s)
  {
    assert st.fl.shards[s].owner == FirstCore(s, cfg.w);
    assert st.a[s][FirstCore(s, cfg.w)] == 1;
  }

  /** Every step among the first `i` that parted the shard from its column was made up for by a
      later one. */
  ghost predicate MadeUp(states: seq<State>, evs: seq<Event>, i: nat, s: nat, cfg: Config)
    requires i <= |evs| <= |states|
  {
    forall k :: 0 <= k < i && Parts(states[k], evs[k], s, cfg) ==>
      exists m :: k < m < i && Joins(states[m], evs[m], s, cfg)
  }

  lemma ColumnStep(states: seq<State>, evs: seq<Event>, i: nat, s: nat, cfg: Config)
    requires IsRun(states, evs, cfg) && 0 < i <= |evs| && s < cfg.shards
    ensures var parts, joins := Parts(states[i - 1], evs[i - 1], s, cfg), Joins(states[i - 1], evs[i - 1], s, cfg);
            InColumn(states[i], s) <==> joins || (InColumn(states[i - 1], s) && !parts)
  {
    var st, ev, st' := states[i - 1], evs[i - 1], states[i];
    RunStep(states, evs, i - 1, cfg);
    ColumnAfter(st, ev, st', s, cfg);
  }

  /** In any run: the owner of a shard is its column of A exactly if every step that parted
      them was made up for. */
  lemma {:induction false} InColumnIff(states: seq<State>, evs: seq<Event>, i: nat, s: nat, cfg: Config)
    requires IsRun(states, evs, cfg) && i <= |evs| && s < cfg.shards
    ensures InColumn(states[i], s) <==> MadeUp(states, evs, i, s, cfg)
    decreases i
  {
    if i == 0 {
      InColumnAtStart(states[0], s, cfg);
    } else {
      InColumnIff(states, evs, i - 1, s, cfg);
      ColumnStep(states, evs, i, s, cfg);
      MadeUpNext(states, evs, i, s, cfg);
    }
  }

  lemma MadeUpNext(states: seq<State>, evs: seq<Event>, i: nat, s: nat, cfg: Config)
    requires 0 < i <= |evs| <= |states|
    ensures var parts, joins := Parts(states[i - 1], evs[i - 1], s, cfg), Joins(states[i - 1], evs[i - 1], s, cfg);
            MadeUp(states, evs, i, s, cfg) <==> joins || (MadeUp(states, evs, i - 1, s, cfg) && !parts)
  {
    if Joins(states[i - 1], evs[i - 1], s, cfg) {
      forall k | 0 <= k < i && Parts(states[k], evs[k], s, cfg) ensures k < i - 1 < i {
        NotBoth(states[k], evs[k], s, cfg);
      }
    } else {
      if MadeUp(states, evs, i, s, cfg) {
        MadeUpBefore(states, evs, i, s, cfg);
      }
      if MadeUp(states, evs, i - 1, s, cfg) && !Parts(states[i - 1], evs[i - 1], s, cfg) {
        MadeUpAfter(states, evs, i, s, cfg);
      }
    }
  }

  lemma NotBoth(st: State, ev: Event, s: nat, cfg: Config)
    ensures !(Parts(st, ev, s, cfg) && Joins(st, ev, s, cfg))
  {
  }

  lemma MadeUpBefore(states: seq<State>, evs: seq<Event>, i: nat, s: nat, cfg: Config)
    requires 0 < i <= |evs| <= |states| && MadeUp(states, evs, i, s, cfg) && !Joins(states[i - 1], evs[i - 1], s, cfg)
    ensures MadeUp(states, evs, i - 1, s, cfg) && !Parts(states[i - 1], evs[i - 1], s, cfg)
  {
    forall k | 0 <= k < i - 1 && Parts(states[k], evs[k], s, cfg)
      ensures exists m :: k < m < i - 1 && Joins(states[m], evs[m], s, cfg)
    {
      var m :| k < m < i && Joins(states[m], evs[m], s, cfg);
    }
  }

  lemma MadeUpAfter(states: seq<State>, evs: seq<Event>, i: nat, s: nat, cfg: Config)
    requires 0 < i <= |evs| <= |states| && MadeUp(states, evs, i - 1, s, cfg)
    requires !Parts(states[i - 1], evs[i - 1], s, cfg)
    ensures MadeUp(states, evs, i, s, cfg)
  {
    forall k | 0 <= k < i && Parts(states[k], evs[k], s, cfg)
      ensures exists m :: k < m < i && Joins(states[m], evs[m], s, cfg)
    {
      var m :| k < m < i - 1 && Joins(states[m], evs[m], s, cfg);
    }
  }

  // ---------------------------------------------------------------------
  // The packets that `transfer_shard` moves

  /** What `transfer_shard` does to the packets when the private ring has room for them: a
      prefix of the receive queue and all of the offload ring follow what was in the private
      ring.  The prefix is the whole queue, or 256 packets if there are more and bursts divide
      256; when bursts do not divide it, the counter runs past 0 and the whole queue is
      taken. */
  lemma TransferShardMoves(l: Local, me: nat, cfg: Config)
    requires LocalOk(l, me, cfg)
    requires var t := Drainable(|l.pk.nic[me]|, cfg.burst);
             |l.pk.rings[l.wk.myring]| + t + |l.pk.rings[l.wk.q]| <= 4095
    ensures var l', n := AfterTransferShard(l, me, cfg), |l.pk.nic[me]|;
            var t := n - |l'.pk.nic[me]|;
            && l.pk.nic[me] == l.pk.nic[me][..t] + l'.pk.nic[me]
            && l'.pk.rings[l.wk.myring] == l.pk.rings[l.wk.myring] + l.pk.nic[me][..t] + l.pk.rings[l.wk.q]
            && l'.pk.rings[l.wk.q] == [] && l'.pk.refused == l.pk.refused
            && t == (if 256 < n && 256 % cfg.burst == 0 then 256 else n)
            && (l'.wk.myown <==> l.wk.myown || t != 0 || l.pk.rings[l.wk.q] != [])
  {
    var xs, t := l.pk.nic[me], Drainable(|l.pk.nic[me]|, cfg.burst);
    var m, q := l.pk.rings[l.wk.myring], l.pk.rings[l.wk.q];
    PutAll(l.pk.(nic := l.pk.nic[me := xs[t..]]), l.wk.myring, xs[..t]);
    var pk1 := Received(l.pk, me, t, l.wk.myring);
    assert pk1.rings[l.wk.q] == q;
    PutAll(pk1.(rings := pk1.rings[l.wk.q := []]), l.wk.myring, q);
  }

  /** A burst that fits is entered as a whole. */
  lemma PutAll(pk: Packets, ring: nat, xs: seq<Buf>)
    requires ring < |pk.rings| && |pk.rings[ring]| + |xs| <= RING_SIZE
    ensures Put(pk, ring, xs) == pk.(rings := pk.rings[ring := pk.rings[ring] + xs])
  {
    assert xs[..|xs|] == xs && xs[|xs|..] == [] && pk.refused + [] == pk.refused;
  }
}
