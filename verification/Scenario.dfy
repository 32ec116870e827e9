/** Building blocks of concrete runs: a system with two working cores, step by step. */
module Scenario {
  import opened Machine
  import opened Device
  import opened Handover
  import opened Safety

  function All(): Buf -> bool {
    x => true
  }

  function Nothing(): Buf -> bool {
    x => false
  }

  lemma Arrives(st: State, x: Buf, cfg: Config)
    requires st.pk.nic == [[], []]
    ensures GoesOn(st, Arrive(0, x), st.(pk := st.pk.(nic := [[x], []]), entered := st.entered + multiset{x}), cfg)
  {
    assert st.pk.nic[0] + [x] == [x];
    assert st.pk.nic[0 := [x]] == [[x], []];
  }

  /** Core 0 has nothing else to do. */
  ghost predicate Free(st: State) {
    && st.workers != [] && st.workers[0] == Worker(0, 1, false, 0) && |st.fl.signal| == |st.fl.hadChanges| == 2
    && !st.fl.signal[0] && !st.fl.hadChanges[0]
  }

  /** The packets after core 0 has diverted or emitted packet `x`. */
  function Handled(pk: Packets, x: Buf, diverts: Buf -> bool): Packets
    requires 0 < |pk.rings|
  {
    (if diverts(x) then pk.(rings := pk.rings[0 := [x]], diverted := pk.diverted + [x])
     else pk.(emitted := pk.emitted + [x])).(extracted := pk.extracted + [x])
  }

  lemma OnePicked(x: Buf, diverts: Buf -> bool)
    ensures Pick([x], diverts, true) == if diverts(x) then [x] else []
    ensures Pick([x], diverts, false) == if diverts(x) then [] else [x]
  {
    assert [x][..0] == [];
    assert Pick([], diverts, true) == [] == Pick([], diverts, false);
  }

  lemma OneSplit(pk: Packets, x: Buf, diverts: Buf -> bool)
    requires pk.nic == [[x], []] && 0 < |pk.rings| && pk.rings[0] == []
    ensures Split(pk, 0, 1, 0, diverts) == Handled(pk, x, diverts).(nic := [[], []])
  {
    OnePicked(x, diverts);
    var xs := pk.nic[0][..1];
    assert xs == [x] && pk.nic[0][1..] == [] && pk.nic[0 := []] == [[], []];
    var pk1 := pk.(nic := [[], []], emitted := pk.emitted + Pick(xs, diverts, false),
                   extracted := pk.extracted + xs, diverted := pk.diverted + Pick(xs, diverts, true));
    if diverts(x) {
      assert [x][..1] == [x] && [x][1..] == [];
      assert pk.rings[0] + [x] == [x] && pk.refused + [] == pk.refused && pk.emitted + [] == pk.emitted;
    } else {
      PutNothing(pk1, 0);
      assert pk.diverted + [] == pk.diverted;
    }
  }

  lemma LocalIsOk(st: State, me: nat, cfg: Config)
    requires Inv(st, cfg) && me < cfg.w
    ensures LocalOk(LocalOf(st, me), me, cfg)
  {
    assert WorkerOk(st.workers[me], me, st.fl, st.pk, cfg);
  }

  /** The task of core `me` has the effect `l` on what the core sees. */
  ghost predicate Does(st: State, me: nat, diverts: Buf -> bool, l: Local, cfg: Config) {
    Inv(st, cfg) ==>
      && me < cfg.w && cfg.e != 0 && LocalOk(LocalOf(st, me), me, cfg)
      && AfterWork(LocalOf(st, me), me, diverts, cfg) == l
  }

  lemma Works(st: State, me: nat, diverts: Buf -> bool, l: Local, st': State, cfg: Config)
    requires Does(st, me, diverts, l, cfg) && me < |st.workers|
    requires st' == st.(pk := l.pk, fl := l.fl, workers := st.workers[me := l.wk])
    ensures GoesOn(st, Work(me, diverts), st', cfg)
  {
  }

  lemma TaskReceives(st: State, x: Buf, diverts: Buf -> bool, cfg: Config)
    requires Free(st) && cfg.e != 0 && st.pk.nic == [[x], []] && 0 < |st.pk.rings| && st.pk.rings[0] == []
    ensures Does(st, 0, diverts, Local(Handled(st.pk, x, diverts).(nic := [[], []]), st.fl, Worker(0, 1, false, 0)),
                 cfg)
  {
    if Inv(st, cfg) {
      LocalIsOk(st, 0, cfg);
      var l := LocalOf(st, 0);
      assert AfterChanges(AfterSignal(l, 0, cfg), 0, cfg) == l;
      OneSplit(st.pk, x, diverts);
    }
  }

  /** Core 0 receives a packet and diverts or emits it. */
  lemma Receives(st: State, x: Buf, diverts: Buf -> bool, st': State, cfg: Config)
    requires Free(st) && cfg.e != 0 && st.pk.nic == [[x], []] && 0 < |st.pk.rings| && st.pk.rings[0] == []
    requires st' == st.(pk := Handled(st.pk, x, diverts).(nic := [[], []]))
    ensures GoesOn(st, Work(0, diverts), st', cfg)
  {
    TaskReceives(st, x, diverts, cfg);
    assert st.workers[0 := Worker(0, 1, false, 0)] == st.workers;
    Works(st, 0, diverts, Local(st'.pk, st.fl, Worker(0, 1, false, 0)), st', cfg);
  }

  /** A run of an offloading core's task that polls `ring`, on which `n` packets wait. */
  lemma Polls(st: State, e: nat, served: seq<nat>, ring: nat, n: nat, st': State, cfg: Config)
    requires Inv(st, cfg) && e < cfg.e && Served(st.offs[e], st.fl, e) == served != []
    requires ring == served[st.offs[e].count % |served|] && ring < |st.pk.rings|
    requires n == |st.pk.rings[ring]| <= cfg.burst
    requires st.offs[e].count + 1 < TWO32
    requires st' == st.(pk := OffEmitted(st.pk, ring, n),
                        fl := st.fl.(toRemove := st.fl.toRemove[e := []], toAdd := st.fl.toAdd[e := []]),
                        offs := st.offs[e := Offloader(served, st.offs[e].count + 1)])
    ensures GoesOn(st, Offload(e), st', cfg)
  {
    assert OffLocalOk(OffLocal(st.pk, st.fl, st.offs[e]), e, cfg);
  }

  /** The same when there is nothing to poll. */
  lemma PollsNone(st: State, e: nat, st': State, cfg: Config)
    requires Inv(st, cfg) && e < cfg.e && Served(st.offs[e], st.fl, e) == []
    requires st' == st.(fl := st.fl.(toRemove := st.fl.toRemove[e := []], toAdd := st.fl.toAdd[e := []]),
                        offs := st.offs[e := st.offs[e].(served := [])])
    ensures GoesOn(st, Offload(e), st', cfg)
  {
    assert OffLocalOk(OffLocal(st.pk, st.fl, st.offs[e]), e, cfg);
  }

  lemma EmitsNothing(pk: Packets, ring: nat)
    requires ring < |pk.rings| && pk.rings[ring] == []
    ensures OffEmitted(pk, ring, 0) == pk
  {
    assert pk.rings[ring][0..] == [] && pk.rings[ring][..0] == [] && pk.rings[ring := []] == pk.rings;
    assert pk.offEmitted + [] == pk.offEmitted;
  }

  /** An answer that leaves the shards and their ratios alone. */
  lemma DecidesSame(st: State, ans: Answer, fl': Flags, cfg: Config)
    requires Inv(st, cfg) && ans.newA == st.a && |ans.wanted| == cfg.shards
    requires Wanted(st.fl.shards, ans.wanted) == st.fl.shards
    requires forall k :: 0 <= k < |ans.links| ==> ans.links[k].w < cfg.w && ans.links[k].e < cfg.e
    requires fl' == Relinked(st.fl, ans.links).(transferR := Notified(st.fl.transferR, ans.notify),
                                                signal := if ans.signal then seq(cfg.w, _ => true) else st.fl.signal)
    ensures GoesOn(st, Decide(ans), st.(fl := fl'), cfg)
  {
    forall s, w ensures !Requested(st.a, st.a, s, w) {
    }
  }

  /** A run and one more step. */
  lemma Next(states: seq<State>, evs: seq<Event>, ev: Event, st: State, cfg: Config)
    returns (states': seq<State>, evs': seq<Event>)
    requires IsRun(states, evs, cfg) && GoesOn(states[|evs|], ev, st, cfg)
    ensures IsRun(states', evs', cfg) && evs' == evs + [ev] && states'[|evs'|] == st
  {
    RunSnoc(states, evs, ev, st, cfg);
    states', evs' := states + [st], evs + [ev];
  }

  /** A packet arrives, and core 0 receives it. */
  lemma Receive(states: seq<State>, evs: seq<Event>, x: Buf, diverts: Buf -> bool, st: State, st': State, cfg: Config)
    returns (states': seq<State>, evs': seq<Event>)
    requires IsRun(states, evs, cfg) && states[|evs|] == st && Free(st) && cfg.e != 0 && st.pk.nic == [[], []]
    requires 0 < |st.pk.rings| && st.pk.rings[0] == []
    requires st' == st.(pk := Handled(st.pk, x, diverts), entered := st.entered + multiset{x})
    ensures IsRun(states', evs', cfg) && evs' == evs + [Arrive(0, x), Work(0, diverts)] && states'[|evs'|] == st'
  {
    var arrived := st.(pk := st.pk.(nic := [[x], []]), entered := st.entered + multiset{x});
    Arrives(st, x, cfg);
    states', evs' := Next(states, evs, Arrive(0, x), arrived, cfg);
    Receives(arrived, x, diverts, st', cfg);
    states', evs' := Next(states', evs', Work(0, diverts), st', cfg);
  }

  /** A burst of no packets changes nothing. */
  lemma NothingReceived(pk: Packets, w: nat, q: nat)
    requires w < |pk.nic| && pk.nic[w] == [] && q < |pk.rings|
    ensures Split(pk, w, 0, q, Nothing()) == pk
  {
    assert pk.nic[w][..0] == [] && pk.nic[w][0..] == [] && pk.nic[w := []] == pk.nic;
    assert Pick([], Nothing(), true) == [] == Pick([], Nothing(), false);
    assert pk.emitted + [] == pk.emitted && pk.extracted + [] == pk.extracted && pk.diverted + [] == pk.diverted;
    PutNothing(pk, q);
  }

  lemma NothingDrained(pk: Packets, q: nat, ring: nat)
    requires q < |pk.rings| && ring < |pk.rings| && pk.rings[q] == []
    ensures Drained(pk, q, ring) == pk
  {
    assert pk.rings[q := []] == pk.rings;
    PutNothing(pk, ring);
  }
}
