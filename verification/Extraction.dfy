/** How often the flow state of a packet is taken: exactly once for every time it is emitted by
    a working core and once for every time it is diverted. */
module Extraction {
  import opened Device
  import opened Handover
  import opened Safety

  /** The calls of `extract_state` for a packet, and how often it can still be diverted. */
  ghost predicate Logged(pk: Packets, x: Buf, entered: nat) {
    && Count(pk.extracted, x) == Count(pk.emitted, x) + Count(pk.diverted, x)
    && Load(pk.nic, x) + Count(pk.diverted, x) <= entered
  }

  lemma EmittedLogged(pk: Packets, ring: nat, n: nat, x: Buf, entered: nat)
    requires ring < |pk.rings| && n <= |pk.rings[ring]| && Logged(pk, x, entered)
    ensures Logged(Emitted(pk, ring, n), x, entered) && Logged(OffEmitted(pk, ring, n), x, entered)
  {
  }

  lemma ReceivedLogged(pk: Packets, w: nat, n: nat, ring: nat, x: Buf, entered: nat)
    requires w < |pk.nic| && n <= |pk.nic[w]| && ring < |pk.rings| && Logged(pk, x, entered)
    ensures Logged(Received(pk, w, n, ring), x, entered)
  {
    TakeNic(pk, w, n, x);
  }

  lemma SplitLogged(pk: Packets, w: nat, n: nat, q: nat, diverts: Buf -> bool, x: Buf, entered: nat)
    requires w < |pk.nic| && n <= |pk.nic[w]| && q < |pk.rings| && Logged(pk, x, entered)
    ensures Logged(Split(pk, w, n, q, diverts), x, entered)
  {
    TakeNic(pk, w, n, x);
    PickCounts(pk.nic[w][..n], diverts, true, x);
    PickCounts(pk.nic[w][..n], diverts, false, x);
  }

  lemma ShardLogged(l: Local, me: nat, cfg: Config, x: Buf, entered: nat)
    requires LocalOk(l, me, cfg) && Logged(l.pk, x, entered)
    ensures Logged(AfterTransferShard(l, me, cfg).pk, x, entered)
  {
    var n := Drainable(|l.pk.nic[me]|, cfg.burst);
    ReceivedLogged(l.pk, me, n, l.wk.myring, x, entered);
    assert AfterTransferShard(l, me, cfg).pk == Drained(Received(l.pk, me, n, l.wk.myring), l.wk.q, l.wk.myring);
  }

  lemma SignalLogged(l: Local, me: nat, cfg: Config, x: Buf, entered: nat)
    requires LocalOk(l, me, cfg) && Logged(l.pk, x, entered)
    ensures Logged(AfterSignal(l, me, cfg).pk, x, entered)
  {
    if l.fl.signal[me] {
      var l1 := IfR(l, me, cfg);
      var l2 := IfOff(l1, me, cfg);
      assert l1.pk == l.pk;
      assert l1.fl.transferOff[me] ==> l2.pk == Drained(l1.pk, l1.wk.q, l1.wk.myring);
      if l2.fl.transferShard[me] {
        ShardLogged(l2, me, cfg, x, entered);
      }
    }
  }

  lemma WorkLogged(l: Local, me: nat, diverts: Buf -> bool, cfg: Config, x: Buf, entered: nat)
    requires LocalOk(l, me, cfg) && (cfg.e == 0 ==> forall y :: !diverts(y)) && Logged(l.pk, x, entered)
    ensures Logged(AfterWork(l, me, diverts, cfg).pk, x, entered)
  {
    if l.wk.myown {
      EmittedLogged(l.pk, l.wk.myring, Min(|l.pk.rings[l.wk.myring]|, cfg.burst), x, entered);
    } else {
      SignalLogged(l, me, cfg, x, entered);
      var l2 := AfterChanges(AfterSignal(l, me, cfg), me, cfg);
      assert l2.pk == AfterSignal(l, me, cfg).pk;
      if !l2.wk.myown {
        SplitLogged(l2.pk, me, Min(|l2.pk.nic[me]|, cfg.burst), l2.wk.q, diverts, x, entered);
      }
    }
  }

  lemma OffloadLogged(l: OffLocal, e: nat, cfg: Config, x: Buf, entered: nat)
    requires OffLocalOk(l, e, cfg) && Logged(l.pk, x, entered)
    ensures Logged(AfterOffload(l, e, cfg).pk, x, entered)
  {
    var served := Served(l.off, l.fl, e);
    if served != [] {
      var ring := served[l.off.count % |served|];
      EmittedLogged(l.pk, ring, Min(|l.pk.rings[ring]|, cfg.burst), x, entered);
    }
  }

  lemma StepLogged(st: State, ev: Event, st': State, cfg: Config, x: Buf)
    requires Inv(st, cfg) && Step(st, ev, st', cfg) && Logged(st.pk, x, st.entered[x])
    ensures Logged(st'.pk, x, st'.entered[x])
  {
    match ev
    case Arrive(w, y) =>
      LoadUpdate(st.pk.nic, w, st.pk.nic[w] + [y], x);
      CountSnoc(st.pk.nic[w], y, x);
    case Work(me, diverts) =>
      assert WorkerOk(st.workers[me], me, st.fl, st.pk, cfg);
      WorkLogged(LocalOf(st, me), me, diverts, cfg, x, st.entered[x]);
    case Offload(e) => OffloadLogged(OffLocal(st.pk, st.fl, st.offs[e]), e, cfg, x, st.entered[x]);
    case Decide(ans) =>
  }

  lemma LoggedNext(states: seq<State>, evs: seq<Event>, i: nat, cfg: Config, x: Buf)
    requires IsRun(states, evs, cfg) && 0 < i <= |evs| && Logged(states[i - 1].pk, x, states[i - 1].entered[x])
    ensures Logged(states[i].pk, x, states[i].entered[x])
  {
    RunStep(states, evs, i - 1, cfg);
    StepLogged(states[i - 1], evs[i - 1], states[i], cfg, x);
  }

  lemma {:induction false} RunLogged(states: seq<State>, evs: seq<Event>, i: nat, cfg: Config, x: Buf)
    requires IsRun(states, evs, cfg) && i <= |evs|
    ensures Logged(states[i].pk, x, states[i].entered[x])
    decreases i
  {
    if i == 0 {
      NothingLoaded(states[0].pk.nic, x);
    } else {
      RunLogged(states, evs, i - 1, cfg, x);
      LoggedNext(states, evs, i, cfg, x);
    }
  }

  /** In every state of every run a packet has met `extract_state` as often as a working core
      has emitted it and as often as it was diverted; neither is more often than it entered. */
  lemma ExtractedExactly(states: seq<State>, evs: seq<Event>, i: nat, cfg: Config, x: Buf)
    requires IsRun(states, evs, cfg) && i <= |evs|
    ensures var pk := states[i].pk;
            && Count(pk.extracted, x) == Count(pk.emitted, x) + Count(pk.diverted, x)
            && Count(pk.emitted, x) <= states[i].entered[x] && Count(pk.diverted, x) <= states[i].entered[x]
  {
    RunLogged(states, evs, i, cfg, x);
    RunInv(states, evs, i, cfg);
    assert Copies(states[i].pk, x) == states[i].entered[x];
  }

  /** A packet that entered once is counted twice exactly if it was diverted and yet emitted by
      a working core; one that is in no queue any more was never counted exactly if it was
      not diverted and was emitted by an offloading core, or refused by a full ring. */
  lemma CountedTwiceIff(states: seq<State>, evs: seq<Event>, i: nat, cfg: Config, x: Buf)
    requires IsRun(states, evs, cfg) && i <= |evs| && states[i].entered[x] == 1
    ensures var pk := states[i].pk;
            && Count(pk.extracted, x) <= 2
            && (Count(pk.extracted, x) == 2 <==> x in pk.diverted && x in pk.emitted)
            && (Load(pk.nic, x) == 0 && Load(pk.rings, x) == 0 ==>
                  (Count(pk.extracted, x) == 0 <==> x !in pk.diverted && (x in pk.offEmitted || x in pk.refused)))
  {
    ExtractedExactly(states, evs, i, cfg, x);
    RunInv(states, evs, i, cfg);
    assert Copies(states[i].pk, x) == states[i].entered[x];
    var pk := states[i].pk;
    assert multiset(pk.offEmitted)[x] != 0 <==> x in pk.offEmitted;
    assert multiset(pk.refused)[x] != 0 <==> x in pk.refused;
  }
}
