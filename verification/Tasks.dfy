/** What the tasks of a working core do, told without the functions that model them: which packets
    leave and in which order, which offloading core is told what, and when the private ring is
    forgotten. */
module Tasks {
  import Cores
  import opened Device
  import opened Handover
  import opened Selection

  /** A run of the task on the private ring emits its first packets, in order, and does nothing
      else. */
  lemma PrivateTask(l: Local, me: nat, diverts: Buf -> bool, cfg: Config)
    requires LocalOk(l, me, cfg) && (cfg.e == 0 ==> forall x :: !diverts(x))
    requires l.wk.myown && l.pk.rings[l.wk.myring] != []
    ensures var l', ring := AfterWork(l, me, diverts, cfg), l.pk.rings[l.wk.myring];
            var n := if |ring| < cfg.burst then |ring| else cfg.burst;
            && l'.fl == l.fl && l'.wk == l.wk
            && l'.pk == l.pk.(rings := l.pk.rings[l.wk.myring := ring[n..]], emitted := l.pk.emitted + ring[..n],
                              extracted := l.pk.extracted + ring[..n])
  {
  }

  /** A run of the task that has no signal to answer receives a burst.  In the order of the receive
      queue, the packets that are not diverted leave and the diverted ones enter the offload
      ring, as far as it has room. */
  lemma QuietTask(l: Local, me: nat, diverts: Buf -> bool, cfg: Config)
    returns (out: seq<Buf>, off: seq<Buf>, kept: seq<nat>, away: seq<nat>)
    requires LocalOk(l, me, cfg) && (cfg.e == 0 ==> forall x :: !diverts(x))
    requires !l.wk.myown && !l.fl.signal[me] && !l.fl.hadChanges[me]
    ensures var n := if |l.pk.nic[me]| < cfg.burst then |l.pk.nic[me]| else cfg.burst;
            var xs := l.pk.nic[me][..n];
            && Places(xs, out, kept) && (forall i: nat :: i < n ==> (i in kept <==> !diverts(xs[i])))
            && Places(xs, off, away) && (forall i: nat :: i < n ==> (i in away <==> diverts(xs[i])))
    ensures var l', nic, ring := AfterWork(l, me, diverts, cfg), l.pk.nic[me], l.pk.rings[l.wk.q];
            var n := if |nic| < cfg.burst then |nic| else cfg.burst;
            var k := if |ring| + |off| <= 4095 then |off| else 4095 - |ring|;
            && 0 <= k <= |off| && l'.fl == l.fl && l'.wk == l.wk
            && l'.pk.nic == l.pk.nic[me := nic[n..]]
            && l'.pk.rings == l.pk.rings[l.wk.q := ring + off[..k]] && l'.pk.refused == l.pk.refused + off[k..]
            && l'.pk.emitted == l.pk.emitted + out && l'.pk.offEmitted == l.pk.offEmitted
            && l'.pk.extracted == l.pk.extracted + nic[..n] && l'.pk.diverted == l.pk.diverted + off
  {
    var n := Min(|l.pk.nic[me]|, cfg.burst);
    var xs := l.pk.nic[me][..n];
    out, off := Pick(xs, diverts, false), Pick(xs, diverts, true);
    kept := PickedInOrder(xs, diverts, false);
    away := PickedInOrder(xs, diverts, true);
    assert AfterChanges(AfterSignal(l, me, cfg), me, cfg) == l;
  }

  /** The first part of `process`: the core forgets its private ring exactly if it was told of
      changes and finds a released shard that is meant for it. */
  lemma ChangesHandled(l: Local, me: nat, cfg: Config)
    requires LocalOk(l, me, cfg)
    ensures var l' := AfterChanges(l, me, cfg);
            && l'.pk == l.pk && !l'.fl.hadChanges[me]
            && l'.fl == l.fl.(hadChanges := l.fl.hadChanges[me := false])
            && l'.wk == l.wk.(myown := l'.wk.myown)
            && (l'.wk.myown <==>
                  l.wk.myown
                  && !(l.fl.hadChanges[me]
                       && exists s :: 0 <= s < |l.fl.shards| && l.fl.shards[s].ownerNew == me && !l.fl.shards[s].pause))
  {
    assert l.fl.hadChanges[me := l.fl.hadChanges[me]] == l.fl.hadChanges;
  }

  /** The list of offloading core `e` has got ring `ring`, if there is such a core and its list is
      not full; no other list has changed. */
  ghost predicate Told(lists: seq<seq<nat>>, lists': seq<seq<nat>>, e: nat, ring: nat) {
    if e < |lists| && |lists[e]| < 4095 then lists' == lists[e := lists[e] + [ring]] else lists' == lists
  }

  /** `transfer_shard` lets its own offloading core drop the offload ring and add it again. */
  lemma ShardTells(l: Local, me: nat, cfg: Config)
    requires LocalOk(l, me, cfg)
    ensures var fl, fl' := l.fl, AfterTransferShard(l, me, cfg).fl;
            Told(fl.toRemove, fl'.toRemove, l.wk.offIdx, l.wk.q) && Told(fl.toAdd, fl'.toAdd, l.wk.offIdx, l.wk.q)
  {
  }

  /** `transfer_offloading` lets the old offloading core drop the ring and the new one, if there is
      one, add it; that one is the core's from then on. */
  lemma OffTells(l: Local, me: nat, cfg: Config)
    requires LocalOk(l, me, cfg)
    ensures var fl, l' := l.fl, AfterTransferOff(l, me, cfg);
            && Told(fl.toRemove, l'.fl.toRemove, l.wk.offIdx, l.wk.q)
            && Told(fl.toAdd, l'.fl.toAdd, fl.newOff[me], l.wk.q)
            && l'.wk.offIdx == (if fl.newOff[me] == NONE then l.wk.offIdx else fl.newOff[me])
            && l'.fl.newOff == fl.newOff[me := NONE]
  {
    assert l.fl.newOff[me] == NONE ==> l.fl.newOff[me := NONE] == l.fl.newOff;
  }

  /** It moves the packets of the offload ring behind those of the private ring, as far as there is
      room, and the private ring is served first if there were any. */
  lemma OffMoves(l: Local, me: nat, cfg: Config)
    requires LocalOk(l, me, cfg)
    ensures var l', ring, xs := AfterTransferOff(l, me, cfg), l.pk.rings[l.wk.myring], l.pk.rings[l.wk.q];
            var k := if |ring| + |xs| <= 4095 then |xs| else 4095 - |ring|;
            && 0 <= k <= |xs|
            && l'.pk == l.pk.(rings := l.pk.rings[l.wk.q := []][l.wk.myring := ring + xs[..k]],
                              refused := l.pk.refused + xs[k..])
            && l'.wk == l.wk.(myown := l.wk.myown || xs != [], offIdx := l'.wk.offIdx)
  {
  }

  /** `transfer_r`, when packets wait in the offload ring: the two rings change places, and the
      offloading core drops the one and adds the other. */
  lemma ExchangeTells(l: Local, me: nat, cfg: Config)
    requires LocalOk(l, me, cfg) && l.pk.rings[l.wk.q] != []
    ensures var fl, l' := l.fl, AfterTransferR(l, me, cfg);
            && Told(fl.toRemove, l'.fl.toRemove, l.wk.offIdx, l.wk.q)
            && Told(fl.toAdd, l'.fl.toAdd, l.wk.offIdx, l.wk.myring)
            && l'.wk.q == l.wk.myring && l'.wk.myring == l.wk.q && l'.wk.myown && l'.wk.offIdx == l.wk.offIdx
            && l'.fl.queues == fl.queues[me := l.wk.myring] && l'.fl.rings == fl.rings[me := l.wk.q]
  {
  }

  /** When none wait, nothing changes but the ratios and the flag. */
  lemma NoExchange(l: Local, me: nat, cfg: Config)
    requires LocalOk(l, me, cfg) && l.pk.rings[l.wk.q] == []
    ensures var fl, l' := l.fl, AfterTransferR(l, me, cfg);
            && l'.pk == l.pk && l'.wk == l.wk
            && l'.fl == fl.(shards := l'.fl.shards, transferR := fl.transferR[me := false])
  {
  }

  /** Before a task: core `me` lets shard `c` go, drained of what it owned. */
  ghost predicate Goes(c: Control, me: nat) {
    c.owner == me && c.ownerNew != NONE
  }

  /** The scan when the private ring has run empty: the core lets its paused shards go and takes
      the free ones that are meant for it, and tells the others of exactly the ones it let go. */
  lemma RanEmpty(l: Local, me: nat, diverts: Buf -> bool, cfg: Config)
    requires LocalOk(l, me, cfg) && (cfg.e == 0 ==> forall x :: !diverts(x))
    requires l.wk.myown && l.pk.rings[l.wk.myring] == []
    ensures var shards, l' := l.fl.shards, AfterWork(l, me, diverts, cfg);
            && l'.pk == l.pk && l'.wk == l.wk.(myown := false)
            && l'.fl == l.fl.(shards := l'.fl.shards, hadChanges := l'.fl.hadChanges)
            && |l'.fl.shards| == |shards| && |l'.fl.hadChanges| == |l.fl.hadChanges|
            && (forall s :: 0 <= s < |shards| ==>
                  var c, c' := shards[s], l'.fl.shards[s];
                  && (c'.pause <==> c.pause && !Goes(c, me))
                  && c'.owner == (if c.ownerNew == me && !c'.pause then me else c.owner)
                  && c'.ownerNew == (if c.ownerNew == me && !c'.pause then NONE else c.ownerNew)
                  && c'.r == c.r && c'.rNew == c.rNew)
            && (forall w :: 0 <= w < cfg.w ==>
                  (l'.fl.hadChanges[w] <==>
                     l.fl.hadChanges[w]
                     || exists s :: 0 <= s < |shards| && Goes(shards[s], me) && shards[s].pause
                                    && shards[s].ownerNew == w))
  {
    forall w | 0 <= w < cfg.w
      ensures Settled(l.fl, me).hadChanges[w] <==>
                l.fl.hadChanges[w]
                || exists s :: 0 <= s < |l.fl.shards| && Goes(l.fl.shards[s], me) && l.fl.shards[s].pause
                               && l.fl.shards[s].ownerNew == w
    {
    }
  }

  /** The end of `transfer_shard`: a core that has nothing of its own left lets its shards go at
      once; otherwise the shards stay as they are until the private ring has run empty. */
  lemma LetGo(l: Local, me: nat, cfg: Config)
    requires LocalOk(l, me, cfg)
    ensures var shards, l' := l.fl.shards, AfterTransferShard(l, me, cfg);
            var idle := !l.wk.myown && l.pk.nic[me] == [] && l.pk.rings[l.wk.q] == [];
            && (l'.wk.myown <==> !idle) && |l'.fl.shards| == |shards| && |l'.fl.hadChanges| == |l.fl.hadChanges|
            && (forall s :: 0 <= s < |shards| ==>
                  l'.fl.shards[s] == if idle && Goes(shards[s], me) then shards[s].(pause := false) else shards[s])
            && (forall w :: 0 <= w < cfg.w ==>
                  (l'.fl.hadChanges[w] <==>
                     l.fl.hadChanges[w]
                     || (idle && exists s :: 0 <= s < |shards| && Goes(shards[s], me) && shards[s].ownerNew == w)))
  {
    var idle := !l.wk.myown && l.pk.nic[me] == [] && l.pk.rings[l.wk.q] == [];
    forall w | 0 <= w < cfg.w
      ensures Released(l.fl, me).hadChanges[w] <==>
                l.fl.hadChanges[w]
                || exists s :: 0 <= s < |l.fl.shards| && Goes(l.fl.shards[s], me) && l.fl.shards[s].ownerNew == w
    {
    }
  }

  lemma RAnswered(l: Local, me: nat, cfg: Config)
    requires LocalOk(l, me, cfg)
    ensures var fl, fl' := l.fl, IfR(l, me, cfg).fl;
            && fl'.transferR == fl.transferR[me := false] && fl'.signal == fl.signal
            && fl'.transferOff == fl.transferOff && fl'.transferShard == fl.transferShard && fl'.newOff == fl.newOff
  {
    assert !l.fl.transferR[me] ==> l.fl.transferR[me := false] == l.fl.transferR;
  }

  lemma OffAnswered(l: Local, me: nat, cfg: Config)
    requires LocalOk(l, me, cfg)
    ensures var fl, fl' := l.fl, IfOff(l, me, cfg).fl;
            && fl'.transferOff == fl.transferOff[me := false] && fl'.signal == fl.signal
            && fl'.transferR == fl.transferR && fl'.transferShard == fl.transferShard
  {
    assert !l.fl.transferOff[me] ==> l.fl.transferOff[me := false] == l.fl.transferOff;
  }

  lemma ShardAnswered(l: Local, me: nat, cfg: Config)
    requires LocalOk(l, me, cfg)
    ensures var fl, fl' := l.fl, IfShard(l, me, cfg).fl;
            && fl'.transferShard == fl.transferShard[me := false] && fl'.signal == fl.signal
            && fl'.transferR == fl.transferR && fl'.transferOff == fl.transferOff
  {
    assert !l.fl.transferShard[me] ==> l.fl.transferShard[me := false] == l.fl.transferShard;
  }

  /** All flags of a signalled core are answered, those of the others are not touched. */
  lemma SignalAnswered(l: Local, me: nat, cfg: Config)
    requires LocalOk(l, me, cfg) && l.fl.signal[me]
    ensures var fl, fl' := l.fl, AfterSignal(l, me, cfg).fl;
            && fl'.signal == fl.signal[me := false] && fl'.transferR == fl.transferR[me := false]
            && fl'.transferOff == fl.transferOff[me := false] && fl'.transferShard == fl.transferShard[me := false]
  {
    RAnswered(l, me, cfg);
    OffAnswered(IfR(l, me, cfg), me, cfg);
    ShardAnswered(IfOff(IfR(l, me, cfg), me, cfg), me, cfg);
  }

  /** The new offloading core is told to add the offload ring, and told again if shards are to be
      let go. */
  lemma SwitchThenShard(l: Local, me: nat, cfg: Config)
    requires LocalOk(l, me, cfg) && l.fl.transferOff[me]
    requires l.fl.newOff[me] != NONE && |l.fl.toAdd[l.fl.newOff[me]]| + 2 <= 4095
    ensures var e, l' := l.fl.newOff[me], IfShard(IfOff(l, me, cfg), me, cfg);
            l'.fl.toAdd[e] == l.fl.toAdd[e] + if l.fl.transferShard[me] then [l.wk.q, l.wk.q] else [l.wk.q]
  {
    var e, l2 := l.fl.newOff[me], IfOff(l, me, cfg);
    OffTells(l, me, cfg);
    assert l2.fl.toAdd[e] == l.fl.toAdd[e] + [l.wk.q];
    ShardTells(l2, me, cfg);
    OffAnswered(l, me, cfg);
  }

  /** The ratios are taken before the offloading core is changed: the new one is told of the ring
      that was private till then. */
  lemma SwitchAfterExchange(l: Local, me: nat, cfg: Config)
    requires LocalOk(l, me, cfg) && l.fl.signal[me] && l.fl.transferR[me] && l.fl.transferOff[me]
    requires l.pk.rings[l.wk.q] != [] && l.fl.newOff[me] != NONE && l.fl.newOff[me] != l.wk.offIdx
    requires |l.fl.toAdd[l.fl.newOff[me]]| + 2 <= 4095
    ensures var e, ring := l.fl.newOff[me], l.wk.myring;
            AfterSignal(l, me, cfg).fl.toAdd[e] ==
            l.fl.toAdd[e] + if l.fl.transferShard[me] then [ring, ring] else [ring]
  {
    RAnswered(l, me, cfg);
    ExchangeTells(l, me, cfg);
    SwitchThenShard(IfR(l, me, cfg), me, cfg);
  }

  /** One run of the task of an offloading core.  The rings it was told to drop go, the others
      stay in their order, and the rings it was told to add come last. */
  lemma OffloadTask(l: OffLocal, e: nat, cfg: Config) returns (left: seq<nat>, at: seq<nat>)
    requires OffLocalOk(l, e, cfg)
    ensures Places(l.off.served, left, at)
    ensures forall i: nat :: i < |l.off.served| ==> (i in at <==> l.off.served[i] !in l.fl.toRemove[e])
    ensures var l' := AfterOffload(l, e, cfg);
            && l'.off.served == left + l.fl.toAdd[e]
            && l'.fl == l.fl.(toRemove := l.fl.toRemove[e := []], toAdd := l.fl.toAdd[e := []])
  {
    left := WithoutAll(l.off.served, l.fl.toRemove[e]);
    at := LeftOfAll(l.off.served, l.fl.toRemove[e]);
  }

  /** It polls the ring at its counter, modulo their number, and the counter wraps. */
  lemma Polled(l: OffLocal, e: nat, cfg: Config)
    requires OffLocalOk(l, e, cfg)
    ensures var l' := AfterOffload(l, e, cfg);
            && (l'.off.served == [] ==> l'.pk == l.pk && l'.off.count == l.off.count)
            && (l'.off.served != [] ==>
                  var ring := l'.off.served[l.off.count % |l'.off.served|];
                  ring < |l.pk.rings|
                  && var n := if |l.pk.rings[ring]| < cfg.burst then |l.pk.rings[ring]| else cfg.burst;
                     && l'.off.count == (l.off.count + 1) % 0x1_0000_0000
                     && l'.pk == l.pk.(rings := l.pk.rings[ring := l.pk.rings[ring][n..]],
                                       offEmitted := l.pk.offEmitted + l.pk.rings[ring][..n]))
  {
    assert AfterOffload(l, e, cfg).off.served == Served(l.off, l.fl, e);
  }

  lemma {:induction false} LeftOfAll(served: seq<nat>, gone: seq<nat>) returns (at: seq<nat>)
    ensures Places(served, WithoutAll(served, gone), at)
    ensures forall i: nat :: i < |served| ==> (i in at <==> served[i] !in gone)
  {
    if gone == [] {
      at := seq(|served|, i requires 0 <= i < |served| => i);
      assert forall i: nat :: i < |served| ==> at[i] == i;
    } else {
      var init, last := gone[..|gone| - 1], gone[|gone| - 1];
      assert gone == init + [last];
      var mid := WithoutAll(served, init);
      var first := LeftOfAll(served, init);
      var next := Cores.LeftInOrder(mid, last);
      at := PlacesOfPlaces(served, mid, Without(mid, last), first, next);
      forall i: nat | i < |served| ensures i in at <==> i in first && served[i] != last {
        if i in first {
          var j: nat :| j < |first| && first[j] == i;
          assert j in next <==> served[i] != last;
          if j in next {
            var k: nat :| k < |next| && next[k] == j;
            assert at[k] == i;
          }
        }
      }
    }
  }
}
