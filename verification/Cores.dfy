/** The tasks as the elements run them: objects whose methods update shared arrays, rings
    and their own fields in place.  Every method is tied to the function of module
    Handover that says what the task does. */
module Cores {
  import opened Cyclic
  import opened Machine
  import opened Device
  import opened Handover
  import opened Selection

  /** The static arrays of DyssectController that the cores read and write. */
  class Shared {
    var shards: seq<Control>
    var hadChanges: seq<bool>
    var transferR: seq<bool>
    var transferShard: seq<bool>
    var transferOff: seq<bool>
    var signal: seq<bool>
    var newOff: seq<nat>
    var queues: seq<nat>
    var rings: seq<nat>
    var toAdd: seq<seq<nat>>
    var toRemove: seq<seq<nat>>

    function Value(): Flags
      reads this
    {
      Flags(shards, hadChanges, transferR, transferShard, transferOff, signal, newOff, queues, rings, toAdd, toRemove)
    }

    /** The scan for shards to release, with or without the test of `pause`; taking the
        shards meant for this core is part of the scan in `run_task`. */
    method Settle(me: nat)
      requires forall s :: 0 <= s < |shards| ==> shards[s].ownerNew < |hadChanges| || shards[s].ownerNew == NONE
      modifies this`shards, this`hadChanges
      ensures Value() == Settled(old(Value()), me)
    {
      ghost var before := shards;
      for s := 0 to |shards|
        invariant |shards| == |before| && |hadChanges| == |old(hadChanges)|
        invariant forall i :: 0 <= i < s ==> shards[i] == Taken(Cleared(before[i], me, true), me)
        invariant forall i :: s <= i < |before| ==> shards[i] == before[i]
        invariant hadChanges == Raised(old(hadChanges), before, s, me, true)
      {
        if shards[s].pause && shards[s].owner == me && shards[s].ownerNew != NONE {
          shards := shards[s := shards[s].(pause := false)];
          hadChanges := hadChanges[shards[s].ownerNew := true];
        }
        if !shards[s].pause && shards[s].ownerNew == me {
          shards := shards[s := shards[s].(ownerNew := NONE, owner := me)];
        }
      }
    }

    method ReleaseAll(me: nat)
      requires forall s :: 0 <= s < |shards| ==> shards[s].ownerNew < |hadChanges| || shards[s].ownerNew == NONE
      modifies this`shards, this`hadChanges
      ensures Value() == Released(old(Value()), me)
    {
      ghost var before := shards;
      for s := 0 to |shards|
        invariant |shards| == |before| && |hadChanges| == |old(hadChanges)|
        invariant forall i :: 0 <= i < s ==> shards[i] == Cleared(before[i], me, false)
        invariant forall i :: s <= i < |before| ==> shards[i] == before[i]
        invariant hadChanges == Raised(old(hadChanges), before, s, me, false)
      {
        if shards[s].owner == me && shards[s].ownerNew != NONE {
          shards := shards[s := shards[s].(pause := false)];
          hadChanges := hadChanges[shards[s].ownerNew := true];
        }
      }
    }

    method TakeRatios(me: nat)
      modifies this`shards
      ensures shards == RatiosTaken(old(shards), me)
    {
      ghost var before := shards;
      for s := 0 to |shards|
        invariant |shards| == |before|
        invariant forall i :: 0 <= i < |before| ==> shards[i] == if i < s then RatiosTaken(before, me)[i] else before[i]
      {
        if shards[s].owner == me {
          shards := shards[s := shards[s].(r := shards[s].rNew)];
        }
      }
    }

    /** The scan of `process` after a change of owners. */
    method FindAwaited(me: nat) returns (found: bool)
      ensures found == Awaited(shards, me)
    {
      found := false;
      for s := 0 to |shards|
        invariant found <==> exists i :: 0 <= i < s && shards[i].ownerNew == me && !shards[i].pause
      {
        if shards[s].ownerNew == me && !shards[s].pause {
          found := true;
        }
      }
    }
  }

  /** DyssectWorkingCore. */
  class WorkingCore {
    const id: nat
    const burst: nat
    const fabric: Fabric
    const shared: Shared
    var q: nat
    var myring: nat
    var myown: bool
    var offIdx: nat

    constructor (id: nat, burst: nat, fabric: Fabric, shared: Shared, offIdx: nat)
      requires id < |shared.queues| && id < |shared.rings|
      ensures this.id == id && this.burst == burst && this.fabric == fabric && this.shared == shared
      ensures Core() == Worker(shared.queues[id], shared.rings[id], false, offIdx)
    {
      this.id, this.burst, this.fabric, this.shared := id, burst, fabric, shared;
      q, myring, myown, this.offIdx := shared.queues[id], shared.rings[id], false, offIdx;
    }

    function Core(): Worker
      reads this
    {
      Worker(q, myring, myown, offIdx)
    }

    ghost function View(): Local
      reads this, fabric, shared
    {
      Local(fabric.Value(), shared.Value(), Core())
    }

    ghost predicate Valid(cfg: Config)
      reads this, fabric, shared
    {
      burst == cfg.burst && LocalOk(View(), id, cfg)
    }

    /** Exchange the offload ring and the private ring, and tell the offloading core. */
    method ExchangeRings()
      requires id < |shared.queues| && id < |shared.rings| && offIdx < |shared.toRemove| && offIdx < |shared.toAdd|
      modifies this`q, this`myring, this`myown, shared`queues, shared`rings, shared`toAdd, shared`toRemove
      ensures Core() == Worker(old(myring), old(q), true, offIdx)
      ensures shared.Value() == old(shared.Value()).(
                queues := old(shared.queues)[id := old(myring)], rings := old(shared.rings)[id := old(q)],
                toRemove := Push(old(shared.toRemove), offIdx, old(q)),
                toAdd := Push(old(shared.toAdd), offIdx, old(myring)))
    {
      shared.toRemove := Push(shared.toRemove, offIdx, q);
      myown := true;
      var aux := q;
      q := myring;
      shared.queues := shared.queues[id := myring];
      myring := aux;
      shared.rings := shared.rings[id := aux];
      shared.toAdd := Push(shared.toAdd, offIdx, q);
    }

    method TransferR(ghost cfg: Config)
      requires Valid(cfg)
      modifies this`q, this`myring, this`myown
      modifies shared`queues, shared`rings, shared`toAdd, shared`toRemove, shared`shards, shared`transferR
      ensures View() == AfterTransferR(old(View()), id, cfg) && Valid(cfg)
    {
      if |fabric.rings[q]| != 0 {
        ExchangeRings();
      }
      shared.TakeRatios(id);
      shared.transferR := shared.transferR[id := false];
    }

    /** Tell the offloading core to stop polling the offload ring. */
    method Unlink()
      requires offIdx < |shared.toRemove| || offIdx == NONE
      modifies shared`toRemove
      ensures shared.Value() == Unlinked(old(shared.Value()), Core())
    {
      if offIdx != NONE {
        shared.toRemove := Push(shared.toRemove, offIdx, q);
      }
    }

    method DrainOffloadRing()
      requires q < |fabric.rings| && myring < |fabric.rings| && q != myring && 0 < burst
      modifies this`myown, fabric`rings, fabric`refused
      ensures fabric.Value() == Drained(old(fabric.Value()), q, myring)
      ensures Core() == old(Core()).(myown := old(myown) || |old(fabric.rings)[q]| != 0)
    {
      if |fabric.rings[q]| != 0 {
        myown := true;
      }
      fabric.Drain(q, myring, burst);
    }

    /** Switch to the new offloading core, if there is one. */
    method Relink()
      requires id < |shared.newOff| && (shared.newOff[id] < |shared.toAdd| || shared.newOff[id] == NONE)
      modifies this`offIdx, shared`toAdd, shared`newOff
      ensures shared.Value() == LinkedAnew(old(shared.Value()), old(Core()), id)
      ensures Core() ==
              old(Core()).(offIdx := if old(shared.newOff)[id] != NONE then old(shared.newOff)[id] else old(offIdx))
    {
      var off := shared.newOff[id];
      if off != NONE {
        shared.toAdd := Push(shared.toAdd, off, q);
        offIdx := off;
        shared.newOff := shared.newOff[id := NONE];
      }
    }

    /** `transfer_offloading`, part by part. */
    method SwitchOffloading()
      requires Bounded(View(), id, burst)
      modifies this`myown, this`offIdx, fabric`rings, fabric`refused
      modifies shared`toAdd, shared`toRemove, shared`newOff, shared`transferOff
      ensures fabric.Value() == Drained(old(fabric.Value()), q, myring)
      ensures var fl := LinkedAnew(Unlinked(old(shared.Value()), old(Core())), old(Core()), id);
              shared.Value() == fl.(transferOff := fl.transferOff[id := false])
      ensures var off := old(shared.newOff)[id];
              Core() == old(Core()).(myown := old(myown) || |old(fabric.rings)[q]| != 0,
                                     offIdx := if off != NONE then off else old(offIdx))
    {
      Unlink();
      DrainOffloadRing();
      Relink();
      shared.transferOff := shared.transferOff[id := false];
    }

    method TransferOffloading(ghost cfg: Config)
      requires Valid(cfg)
      modifies this`myown, this`offIdx, fabric`rings, fabric`refused
      modifies shared`toAdd, shared`toRemove, shared`newOff, shared`transferOff
      ensures View() == AfterTransferOff(old(View()), id, cfg) && Valid(cfg)
    {
      OkIsBounded(View(), id, cfg);
      SwitchOffloading();
      assert View() == AfterTransferOff(old(View()), id, cfg);
    }

    /** One burst of the loop below. */
    method ReceiveBurst() returns (n: nat)
      requires id < |fabric.nic| && myring < |fabric.rings|
      modifies fabric`nic, fabric`rings, fabric`refused
      ensures n == Min(burst, |old(fabric.nic)[id]|)
      ensures fabric.Value() == Received(old(fabric.Value()), id, n, myring)
    {
      var xs := fabric.RxBurst(id, burst);
      fabric.EnqueueBurst(myring, xs);
      n := |xs|;
    }

    /** One turn of the loop. */
    method DrainTurn(count: nat, ghost before: Packets, ghost k: nat) returns (left: nat, cnt: nat)
      requires burst < TWO32 && id < |before.nic| && myring < |before.rings| && 0 < count
      requires LoopAt(before, id, burst, myring, k) == DrainState(fabric.Value(), count)
      modifies fabric`nic, fabric`rings, fabric`refused
      ensures LoopAt(before, id, burst, myring, k + 1) == DrainState(fabric.Value(), left)
      ensures id < |fabric.nic| == |old(fabric.nic)| && cnt == Min(burst, |old(fabric.nic)[id]|)
      ensures |fabric.nic[id]| == |old(fabric.nic)[id]| - cnt
    {
      cnt := ReceiveBurst();
      left := Lowered(count, cnt);
    }

    /** The loop of `transfer_shard` that empties the receive queue, with its 32-bit counter. */
    method DrainNic()
      requires 0 < burst < TWO32 && id < |fabric.nic| && myring < |fabric.rings| && |fabric.nic[id]| <= NIC_LIMIT
      modifies this`myown, fabric`nic, fabric`rings, fabric`refused
      ensures fabric.Value() == Received(old(fabric.Value()), id, Drainable(|old(fabric.nic)[id]|, burst), myring)
      ensures Core() == old(Core()).(myown := old(myown) || |old(fabric.nic)[id]| != 0)
      ensures fabric.nic[id] ==
              if 256 < |old(fabric.nic)[id]| && 256 % burst == 0 then old(fabric.nic)[id][256..] else []
    {
      ghost var before := fabric.Value();
      ghost var k: nat := 0;
      ghost var own := myown;
      var count := Min(|fabric.nic[id]|, QSIZE);
      while count > 0
        invariant LoopAt(before, id, burst, myring, k) == DrainState(fabric.Value(), count)
        invariant 0 < k ==> |before.nic[id]| != 0
        invariant myown == (own || 0 < k)
        decreases |fabric.nic[id]|
      {
        myown := true;
        var cnt;
        count, cnt := DrainTurn(count, before, k);
        k := k + 1;
        if cnt == 0 {
          break;
        }
      }
      LoopEnds(before, id, burst, myring, k);
    }

    /** Tell the offloading core to poll the offload ring again. */
    method Link()
      requires offIdx < |shared.toAdd| || offIdx == NONE
      modifies shared`toAdd
      ensures shared.Value() == Linked(old(shared.Value()), Core())
    {
      if offIdx != NONE {
        shared.toAdd := Push(shared.toAdd, offIdx, q);
      }
    }

    /** `transfer_shard`, part by part. */
    method DrainAndRelease()
      requires Bounded(View(), id, burst)
      modifies this`myown, fabric`nic, fabric`rings, fabric`refused
      modifies shared`toAdd, shared`toRemove, shared`shards, shared`hadChanges, shared`transferShard
      ensures fabric.Value() ==
              Drained(Received(old(fabric.Value()), id, Drainable(|old(fabric.nic)[id]|, burst), myring), q, myring)
      ensures Core() == old(Core()).(myown := old(myown) || |old(fabric.nic)[id]| != 0 || |old(fabric.rings)[q]| != 0)
      ensures var fl := Linked(Unlinked(old(shared.Value()), old(Core())), old(Core()));
              var fl' := if myown then fl else Released(fl, id);
              shared.Value() == fl'.(transferShard := fl'.transferShard[id := false])
    {
      Unlink();
      DrainNic();
      DrainOffloadRing();
      Link();
      if !myown {
        shared.ReleaseAll(id);
      }
      shared.transferShard := shared.transferShard[id := false];
    }

    method TransferShard(ghost cfg: Config)
      requires Valid(cfg)
      modifies this`myown, fabric`nic, fabric`rings, fabric`refused
      modifies shared`toAdd, shared`toRemove, shared`shards, shared`hadChanges, shared`transferShard
      ensures View() == AfterTransferShard(old(View()), id, cfg) && Valid(cfg)
    {
      OkIsBounded(View(), id, cfg);
      DrainAndRelease();
      assert View() == AfterTransferShard(old(View()), id, cfg);
    }

    method IfTransferR(ghost cfg: Config)
      requires Valid(cfg)
      modifies this`q, this`myring, this`myown
      modifies shared`queues, shared`rings, shared`toAdd, shared`toRemove, shared`shards, shared`transferR
      ensures View() == IfR(old(View()), id, cfg) && Valid(cfg)
    {
      if shared.transferR[id] {
        TransferR(cfg);
      }
    }

    method IfTransferOffloading(ghost cfg: Config)
      requires Valid(cfg)
      modifies this`myown, this`offIdx, fabric`rings, fabric`refused
      modifies shared`toAdd, shared`toRemove, shared`newOff, shared`transferOff
      ensures View() == IfOff(old(View()), id, cfg) && Valid(cfg)
    {
      if shared.transferOff[id] {
        TransferOffloading(cfg);
      }
    }

    method IfTransferShard(ghost cfg: Config)
      requires Valid(cfg)
      modifies this`myown, fabric`nic, fabric`rings, fabric`refused
      modifies shared`toAdd, shared`toRemove, shared`shards, shared`hadChanges, shared`transferShard
      ensures View() == IfShard(old(View()), id, cfg) && Valid(cfg)
    {
      if shared.transferShard[id] {
        TransferShard(cfg);
      }
    }

    method ClearSignal(ghost cfg: Config)
      requires Valid(cfg)
      modifies shared`signal
      ensures View() == SignalCleared(old(View()), id, cfg) && Valid(cfg)
    {
      shared.signal := shared.signal[id := false];
    }

    /** The signalled part of `run_task`. */
    method HandleSignal(ghost cfg: Config)
      requires Valid(cfg)
      modifies this, fabric`nic, fabric`rings, fabric`refused, shared
      ensures View() == AfterSignal(old(View()), id, cfg) && Valid(cfg)
    {
      if shared.signal[id] {
        IfTransferR(cfg);
        IfTransferOffloading(cfg);
        IfTransferShard(cfg);
        ClearSignal(cfg);
      }
    }

    /** The first part of `process`. */
    method HandleChanges(ghost cfg: Config)
      requires Valid(cfg)
      modifies this`myown, shared`hadChanges
      ensures View() == AfterChanges(old(View()), id, cfg) && Valid(cfg)
    {
      if shared.hadChanges[id] {
        var found := shared.FindAwaited(id);
        if found {
          myown := false;
        }
        shared.hadChanges := shared.hadChanges[id := false];
      }
    }

    /** Classify a batch: what is diverted is collected, the rest leaves. */
    method Classify(xs: seq<Buf>, diverts: Buf -> bool) returns (off: seq<Buf>)
      modifies fabric`emitted, fabric`extracted, fabric`diverted
      ensures off == Pick(xs, diverts, true) && fabric.extracted == old(fabric.extracted) + xs
      ensures fabric.diverted == old(fabric.diverted) + off
      ensures fabric.emitted == old(fabric.emitted) + Pick(xs, diverts, false)
    {
      off := [];
      var out := [];
      for i := 0 to |xs|
        invariant off == Pick(xs[..i], diverts, true) && out == Pick(xs[..i], diverts, false)
      {
        assert xs[..i + 1][..i] == xs[..i];
        if diverts(xs[i]) {
          off := off + [xs[i]];
        } else {
          out := out + [xs[i]];
        }
      }
      assert xs[..|xs|] == xs;
      fabric.ExtractAll(xs);
      fabric.DivertAll(off);
      fabric.Emit(out);
    }

    /** Receive, classify, and queue for offloading.  In the order of the receive queue: the
        packets that are not diverted leave, the diverted ones enter the offload ring, as
        far as it has room. */
    method ProcessBatch(diverts: Buf -> bool)
      returns (ghost out: seq<Buf>, ghost off: seq<Buf>, ghost kept: seq<nat>, ghost away: seq<nat>)
      requires id < |fabric.nic| && q < |fabric.rings|
      modifies fabric`nic, fabric`rings, fabric`refused, fabric`emitted, fabric`extracted, fabric`diverted
      ensures fabric.Value() == Split(old(fabric.Value()), id, Min(|old(fabric.nic)[id]|, burst), q, diverts)
      ensures var n := if |old(fabric.nic)[id]| < burst then |old(fabric.nic)[id]| else burst;
              var xs := old(fabric.nic)[id][..n];
              && fabric.nic[id] == old(fabric.nic)[id][n..] && fabric.extracted == old(fabric.extracted) + xs
              && Places(xs, out, kept) && (forall i: nat :: i < n ==> (i in kept <==> !diverts(xs[i])))
              && Places(xs, off, away) && (forall i: nat :: i < n ==> (i in away <==> diverts(xs[i])))
      ensures fabric.emitted == old(fabric.emitted) + out && fabric.diverted == old(fabric.diverted) + off
      ensures var ring := old(fabric.rings)[q];
              var k := if |ring| + |off| <= 4095 then |off| else if |ring| <= 4095 then 4095 - |ring| else 0;
              && fabric.rings == old(fabric.rings)[q := ring + off[..k]]
              && fabric.refused == old(fabric.refused) + off[k..]
    {
      var xs := fabric.RxBurst(id, burst);
      var put := Classify(xs, diverts);
      fabric.EnqueueBurst(q, put);
      out, off := Pick(xs, diverts, false), put;
      kept := PickedInOrder(xs, diverts, false);
      away := PickedInOrder(xs, diverts, true);
    }

    /** A turn on the private ring. */
    method EmitPrivate()
      requires myring < |fabric.rings|
      modifies fabric`rings, fabric`emitted, fabric`extracted
      ensures fabric.Value() == Emitted(old(fabric.Value()), myring, Min(|old(fabric.rings)[myring]|, burst))
      ensures var n := if |old(fabric.rings)[myring]| < burst then |old(fabric.rings)[myring]| else burst;
              && fabric.emitted == old(fabric.emitted) + old(fabric.rings)[myring][..n]
              && fabric.extracted == old(fabric.extracted) + old(fabric.rings)[myring][..n]
              && fabric.rings[myring] == old(fabric.rings)[myring][n..]
    {
      var xs := fabric.DequeueBurst(myring, burst);
      fabric.ExtractAll(xs);
      fabric.Emit(xs);
    }

    /** `DyssectWorkingCore::run_task`. */
    method RunTask(diverts: Buf -> bool, ghost cfg: Config)
      requires Valid(cfg) && (cfg.e == 0 ==> forall x :: !diverts(x))
      modifies this, fabric, shared
      ensures View() == AfterWork(old(View()), id, diverts, cfg) && Valid(cfg)
    {
      if myown {
        OkIsBounded(View(), id, cfg);
        if |fabric.rings[myring]| == 0 {
          myown := false;
          shared.Settle(id);
        } else {
          EmitPrivate();
        }
      } else {
        HandleSignal(cfg);
        HandleChanges(cfg);
        if !myown {
          ghost var out, off, kept, away := ProcessBatch(diverts);
        }
      }
    }
  }

  /** DyssectOffloadingCore. */
  class OffloadingCore {
    const idx: nat
    const burst: nat
    const fabric: Fabric
    const shared: Shared
    var served: seq<nat>
    var count: nat

    constructor (idx: nat, burst: nat, fabric: Fabric, shared: Shared)
      ensures this.idx == idx && this.burst == burst && this.fabric == fabric && this.shared == shared
      ensures Core() == Offloader([], 0)
    {
      this.idx, this.burst, this.fabric, this.shared := idx, burst, fabric, shared;
      served, count := [], 0;
    }

    function Core(): Offloader
      reads this
    {
      Offloader(served, count)
    }

    ghost function View(): OffLocal
      reads this, fabric, shared
    {
      OffLocal(fabric.Value(), shared.Value(), Core())
    }

    /** Erase every occurrence of a ring, keeping the order of the others. */
    method Remove(ring: nat) returns (ghost at: seq<nat>)
      modifies this`served
      ensures served == Without(old(served), ring)
      ensures Places(old(served), served, at)
      ensures forall i: nat :: i < |old(served)| ==> (i in at <==> old(served)[i] != ring)
    {
      at := LeftInOrder(served, ring);
      var all := served;
      served := [];
      for i := 0 to |all|
        invariant served == Without(all[..i], ring)
      {
        assert all[..i + 1][..i] == all[..i];
        if all[i] != ring {
          served := served + [all[i]];
        }
      }
      assert all[..|all|] == all;
    }

    /** Read the list of rings to drop. */
    method ReadRemovals()
      requires idx < |shared.toRemove|
      modifies this`served, shared`toRemove
      ensures served == WithoutAll(old(served), old(shared.toRemove)[idx])
      ensures shared.toRemove == old(shared.toRemove)[idx := []]
    {
      ghost var gone := shared.toRemove[idx];
      ghost var done: nat := 0;
      while |shared.toRemove[idx]| != 0
        invariant done <= |gone| && |shared.toRemove| == |old(shared.toRemove)|
        invariant shared.toRemove == old(shared.toRemove)[idx := gone[done..]]
        invariant served == WithoutAll(old(served), gone[..done])
        decreases |shared.toRemove[idx]|
      {
        var ring := shared.toRemove[idx][0];
        shared.toRemove := shared.toRemove[idx := shared.toRemove[idx][1..]];
        ghost var at := Remove(ring);
        assert gone[..done + 1][..done] == gone[..done] && gone[done..][1..] == gone[done + 1..];
        done := done + 1;
      }
      assert gone[..|gone|] == gone && gone[|gone|..] == [];
    }

    /** Read the list of rings to add. */
    method ReadAdditions()
      requires idx < |shared.toAdd|
      modifies this`served, shared`toAdd
      ensures served == old(served) + old(shared.toAdd)[idx]
      ensures shared.toAdd == old(shared.toAdd)[idx := []]
    {
      ghost var more := shared.toAdd[idx];
      ghost var done: nat := 0;
      while |shared.toAdd[idx]| != 0
        invariant done <= |more| && |shared.toAdd| == |old(shared.toAdd)|
        invariant shared.toAdd == old(shared.toAdd)[idx := more[done..]]
        invariant served == old(served) + more[..done]
        decreases |shared.toAdd[idx]|
      {
        served := served + [shared.toAdd[idx][0]];
        shared.toAdd := shared.toAdd[idx := shared.toAdd[idx][1..]];
        assert more[..done + 1] == more[..done] + [more[done]] && more[done..][1..] == more[done + 1..];
        done := done + 1;
      }
      assert more[..|more|] == more && more[|more|..] == [];
    }

    /** `choose`: round robin over the rings served. */
    method Choose() returns (ring: nat)
      requires served != [] && count < TWO32
      modifies this`count
      ensures ring == served[old(count) % |served|] && count == (old(count) + 1) % TWO32
    {
      ring := served[count % |served|];
      count := (count + 1) % TWO32;
    }

    method Poll()
      requires served != [] && count < TWO32 && forall k :: 0 <= k < |served| ==> served[k] < |fabric.rings|
      modifies this`count, fabric`rings, fabric`offEmitted
      ensures count == (old(count) + 1) % TWO32
      ensures var ring := served[old(count) % |served|];
              fabric.Value() == OffEmitted(old(fabric.Value()), ring, Min(|old(fabric.rings)[ring]|, burst))
      ensures var ring := served[old(count) % |served|];
              var n := if |old(fabric.rings)[ring]| < burst then |old(fabric.rings)[ring]| else burst;
              && fabric.offEmitted == old(fabric.offEmitted) + old(fabric.rings)[ring][..n]
              && fabric.rings == old(fabric.rings)[ring := old(fabric.rings)[ring][n..]]
    {
      var ring := Choose();
      var xs := fabric.DequeueBurst(ring, burst);
      fabric.OffEmit(xs);
    }

    /** `DyssectOffloadingCore::run_task`. */
    method RunTask(ghost cfg: Config)
      requires OffLocalOk(View(), idx, cfg) && burst == cfg.burst
      modifies this, fabric`rings, fabric`offEmitted, shared`toAdd, shared`toRemove
      ensures View() == AfterOffload(old(View()), idx, cfg)
    {
      ghost var l := View();
      ReadRemovals();
      ReadAdditions();
      assert served == Served(l.off, l.fl, idx);
      if served != [] {
        Poll();
      }
    }
  }

  /** The drain loop: where the packets are, and its counter. */
  datatype DrainState = DrainState(pk: Packets, count: nat)

  function Turned(st: DrainState, w: nat, burst: nat, ring: nat): (st': DrainState)
    requires burst < TWO32 && w < |st.pk.nic| && ring < |st.pk.rings| && st.count < TWO32
    ensures st'.count < TWO32 && w < |st'.pk.nic| && ring < |st'.pk.rings|
  {
    var cnt := Min(burst, |st.pk.nic[w]|);
    DrainState(Received(st.pk, w, cnt, ring), Lowered(st.count, cnt))
  }

  function LoopAt(pk: Packets, w: nat, burst: nat, ring: nat, k: nat): (st: DrainState)
    requires burst < TWO32 && w < |pk.nic| && ring < |pk.rings|
    ensures st.count < TWO32 && w < |st.pk.nic| && ring < |st.pk.rings|
  {
    if k == 0 then DrainState(pk, Min(|pk.nic[w]|, QSIZE))
    else
      var st := LoopAt(pk, w, burst, ring, k - 1);
      if st.count == 0 then st else Turned(st, w, burst, ring)
  }

  /** Subtraction on a uint32_t. */
  function Lowered(count: nat, k: nat): (c: nat)
    requires count < TWO32 && k < TWO32
    ensures c < TWO32
  {
    if k <= count then count - k else count + TWO32 - k
  }

  lemma LoweredCount(n: nat, done: nat, k: nat)
    requires done + k <= n <= NIC_LIMIT
    ensures Lowered(CountLeft(n, done), k) == CountLeft(n, done + k)
  {
  }

  /** The indices that the tasks use are in range. */
  ghost predicate Bounded(l: Local, me: nat, burst: nat) {
    && 0 < burst < TWO32 && me < |l.pk.nic| && |l.pk.nic[me]| <= NIC_LIMIT
    && l.wk.q < |l.pk.rings| && l.wk.myring < |l.pk.rings| && l.wk.q != l.wk.myring
    && me < |l.fl.newOff| && me < |l.fl.queues| && me < |l.fl.rings|
    && me < |l.fl.transferR| && me < |l.fl.transferOff| && me < |l.fl.transferShard|
    && (l.wk.offIdx == NONE || (l.wk.offIdx < |l.fl.toRemove| && l.wk.offIdx < |l.fl.toAdd|))
    && (l.fl.newOff[me] == NONE || l.fl.newOff[me] < |l.fl.toAdd|)
    && (l.pk.rings[l.wk.q] != [] ==> l.wk.offIdx != NONE)
    && (forall s :: 0 <= s < |l.fl.shards| ==>
          l.fl.shards[s].ownerNew == NONE || l.fl.shards[s].ownerNew < |l.fl.hadChanges|)
  }

  lemma OkIsBounded(l: Local, me: nat, cfg: Config)
    requires LocalOk(l, me, cfg)
    ensures Bounded(l, me, cfg.burst)
  {
  }

  /** The counter of the drain loop after `done` packets, modulo 2^32. */
  function CountLeft(n: nat, done: nat): nat
    requires done <= n <= NIC_LIMIT
  {
    Lowered(Min(n, QSIZE), done)
  }

  /** Every burst but the last was full; if bursts fill 256 packets exactly, the loop does not
      run past them. */
  ghost predicate Progress(n: nat, burst: nat, done: nat, bursts: nat) {
    && 0 < burst
    && (done == n || done == Steps(burst, bursts))
    && (QSIZE % burst == 0 ==> done <= Min(n, QSIZE))
  }

  lemma ReceivedMore(pk: Packets, w: nat, done: nat, k: nat, ring: nat)
    requires w < |pk.nic| && ring < |pk.rings| && done + k <= |pk.nic[w]|
    ensures var pk1 := Received(pk, w, done, ring);
            && pk1.nic[w] == pk.nic[w][done..]
            && Received(pk1, w, k, ring) == Received(pk, w, done + k, ring)
  {
    var xs := pk.nic[w];
    assert xs[done..][k..] == xs[done + k..] && xs[done..][..k] == xs[done..done + k];
    assert xs[..done] + xs[done..done + k] == xs[..done + k];
    var base := pk.(nic := pk.nic[w := xs[done + k..]]);
    assert pk.nic[w := xs[done..]][w := xs[done + k..]] == base.nic;
    PutPut(base, ring, xs[..done], xs[done..done + k]);
  }

  lemma StepsGrow(n: nat, q: nat, q': nat)
    requires q < q'
    ensures Steps(n, q) + n <= Steps(n, q')
  {
    StepsIsProduct(n, q);
    StepsIsProduct(n, q');
    MulGrows(n, q, q');
  }

  lemma CountMeans(n: nat, done: nat)
    requires done <= n <= NIC_LIMIT
    ensures CountLeft(n, done) == 0 <==> done == Min(n, QSIZE)
  {
  }

  /** Bursts that divide 256 do not step over it. */
  lemma NoStepOver(burst: nat, bursts: nat)
    requires 0 < burst && QSIZE % burst == 0 && Steps(burst, bursts) < QSIZE
    ensures Steps(burst, bursts) + burst <= QSIZE
  {
    var full := QSIZE / burst;
    DivMod(QSIZE, burst);
    StepsIsProduct(burst, full);
    if full <= bursts {
      if full < bursts {
        StepsGrow(burst, full, bursts);
      }
      assert false;
    }
    StepsGrow(burst, bursts, full);
  }

  /** One more burst keeps the progress of the loop. */
  lemma DoneOrMore(n: nat, burst: nat, done: nat, bursts: nat)
    requires Progress(n, burst, done, bursts) && done <= n <= NIC_LIMIT && CountLeft(n, done) > 0
    ensures Progress(n, burst, done + Min(burst, n - done), bursts + 1)
    ensures done == n ==> QSIZE % burst != 0 && QSIZE < n
  {
    CountMeans(n, done);
    if QSIZE % burst == 0 && done < QSIZE && done == Steps(burst, bursts) {
      NoStepOver(burst, bursts);
    }
  }

  /** The loop has taken `done` packets. */
  ghost predicate LoopGoes(pk: Packets, w: nat, burst: nat, ring: nat, st: DrainState, done: nat, bursts: nat)
    requires w < |pk.nic| && ring < |pk.rings|
  {
    && done <= |pk.nic[w]| <= NIC_LIMIT && Progress(|pk.nic[w]|, burst, done, bursts)
    && st.pk == Received(pk, w, done, ring) && st.count == CountLeft(|pk.nic[w]|, done)
  }

  lemma TurnGoes(pk: Packets, w: nat, burst: nat, ring: nat, st: DrainState, done: nat, bursts: nat)
    requires burst < TWO32 && w < |pk.nic| && ring < |pk.rings|
    requires LoopGoes(pk, w, burst, ring, st, done, bursts) && 0 < st.count < TWO32
    ensures var cnt := Min(burst, |pk.nic[w]| - done);
            && w < |st.pk.nic| && ring < |st.pk.rings|
            && LoopGoes(pk, w, burst, ring, Turned(st, w, burst, ring), done + cnt, bursts + 1)
  {
    var n := |pk.nic[w]|;
    var cnt := Min(burst, n - done);
    ReceivedMore(pk, w, done, cnt, ring);
    DoneOrMore(n, burst, done, bursts);
    LoweredCount(n, done, cnt);
  }

  lemma {:induction false} LoopTaken(pk: Packets, w: nat, burst: nat, ring: nat, k: nat)
    returns (done: nat, bursts: nat)
    requires 0 < burst < TWO32 && w < |pk.nic| && ring < |pk.rings| && |pk.nic[w]| <= NIC_LIMIT
    ensures LoopGoes(pk, w, burst, ring, LoopAt(pk, w, burst, ring, k), done, bursts)
  {
    if k == 0 {
      done, bursts := 0, 0;
      ReceivedNothing(pk, w, ring);
    } else {
      done, bursts := LoopTaken(pk, w, burst, ring, k - 1);
      var st := LoopAt(pk, w, burst, ring, k - 1);
      if st.count != 0 {
        TurnGoes(pk, w, burst, ring, st, done, bursts);
        done, bursts := done + Min(burst, |pk.nic[w]| - done), bursts + 1;
      }
    }
  }

  /** When the loop stops it has taken what Drainable says. */
  lemma LoopEnds(pk: Packets, w: nat, burst: nat, ring: nat, k: nat)
    requires 0 < burst < TWO32 && w < |pk.nic| && ring < |pk.rings| && |pk.nic[w]| <= NIC_LIMIT
    requires var st := LoopAt(pk, w, burst, ring, k); st.count == 0 || st.pk.nic[w] == []
    ensures LoopAt(pk, w, burst, ring, k).pk == Received(pk, w, Drainable(|pk.nic[w]|, burst), ring)
  {
    var done, bursts := LoopTaken(pk, w, burst, ring, k);
    CountMeans(|pk.nic[w]|, done);
    StoppedAt(|pk.nic[w]|, burst, done, bursts);
  }

  lemma StoppedAt(n: nat, burst: nat, done: nat, bursts: nat)
    requires Progress(n, burst, done, bursts) && (done == Min(n, QSIZE) || done == n)
    ensures done == Drainable(n, burst)
  {
    if done != n {
      DivModSteps(QSIZE, burst, bursts, 0);
    }
  }

  // ---------------------------------------------------------------------
  // The rings an offloading core serves

  lemma {:induction false} WithoutCounts(served: seq<nat>, ring: nat, x: nat)
    ensures multiset(Without(served, ring))[x] == if x == ring then 0 else multiset(served)[x]
  {
    if served != [] {
      var n := |served| - 1;
      WithoutCounts(served[..n], ring, x);
      assert served == served[..n] + [served[n]];
      assert multiset(served) == multiset(served[..n]) + multiset{served[n]};
      if served[n] == ring {
        assert Without(served, ring) == Without(served[..n], ring);
      } else {
        assert multiset(Without(served, ring)) == multiset(Without(served[..n], ring)) + multiset{served[n]};
      }
    }
  }

  /** What is left keeps its order. */
  lemma {:induction false} LeftInOrder(served: seq<nat>, ring: nat) returns (at: seq<nat>)
    ensures Places(served, Without(served, ring), at)
    ensures forall i: nat :: i < |served| ==> (i in at <==> served[i] != ring)
  {
    if served == [] {
      at := [];
    } else {
      var init, last := served[..|served| - 1], served[|served| - 1];
      var before := LeftInOrder(init, ring);
      assert served == init + [last];
      if last != ring {
        PlacesTaken(init, Without(init, ring), before, last);
        at := before + [|init|];
      } else {
        PlacesLeft(init, Without(init, ring), before, last);
        assert Without(init, ring) + [] == Without(init, ring);
        at := before;
      }
    }
  }

  lemma LastIn(gone: seq<nat>, x: nat)
    requires gone != []
    ensures x in gone <==> x in gone[..|gone| - 1] || x == gone[|gone| - 1]
  {
    assert gone == gone[..|gone| - 1] + [gone[|gone| - 1]];
  }

  /** A ring that is dropped is served as often as it is added again, any other ring as often
      as before and as it is added. */
  lemma {:induction false} ServedCounts(served: seq<nat>, gone: seq<nat>, x: nat)
    ensures multiset(WithoutAll(served, gone))[x] == if x in gone then 0 else multiset(served)[x]
  {
    if gone != [] {
      var init, last := gone[..|gone| - 1], gone[|gone| - 1];
      ServedCounts(served, init, x);
      var left := WithoutAll(served, init);
      WithoutCounts(left, last, x);
      LastIn(gone, x);
    }
  }
}
