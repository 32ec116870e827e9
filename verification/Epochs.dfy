/** All shards together: the loops of `swap_shards`, `order_shards` and `clear_flows`, and
    the totals of an epoch. */
module Epochs {
  import opened Machine
  import opened Accounting
  import opened Shards
  import opened Offload

  /** The accounting side of DyssectController. */
  class Controller {
    const shards: seq<ShardInfo>
    var epoch: nat
    var totalBytes: nat
    var totalPackets: nat
    var lastTotalPackets: nat

    ghost predicate Valid()
      reads shards
    {
      forall i :: 0 <= i < |shards| ==> shards[i].id == i && shards[i].Valid()
    }

    ghost function AllRecords(): set<FlowRecord>
      reads shards
    {
      set i, r | 0 <= i < |shards| && r in shards[i].Records() :: r
    }

    ghost function Views(): (v: seq<Shard>)
      reads shards, AllRecords()
      ensures |v| == |shards| && forall i :: 0 <= i < |shards| ==> v[i] == shards[i].View()
    {
      seq(|shards|, i requires 0 <= i < |shards| reads shards, AllRecords() => shards[i].View())
    }

    constructor (n: nat)
      ensures Valid() && fresh(shards) && AllRecords() == {}
      ensures Value() == StartOf(n)
    {
      var ss: seq<ShardInfo> := [];
      for i := 0 to n
        invariant |ss| == i
        invariant forall k :: 0 <= k < i ==>
                    && fresh(ss[k]) && ss[k].id == k && ss[k].Valid() && ss[k].Records() == {}
                    && ss[k].View() == EMPTY_SHARD
      {
        var sh := new ShardInfo(i);
        ss := ss + [sh];
      }
      shards := ss;
      epoch, totalBytes, totalPackets, lastTotalPackets := 0, 0, 0, 0;
    }

    method SwapShard(s: nat)
      requires Valid() && s < |shards|
      modifies shards[s]
      ensures Valid() && AllRecords() == old(AllRecords())
      ensures Views() == old(Views())[s := Swapped(old(Views())[s])]
    {
      shards[s].Swap();
      assert forall i :: 0 <= i < |shards| ==> shards[i].Records() == old(shards[i].Records());
    }

    method OrderShard(s: nat)
      requires Valid() && s < |shards|
      modifies shards[s], shards[s].Records()
      ensures Valid() && AllRecords() == old(AllRecords())
      ensures Views() == old(Views())[s := Views()[s]] && OrderStep(old(Views())[s], Views()[s])
    {
      OrderOne(s);
    }

    method OrderOne(s: nat)
      requires Valid() && s < |shards|
      modifies shards[s], shards[s].Records()
      ensures Valid() && AllRecords() == old(AllRecords())
      ensures OrderStep(old(shards[s].View()), shards[s].View())
      ensures forall i :: 0 <= i < |shards| && i != s ==> shards[i].View() == old(shards[i].View())
    {
      shards[s].OrderFlows();
      assert forall i :: 0 <= i < |shards| ==> shards[i].Records() == old(shards[i].Records());
    }

    method ClearShard(s: nat)
      requires Valid() && s < |shards|
      modifies shards[s]
      ensures Valid() && AllRecords() == old(AllRecords())
      ensures Views() == old(Views())[s := old(Views())[s].(other := {})]
    {
      ghost var before := Views();
      shards[s].Clear();
      assert forall i :: 0 <= i < |shards| ==> shards[i].Records() == old(shards[i].Records());
      assert forall i :: 0 <= i < |shards| && i != s ==> shards[i].View() == before[i];
    }

    /** `swap_shards` on the shards. */
    method SwapBuffers()
      requires Valid()
      modifies shards
      ensures Valid() && AllRecords() == old(AllRecords())
      ensures forall i :: 0 <= i < |shards| ==> Views()[i] == Swapped(old(Views())[i])
    {
      ghost var before := Views();
      for s := 0 to |shards|
        invariant Valid() && AllRecords() == old(AllRecords())
        invariant forall i :: 0 <= i < |shards| ==> Views()[i] == if i < s then Swapped(before[i]) else before[i]
      {
        SwapShard(s);
      }
    }

    /** The totals that `swap_shards` takes. */
    method AddTotals(ghost before: seq<Shard>)
      requires |before| == |shards|
      requires forall i :: 0 <= i < |shards| ==>
                 shards[i].oldBytes == before[i].bytes && shards[i].oldPackets == before[i].packets
      modifies this`totalBytes, this`totalPackets, this`lastTotalPackets
      ensures totalPackets == CountSum(before, Packets) % TWO32 && totalBytes == CountSum(before, Bytes) % TWO32
      ensures lastTotalPackets == old(totalPackets)
    {
      lastTotalPackets := totalPackets;
      totalBytes, totalPackets := 0, 0;
      for s := 0 to |shards|
        invariant lastTotalPackets == old(totalPackets)
        invariant totalPackets == CountSum(before[..s], Packets) % TWO32
        invariant totalBytes == CountSum(before[..s], Bytes) % TWO32
      {
        assert before[..s + 1][..s] == before[..s];
        AddMod(CountSum(before[..s], Bytes), before[s].bytes);
        AddMod(CountSum(before[..s], Packets), before[s].packets);
        totalBytes := (totalBytes + shards[s].oldBytes) % TWO32;
        totalPackets := (totalPackets + shards[s].oldPackets) % TWO32;
      }
      assert before[..|shards|] == before;
    }

    method TakeTotals(ghost before: seq<Shard>)
      requires Valid() && |before| == |shards|
      requires forall i :: 0 <= i < |shards| ==>
                 shards[i].oldBytes == before[i].bytes && shards[i].oldPackets == before[i].packets
      modifies this`totalBytes, this`totalPackets, this`lastTotalPackets
      ensures totalPackets == CountSum(before, Packets) % TWO32 && totalBytes == CountSum(before, Bytes) % TWO32
      ensures lastTotalPackets == old(totalPackets)
      ensures Valid() && AllRecords() == old(AllRecords()) && Views() == old(Views())
    {
      AddTotals(before);
    }

    /** `swap_shards`. */
    method SwapShards()
      requires Valid()
      modifies this`totalBytes, this`totalPackets, this`lastTotalPackets, shards
      ensures Valid() && AllRecords() == old(AllRecords())
      ensures forall i :: 0 <= i < |shards| ==> Views()[i] == Swapped(old(Views())[i])
      ensures totalPackets == CountSum(old(Views()), Packets) % TWO32
      ensures totalBytes == CountSum(old(Views()), Bytes) % TWO32
      ensures lastTotalPackets == old(totalPackets)
    {
      ghost var before := Views();
      SwapBuffers();
      assert forall i :: 0 <= i < |shards| ==> shards[i].View() == Views()[i];
      TakeTotals(before);
    }

    /** `order_shards`. */
    method OrderShards()
      requires Valid()
      modifies shards, AllRecords()
      ensures Valid() && AllRecords() == old(AllRecords())
      ensures forall i :: 0 <= i < |shards| ==> OrderStep(old(Views())[i], Views()[i])
    {
      ghost var before := Views();
      ghost var now := before;
      for s := 0 to |shards|
        invariant Valid() && AllRecords() == old(AllRecords())
        invariant |now| == |shards| && Views() == now
        invariant forall i :: 0 <= i < s ==> OrderStep(before[i], now[i])
        invariant forall i :: s <= i < |shards| ==> now[i] == before[i]
      {
        OrderShard(s);
        now := now[s := Views()[s]];
      }
    }

    /** `clear_flows`. */
    method ClearFlows()
      requires Valid()
      modifies shards
      ensures Valid() && AllRecords() == old(AllRecords())
      ensures forall i :: 0 <= i < |shards| ==> Views()[i] == old(Views())[i].(other := {})
    {
      ghost var before := Views();
      for s := 0 to |shards|
        invariant Valid() && AllRecords() == old(AllRecords())
        invariant forall i :: 0 <= i < |shards| ==> Views()[i] == if i < s then before[i].(other := {}) else before[i]
      {
        ClearShard(s);
      }
    }

    method AdvanceEpoch()
      requires Valid()
      modifies this`epoch
      ensures Valid() && epoch == old(epoch) + 1 && AllRecords() == old(AllRecords()) && Views() == old(Views())
    {
      epoch := epoch + 1;
    }

    method SwapOrderClear()
      requires Valid()
      modifies this, shards, AllRecords()
      ensures Valid() && epoch == old(epoch) + 1
      ensures forall i :: 0 <= i < |shards| ==> EpochStep(old(Views())[i], Views()[i])
      ensures totalPackets == CountSum(old(Views()), Packets) % TWO32
      ensures totalBytes == CountSum(old(Views()), Bytes) % TWO32
    {
      ghost var before := Views();
      SwapShards();
      ghost var swapped := Views();
      AdvanceEpoch();
      OrderShards();
      ghost var ordered := Views();
      ClearFlows();
      EpochSteps(before, swapped, ordered, Views());
    }

    method RoundShard(s: nat, ghost rounded: real)
      requires Valid() && s < |shards| && Listed(Views()[s]) && rounded == Rounded(Views()[s], shards[s].rNew)
      modifies {shards[s]}`rNew
      ensures Valid() && AllRecords() == old(AllRecords()) && Views() == old(Views())
      ensures forall i :: 0 <= i < |shards| ==> shards[i].rNew == if i == s then rounded else old(shards[i].rNew)
    {
      var ratio := RoundedRatio(shards[s]);
      assert Views()[s] == shards[s].View();
      SetWanted(s, ratio);
    }

    method SetWanted(s: nat, ratio: real)
      requires Valid() && s < |shards|
      modifies {shards[s]}`rNew
      ensures Valid() && AllRecords() == old(AllRecords()) && Views() == old(Views())
      ensures forall i :: 0 <= i < |shards| ==> shards[i].rNew == if i == s then ratio else old(shards[i].rNew)
    {
      shards[s].SetWanted(ratio);
      assert forall i :: 0 <= i < |shards| ==> shards[i].Records() == old(shards[i].Records());
    }

    /** The ratios after `update_ratio` has dealt with the first `n` shards. */
    ghost predicate RoundedTo(asked: seq<real>, rounded: seq<real>, n: nat)
      requires |asked| == |rounded| == |shards|
      reads shards
    {
      forall i :: 0 <= i < |shards| ==> shards[i].rNew == if i < n then rounded[i] else asked[i]
    }

    /** One of the first `n` shards has a new ratio to tell its owner `w` about. */
    ghost predicate Notifies(owners: seq<nat>, n: nat, w: nat)
      requires n <= |shards| == |owners|
      reads shards
    {
      exists i :: 0 <= i < n && owners[i] == w && !IsEqualThan(shards[i].r, shards[i].rNew)
    }

    /** Told and changed in figures, for ratios that are not negative: the flags raised are those of
        the owners of shards whose ratio in force and whose wanted ratio are apart by more than
        the margin. */
    ghost predicate RightOwnersTold(owners: seq<nat>, flags: seq<bool>, flags': seq<bool>, changed: bool)
      requires |owners| == |shards|
      reads shards
    {
      (forall i :: 0 <= i < |shards| ==> 0.0 <= shards[i].r && 0.0 <= shards[i].rNew) ==>
        && |flags'| == |flags|
        && (forall w :: 0 <= w < |flags| ==>
              (flags'[w] <==>
                 flags[w] || exists i :: 0 <= i < |shards| && owners[i] == w
                                         && (shards[i].r < shards[i].rNew * 0.9999999999
                                             || shards[i].rNew < shards[i].r * 0.9999999999)))
        && (changed <==>
              exists i :: 0 <= i < |shards| && (shards[i].r < shards[i].rNew * 0.9999999999
                                                || shards[i].rNew < shards[i].r * 0.9999999999))
    }

    /** The rounding done by `update_ratio`. */
    method RoundShards(ghost asked: seq<real>, ghost rounded: seq<real>)
      requires Valid() && RoundsAll(Views(), asked, rounded) && RoundedTo(asked, rounded, 0)
      modifies shards`rNew
      ensures Valid() && AllRecords() == old(AllRecords()) && Views() == old(Views())
      ensures RoundedTo(asked, rounded, |shards|)
    {
      ghost var v := Views();
      for s := 0 to |shards|
        invariant Valid() && AllRecords() == old(AllRecords()) && Views() == v
        invariant RoundedTo(asked, rounded, s)
      {
        RoundShard(s, rounded[s]);
      }
    }

    /** The flags set by `update_ratio`. */
    method NotifyOwners(owners: seq<nat>, transferR: array<bool>) returns (changed: bool)
      requires |owners| == |shards| && forall s :: 0 <= s < |owners| ==> owners[s] < transferR.Length
      modifies transferR
      ensures forall w :: 0 <= w < transferR.Length ==>
                (transferR[w] <==> old(transferR[w]) || Notifies(owners, |shards|, w))
      ensures changed <==> exists i :: 0 <= i < |shards| && !IsEqualThan(shards[i].r, shards[i].rNew)
      ensures RightOwnersTold(owners, old(transferR[..]), transferR[..], changed)
    {
      changed := false;
      for s := 0 to |shards|
        invariant forall w :: 0 <= w < transferR.Length ==>
                    (transferR[w] <==> old(transferR[w]) || Notifies(owners, s, w))
        invariant changed <==> exists i :: 0 <= i < s && !IsEqualThan(shards[i].r, shards[i].rNew)
      {
        if !IsEqualThan(shards[s].r, shards[s].rNew) {
          transferR[owners[s]] := true;
          changed := true;
        }
      }
      forall i | 0 <= i < |shards| && 0.0 <= shards[i].r && 0.0 <= shards[i].rNew
        ensures IsEqualThan(shards[i].r, shards[i].rNew) <==>
                  !(shards[i].r < shards[i].rNew * 0.9999999999 || shards[i].rNew < shards[i].r * 0.9999999999)
      {
        EqualIff(shards[i].r, shards[i].rNew);
      }
    }

    /** `update_ratio`: every ratio is rounded, and exactly the owners of the shards whose
        ratio is to change are told.  No shard's flag or rounding depends on another's, so
        the two halves of the loop body are run one after the other. */
    method UpdateRatio(owners: seq<nat>, transferR: array<bool>, ghost asked: seq<real>, ghost rounded: seq<real>)
      returns (changed: bool)
      requires Valid() && RoundsAll(Views(), asked, rounded) && RoundedTo(asked, rounded, 0)
      requires |owners| == |shards| && forall s :: 0 <= s < |owners| ==> owners[s] < transferR.Length
      modifies shards`rNew, transferR
      ensures RoundedTo(asked, rounded, |shards|)
      ensures forall w :: 0 <= w < transferR.Length ==>
                (transferR[w] <==> old(transferR[w]) || Notifies(owners, |shards|, w))
      ensures changed <==> exists i :: 0 <= i < |shards| && !IsEqualThan(shards[i].r, shards[i].rNew)
      ensures RightOwnersTold(owners, old(transferR[..]), transferR[..], changed)
    {
      RoundShards(asked, rounded);
      changed := NotifyOwners(owners, transferR);
    }

    ghost function Value(): System
      reads this, shards, AllRecords()
    {
      System(Views(), epoch, totalPackets, totalBytes)
    }

    /** `update_short_epoch`, but for the solver's answer. */
    method UpdateShortEpoch(ghost shardOf: Flow -> nat)
      requires Valid()
      modifies this, shards, AllRecords()
      ensures Valid() && SystemStep(old(Value()), Tick, Value(), shardOf)
    {
      SwapOrderClear();
    }

    /** A working core takes the state of a packet of shard `s`. */
    method ProcessPacket(p: Packet, s: nat, ghost shardOf: Flow -> nat) returns (state: FlowRecord)
      requires Valid() && s == shardOf(p.flow) && s < |shards|
      modifies shards[s], shards[s].Records()
      ensures Valid() && SystemStep(old(Value()), Arrive(p), Value(), shardOf)
      ensures p.flow in shards[s].table && shards[s].table[p.flow] == state
    {
      ghost var before := Views();
      state := shards[s].ExtractState(p, epoch);
      forall i | 0 <= i < |shards| && i != s ensures shards[i].View() == before[i] {
        assert shards[i].Records() == old(shards[i].Records());
      }
      assert Views() == before[s := Extract(before[s], epoch, p)];
    }
  }

  /** The shards, the epoch counter and the totals of the last epoch, as a value. */
  datatype System = System(shards: seq<Shard>, epoch: nat, totalPackets: nat, totalBytes: nat)

  ghost predicate SystemStep(sys: System, ev: Event, sys': System, shardOf: Flow -> nat) {
    match ev
    case Arrive(p) =>
      var s := shardOf(p.flow);
      s < |sys.shards| && sys' == sys.(shards := sys.shards[s := Extract(sys.shards[s], sys.epoch, p)])
    case Tick =>
      && |sys'.shards| == |sys.shards| && sys'.epoch == sys.epoch + 1
      && sys'.totalPackets == CountSum(sys.shards, Packets) % TWO32
      && sys'.totalBytes == CountSum(sys.shards, Bytes) % TWO32
      && forall s :: 0 <= s < |sys.shards| ==> EpochStep(sys.shards[s], sys'.shards[s])
  }

  lemma EpochSteps(before: seq<Shard>, swapped: seq<Shard>, ordered: seq<Shard>, after: seq<Shard>)
    requires |before| == |swapped| == |ordered| == |after|
    requires forall i :: 0 <= i < |before| ==> swapped[i] == Swapped(before[i])
    requires forall i :: 0 <= i < |before| ==> OrderStep(swapped[i], ordered[i])
    requires forall i :: 0 <= i < |before| ==> after[i] == ordered[i].(other := {})
    ensures forall i :: 0 <= i < |before| ==> EpochStep(before[i], after[i])
  {
    forall i | 0 <= i < |before| ensures EpochStep(before[i], after[i]) {
      assert after[i].(other := before[i].current) == ordered[i];
    }
  }

  datatype Counted = Packets | Bytes

  function CountOf(sh: Shard, what: Counted): nat {
    if what == Packets then sh.packets else sh.bytes
  }

  /** The sum of one counter over all shards. */
  function CountSum(v: seq<Shard>, what: Counted): nat {
    if v == [] then 0 else CountSum(v[..|v| - 1], what) + CountOf(v[|v| - 1], what)
  }

  function StartOf(n: nat): System {
    System(seq(n, _ => EMPTY_SHARD), 0, 0, 0)
  }

  // ---------------------------------------------------------------------
  // Runs of the whole system

  ghost predicate IsSystemRun(states: seq<System>, evs: seq<Event>, n: nat, shardOf: Flow -> nat) {
    && |states| == |evs| + 1 && states[0] == StartOf(n)
    && forall i :: 0 <= i < |evs| ==> SystemStep(states[i], evs[i], states[i + 1], shardOf)
  }

  /** The events that concern shard `s`: its packets and the ends of the epochs. */
  function OfShard(evs: seq<Event>, s: nat, shardOf: Flow -> nat): seq<Event> {
    if evs == [] then []
    else
      var ev := evs[|evs| - 1];
      OfShard(evs[..|evs| - 1], s, shardOf) + if ev.Arrive? && shardOf(ev.p.flow) != s then [] else [ev]
  }

  function Traced(t: seq<seq<Packet>>, ev: Event): seq<seq<Packet>>
    requires t != []
  {
    match ev case Arrive(p) => Snoc(t, p) case Tick => t + [[]]
  }

  lemma TraceSnoc(evs: seq<Event>, ev: Event)
    ensures TraceOf(evs + [ev]) == Traced(TraceOf(evs), ev)
  {
    assert (evs + [ev])[..|evs|] == evs;
  }

  lemma TraceTaken(evs: seq<Event>, i: nat)
    requires 0 < i <= |evs|
    ensures TraceOf(evs[..i]) == Traced(TraceOf(evs[..i - 1]), evs[i - 1])
  {
    TraceSnoc(evs[..i - 1], evs[i - 1]);
    assert evs[..i - 1] + [evs[i - 1]] == evs[..i];
  }

  /** How one event changes the trace of a shard. */
  lemma ShardTraceStep(evs: seq<Event>, s: nat, shardOf: Flow -> nat)
    requires evs != []
    ensures var t, ev := TraceOf(OfShard(evs[..|evs| - 1], s, shardOf)), evs[|evs| - 1];
            TraceOf(OfShard(evs, s, shardOf)) ==
            if ev.Tick? then t + [[]] else if shardOf(ev.p.flow) == s then Snoc(t, ev.p) else t
  {
    var mine, ev := OfShard(evs[..|evs| - 1], s, shardOf), evs[|evs| - 1];
    TraceSnoc(mine, ev);
    assert mine + [] == mine;
  }

  /** Every shard counts the same epochs. */
  lemma {:induction false} EpochOfShard(evs: seq<Event>, s: nat, shardOf: Flow -> nat)
    ensures |TraceOf(OfShard(evs, s, shardOf))| == EpochAfter(evs) + 1
  {
    if evs != [] {
      var n := |evs| - 1;
      EpochOfShard(evs[..n], s, shardOf);
      ShardTraceStep(evs, s, shardOf);
    }
  }

  /** In every state of every run, every shard refines the plain trace of its packets. */
  lemma {:induction false} ShardsRefineTraces(states: seq<System>, evs: seq<Event>, n: nat, i: nat, s: nat,
                                              shardOf: Flow -> nat)
    requires IsSystemRun(states, evs, n, shardOf) && i <= |evs| && s < n
    ensures |states[i].shards| == n && states[i].epoch == EpochAfter(evs[..i])
    ensures Inv(states[i].shards[s], TraceOf(OfShard(evs[..i], s, shardOf)))
    decreases i
  {
    if i == 0 {
      assert evs[..0] == [];
      InvStart();
    } else {
      ShardsRefineTraces(states, evs, n, i - 1, s, shardOf);
      assert SystemStep(states[i - 1], evs[i - 1], states[i], shardOf);
      assert evs[..i][..i - 1] == evs[..i - 1];
      RefineOne(states[i - 1], states[i], evs[..i], s, shardOf);
    }
  }

  /** The last of some events takes one more step along. */
  lemma RefineOne(sys: System, sys': System, evs: seq<Event>, s: nat, shardOf: Flow -> nat)
    requires evs != [] && SystemStep(sys, evs[|evs| - 1], sys', shardOf) && s < |sys.shards|
    requires var before := evs[..|evs| - 1];
             sys.epoch == EpochAfter(before) && Inv(sys.shards[s], TraceOf(OfShard(before, s, shardOf)))
    ensures |sys'.shards| == |sys.shards| && sys'.epoch == EpochAfter(evs)
    ensures Inv(sys'.shards[s], TraceOf(OfShard(evs, s, shardOf)))
  {
    var before, ev := evs[..|evs| - 1], evs[|evs| - 1];
    ShardTraceStep(evs, s, shardOf);
    EpochOfShard(before, s, shardOf);
    ShardStep(sys, ev, sys', s, shardOf, TraceOf(OfShard(before, s, shardOf)));
  }

  lemma ShardStep(sys: System, ev: Event, sys': System, s: nat, shardOf: Flow -> nat, t: seq<seq<Packet>>)
    requires SystemStep(sys, ev, sys', shardOf) && s < |sys.shards|
    requires |t| == sys.epoch + 1 && Inv(sys.shards[s], t)
    ensures |sys'.shards| == |sys.shards|
    ensures Inv(sys'.shards[s], if ev.Tick? then t + [[]] else if shardOf(ev.p.flow) == s then Snoc(t, ev.p) else t)
  {
    match ev
    case Arrive(p) =>
      if shardOf(p.flow) == s {
        InvArrive(sys.shards[s], t, p);
      }
    case Tick => InvTick(sys.shards[s], sys'.shards[s], t);
  }

  lemma {:induction false} CountSumUpdate(v: seq<Shard>, s: nat, x: Shard, what: Counted)
    requires s < |v|
    ensures CountSum(v[s := x], what) == CountSum(v, what) - CountOf(v[s], what) + CountOf(x, what)
  {
    var n := |v| - 1;
    if s == n {
      assert v[s := x][..n] == v[..n];
    } else {
      assert v[s := x][..n] == v[..n][s := x];
      CountSumUpdate(v[..n], s, x, what);
    }
  }

  lemma {:induction false} CountSumNone(v: seq<Shard>, what: Counted)
    requires forall i :: 0 <= i < |v| ==> CountOf(v[i], what) == 0
    ensures CountSum(v, what) == 0
  {
    if v != [] {
      CountSumNone(v[..|v| - 1], what);
    }
  }

  /** What an epoch of the trace amounts to. */
  function Amount(pkts: seq<Packet>, what: Counted): nat {
    if what == Packets then |pkts| else TotalIn(pkts)
  }

  function TotalOf(sys: System, what: Counted): nat {
    if what == Packets then sys.totalPackets else sys.totalBytes
  }

  /** The counters of the shards add up to the packets and bytes of the running epoch, modulo
      the width of the counters; the totals are those of the epoch before. */
  lemma TotalsOfEpoch(states: seq<System>, evs: seq<Event>, n: nat, i: nat, shardOf: Flow -> nat)
    requires IsSystemRun(states, evs, n, shardOf) && i <= |evs|
    ensures var sys, t := states[i], TraceOf(evs[..i]);
            && sys.totalPackets == (if |t| == 1 then 0 else |t[|t| - 2]| % TWO32)
            && sys.totalBytes == (if |t| == 1 then 0 else TotalIn(t[|t| - 2]) % TWO32)
            && CountSum(sys.shards, Packets) % TWO32 == |t[|t| - 1]| % TWO32
            && CountSum(sys.shards, Bytes) % TWO32 == TotalIn(t[|t| - 1]) % TWO32
  {
    TotalRight(states, evs, n, i, shardOf, Packets);
    TotalRight(states, evs, n, i, shardOf, Bytes);
  }

  lemma {:induction false} TotalRight(states: seq<System>, evs: seq<Event>, n: nat, i: nat, shardOf: Flow -> nat,
                                      what: Counted)
    requires IsSystemRun(states, evs, n, shardOf) && i <= |evs|
    ensures TotalsAt(states[i], TraceOf(evs[..i]), what)
    decreases i
  {
    if i == 0 {
      assert evs[..0] == [];
      CountSumNone(states[0].shards, what);
    } else {
      TotalRight(states, evs, n, i - 1, shardOf, what);
      assert SystemStep(states[i - 1], evs[i - 1], states[i], shardOf);
      TraceTaken(evs, i);
      TotalStep(states[i - 1], states[i], evs[i - 1], shardOf, TraceOf(evs[..i - 1]), what);
    }
  }

  /** What the counters and the total are after the trace. */
  ghost predicate TotalsAt(sys: System, t: seq<seq<Packet>>, what: Counted)
    requires t != []
  {
    && CountSum(sys.shards, what) % TWO32 == Amount(t[|t| - 1], what) % TWO32
    && TotalOf(sys, what) == if |t| == 1 then 0 else Amount(t[|t| - 2], what) % TWO32
  }

  lemma TotalStep(sys: System, sys': System, ev: Event, shardOf: Flow -> nat, t: seq<seq<Packet>>, what: Counted)
    requires SystemStep(sys, ev, sys', shardOf) && t != [] && TotalsAt(sys, t, what)
    ensures TotalsAt(sys', Traced(t, ev), what)
  {
    match ev
    case Arrive(p) =>
      var s := shardOf(p.flow);
      MoreIn(t, p, what);
      ExtractFacts(sys.shards[s], sys.epoch, p);
      CountMore(sys.shards, s, Extract(sys.shards[s], sys.epoch, p), Amount(t[|t| - 1], what),
                if what == Packets then 1 else p.len, what);
    case Tick =>
      forall s | 0 <= s < |sys.shards| ensures CountOf(sys'.shards[s], what) == 0 {
        EpochFacts(sys.shards[s], sys'.shards[s]);
      }
      CountSumNone(sys'.shards, what);
  }

  lemma MoreIn(t: seq<seq<Packet>>, p: Packet, what: Counted)
    requires t != []
    ensures var t', k := Snoc(t, p), if what == Packets then 1 else p.len;
            && |t'| == |t| && t'[..|t| - 1] == t[..|t| - 1]
            && Amount(t'[|t| - 1], what) == Amount(t[|t| - 1], what) + k
  {
    BytesSnoc(t[|t| - 1], p, p.flow);
  }

  lemma CountMore(v: seq<Shard>, s: nat, x: Shard, count: nat, k: nat, what: Counted)
    requires s < |v| && CountOf(x, what) == (CountOf(v[s], what) + k) % TWO32
    requires CountSum(v, what) % TWO32 == count % TWO32
    ensures CountSum(v[s := x], what) % TWO32 == (count + k) % TWO32
  {
    CountSumUpdate(v, s, v[s].(packets := 0, bytes := 0), what);
    CountSumUpdate(v, s, x, what);
    SomeMore(CountSum(v, what), CountOf(v[s], what), CountSum(v[s := x], what), count, k);
  }

  lemma SomeMore(sum: nat, x: nat, sum': nat, count: nat, k: nat)
    requires x <= sum && sum' == sum - x + (x + k) % TWO32 && sum % TWO32 == count % TWO32
    ensures sum' % TWO32 == (count + k) % TWO32
  {
    AddMod(sum, k);
    AddMod(count, k);
    ModShift(sum', sum + k, (x + k) / TWO32);
  }

  lemma ModShift(a: nat, b: nat, q: nat)
    requires b == a + TWO32 * q
    ensures a % TWO32 == b % TWO32
  {
  }
}
