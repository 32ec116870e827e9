/** Per-flow accounting of one shard: what `extract_state` and `update_short_epoch` do to
    the flow states, the two flow buffers and the byte counters, related to the plain
    trace of packets.  One `extract_state` call and one whole `update_short_epoch` are
    taken as atomic steps. */
module Accounting {
  import opened Machine

  datatype Flow = Flow(srcPort: nat, dstPort: nat, srcAddr: nat, dstAddr: nat)

  /** What `extract_state` reads of a packet: its flow, its priority mark, its IP length. */
  datatype Packet = Packet(flow: Flow, priority: bool, len: nat)

  /** DyssectState, as a value. */
  datatype FlowState = FlowState(cdf: real, prob: real, prob2: real, priority: bool, epoch: nat, bytes: nat)

  /** The accounting part of ShardInfo, as a value.  `current` is the buffer that packets
      are recorded in, `other` the one the controller reads. */
  datatype Shard = Shard(table: map<Flow, FlowState>, current: set<Flow>, other: set<Flow>,
                         bytes: nat, packets: nat, oldBytes: nat, oldPackets: nat, ordered: seq<Flow>)

  const EMPTY_SHARD: Shard := Shard(map[], {}, {}, 0, 0, 0, 0, [])

  // ---------------------------------------------------------------------
  // The two steps

  function Ratio(bytes: nat, total: nat): real {
    if total == 0 then 0.0 else bytes as real / total as real
  }

  /** The roll-over of a flow's byte count at its first hit in a new epoch. */
  function RollOver(st: FlowState, epoch: nat, oldBytes: nat): FlowState {
    if st.epoch == epoch then st
    else st.(prob := if st.epoch + 1 == epoch then Ratio(st.bytes, oldBytes) else 0.0,
             bytes := 0, epoch := epoch)
  }

  /** The branch of `extract_state` for a flow the table knows: only an unmarked packet
      rolls the flow over and records it. */
  function RecordHit(sh: Shard, epoch: nat, p: Packet): Shard
    requires p.flow in sh.table
  {
    if p.priority then sh
    else sh.(table := sh.table[p.flow := RollOver(sh.table[p.flow], epoch, sh.oldBytes)],
             current := sh.current + {p.flow})
  }

  function RecordNew(sh: Shard, epoch: nat, p: Packet): Shard {
    sh.(table := sh.table[p.flow := FlowState(0.0, 0.0, 0.0, p.priority, epoch, 0)])
  }

  /** The byte and packet counts at the end of `extract_state`. */
  function Counted(sh: Shard, p: Packet): Shard
    requires p.flow in sh.table
  {
    sh.(table := sh.table[p.flow := sh.table[p.flow].(bytes := sh.table[p.flow].bytes + p.len)],
        bytes := (sh.bytes + p.len) % TWO32,
        packets := (sh.packets + 1) % TWO32)
  }

  /** `extract_state` on a packet of this shard. */
  function Extract(sh: Shard, epoch: nat, p: Packet): Shard {
    Counted(if p.flow in sh.table then RecordHit(sh, epoch, p) else RecordNew(sh, epoch, p), p)
  }

  /** `swap_shards` on one shard. */
  function Swapped(sh: Shard): Shard {
    sh.(current := sh.other, other := sh.current, oldBytes := sh.bytes, oldPackets := sh.packets, bytes := 0,
        packets := 0)
  }

  ghost predicate NoDuplicates(fs: seq<Flow>) {
    forall i, j :: 0 <= i < j < |fs| ==> fs[i] != fs[j]
  }

  /** The sum of the first `k` of some shares. */
  function RunningSum(shares: seq<real>, k: nat): real
    requires k <= |shares|
  {
    if k == 0 then 0.0 else RunningSum(shares, k - 1) + shares[k - 1]
  }

  function SharesOf(table: map<Flow, FlowState>, fs: seq<Flow>): (shares: seq<real>)
    requires forall i :: 0 <= i < |fs| ==> fs[i] in table
    ensures |shares| == |fs| && forall i :: 0 <= i < |fs| ==> shares[i] == table[fs[i]].prob2
  {
    seq(|fs|, i requires 0 <= i < |fs| => table[fs[i]].prob2)
  }

  /** The sum of the first `k` listed shares. */
  function ListedSum(table: map<Flow, FlowState>, fs: seq<Flow>, k: nat): real
    requires k <= |fs| && forall i :: 0 <= i < |fs| ==> fs[i] in table
  {
    RunningSum(SharesOf(table, fs), k)
  }

  ghost predicate Listing(table: map<Flow, FlowState>, fs: seq<Flow>) {
    && NoDuplicates(fs)
    && (forall i :: 0 <= i < |fs| ==> fs[i] in table)
    && (forall i, j :: 0 <= i < j < |fs| ==> table[fs[i]].prob >= table[fs[j]].prob)
  }

  /** `order_shards` on one shard: the flows of the buffer are listed by descending share,
      in any order among equals; each listed flow gets its share and running sum. */
  ghost predicate OrderStep(sh: Shard, sh': Shard) {
    var fs := sh'.ordered;
    && Listing(sh.table, fs)
    && (forall f :: f in sh.other <==> f in fs)
    && sh'.table.Keys == sh.table.Keys
    && (forall k :: 0 <= k < |fs| ==>
          sh'.table[fs[k]] == sh.table[fs[k]].(prob2 := sh.table[fs[k]].prob, cdf := ListedSum(sh'.table, fs, k + 1)))
    && (forall f :: f in sh.table && f !in fs ==> sh'.table[f] == sh.table[f])
    && sh' == sh.(table := sh'.table, ordered := fs)
  }

  /** `update_short_epoch` on one shard: swap, order, clear. */
  ghost predicate EpochStep(sh: Shard, sh': Shard) {
    sh'.other == {} && OrderStep(Swapped(sh), sh'.(other := sh.current))
  }

  // ---------------------------------------------------------------------
  // Runs and their traces

  datatype Event = Arrive(p: Packet) | Tick

  /** The packets of the shard, epoch by epoch; the last entry is the running epoch. */
  function TraceOf(evs: seq<Event>): (t: seq<seq<Packet>>)
    ensures t != []
  {
    if evs == [] then [[]]
    else
      var t := TraceOf(evs[..|evs| - 1]);
      match evs[|evs| - 1]
      case Arrive(p) => t[..|t| - 1] + [t[|t| - 1] + [p]]
      case Tick => t + [[]]
  }

  /** The epoch counter after the events. */
  function EpochAfter(evs: seq<Event>): nat {
    if evs == [] then 0
    else EpochAfter(evs[..|evs| - 1]) + if evs[|evs| - 1].Tick? then 1 else 0
  }

  lemma {:induction false} EpochOfTrace(evs: seq<Event>)
    ensures EpochAfter(evs) == |TraceOf(evs)| - 1
  {
    if evs != [] {
      EpochOfTrace(evs[..|evs| - 1]);
    }
  }

  ghost predicate Step(sh: Shard, epoch: nat, ev: Event, sh': Shard) {
    match ev
    case Arrive(p) => sh' == Extract(sh, epoch, p)
    case Tick => EpochStep(sh, sh')
  }

  ghost predicate IsRun(states: seq<Shard>, evs: seq<Event>) {
    && |states| == |evs| + 1 && states[0] == EMPTY_SHARD
    && forall i :: 0 <= i < |evs| ==> Step(states[i], EpochAfter(evs[..i]), evs[i], states[i + 1])
  }

  // ---------------------------------------------------------------------
  // What the trace says

  function BytesIn(pkts: seq<Packet>, f: Flow): nat {
    if pkts == [] then 0
    else BytesIn(pkts[..|pkts| - 1], f) + if pkts[|pkts| - 1].flow == f then pkts[|pkts| - 1].len else 0
  }

  function TotalIn(pkts: seq<Packet>): nat {
    if pkts == [] then 0 else TotalIn(pkts[..|pkts| - 1]) + pkts[|pkts| - 1].len
  }

  ghost predicate OccursIn(pkts: seq<Packet>, f: Flow) {
    exists k :: 0 <= k < |pkts| && pkts[k].flow == f
  }

  /** The flow had a packet before epoch `e`. */
  ghost predicate SeenEarlier(t: seq<seq<Packet>>, e: nat, f: Flow)
    requires e <= |t|
  {
    exists d :: 0 <= d < e && OccursIn(t[d], f)
  }

  /** The flow had a packet before the k-th packet of epoch `e`. */
  ghost predicate SeenBefore(t: seq<seq<Packet>>, e: nat, k: nat, f: Flow)
    requires e < |t| && k <= |t[e]|
  {
    OccursIn(t[e][..k], f) || SeenEarlier(t, e, f)
  }

  ghost predicate Seen(t: seq<seq<Packet>>, f: Flow) {
    SeenEarlier(t, |t|, f)
  }

  /** In epoch `e` the flow had an unmarked packet that found the flow already known. */
  ghost predicate HitIn(t: seq<seq<Packet>>, e: nat, f: Flow)
    requires e < |t|
  {
    exists k :: 0 <= k < |t[e]| && t[e][k].flow == f && !t[e][k].priority && SeenBefore(t, e, k, f)
  }

  // ---------------------------------------------------------------------
  // Which bytes a share is made of

  /** The place of the first packet of a flow, or of its first unmarked one; the number of
      packets if there is none. */
  function FirstPacket(pkts: seq<Packet>, f: Flow, unmarked: bool): (k: nat)
    ensures k <= |pkts|
    ensures k < |pkts| ==> pkts[k].flow == f && (unmarked ==> !pkts[k].priority)
  {
    if pkts == [] then 0
    else
      var n := |pkts| - 1;
      var k := FirstPacket(pkts[..n], f, unmarked);
      if k < n || (pkts[n].flow == f && (unmarked ==> !pkts[n].priority)) then k else n + 1
  }

  /** The place in epoch `e` from which the bytes of the flow are counted afresh: the packet
      that makes the flow known, or else its first unmarked packet of the epoch. */
  ghost function Anchor(t: seq<seq<Packet>>, e: nat, f: Flow): (k: nat)
    requires e < |t|
    ensures k <= |t[e]|
  {
    FirstPacket(t[e], f, SeenEarlier(t, e, f))
  }

  ghost predicate Anchored(t: seq<seq<Packet>>, e: nat, f: Flow)
    requires e < |t|
  {
    Anchor(t, e, f) < |t[e]|
  }

  /** The bytes of the flow from its anchor in epoch `e` to the end of that epoch. */
  ghost function Tail(t: seq<seq<Packet>>, e: nat, f: Flow): nat
    requires e < |t|
  {
    BytesIn(t[e][Anchor(t, e, f)..], f)
  }

  /** The bytes carried into epoch `e`, up to the anchor there: those counted since the
      anchor in the epoch before.  Marked packets that come before the anchor are counted
      along. */
  ghost function Carried(t: seq<seq<Packet>>, e: nat, f: Flow): nat
    requires 0 < e < |t|
  {
    if Anchored(t, e - 1, f) then Tail(t, e - 1, f) + BytesIn(t[e][..Anchor(t, e, f)], f) else 0
  }

  /** The 32-bit byte count of the epoch before `e`. */
  function Weight(t: seq<seq<Packet>>, e: nat): nat
    requires 0 < e <= |t|
  {
    TotalIn(t[e - 1]) % TWO32
  }

  /** The share of the flow that is fixed at its anchor in epoch `e`. */
  ghost function Share(t: seq<seq<Packet>>, e: nat, f: Flow): real
    requires e < |t|
  {
    if e == 0 then 0.0 else Ratio(Carried(t, e, f), Weight(t, e))
  }

  /** The bytes of the flow in the epochs from `d` on. */
  function BytesFrom(t: seq<seq<Packet>>, d: nat, f: Flow): nat {
    if |t| <= d then 0 else BytesFrom(t[..|t| - 1], d, f) + BytesIn(t[|t| - 1], f)
  }

  // ---------------------------------------------------------------------
  // The invariant that ties the state to the trace

  /** The k-th packet of epoch `d` made the flow known, and was marked like `priority`. */
  ghost predicate CreatedAt(t: seq<seq<Packet>>, d: nat, k: nat, f: Flow, priority: bool) {
    d < |t| && k < |t[d]| && t[d][k].flow == f && t[d][k].priority == priority && !SeenBefore(t, d, k, f)
  }

  ghost predicate Created(t: seq<seq<Packet>>, f: Flow, priority: bool) {
    exists d: nat, k: nat :: CreatedAt(t, d, k, f, priority)
  }

  /** What a flow's record holds: the epoch of its last anchor, the bytes since then, and
      the share fixed there. */
  ghost predicate Accounts(st: FlowState, t: seq<seq<Packet>>, f: Flow) {
    && st.epoch < |t| && Anchored(t, st.epoch, f)
    && (forall d :: st.epoch < d < |t| ==> !Anchored(t, d, f))
    && st.bytes == Tail(t, st.epoch, f) + BytesFrom(t, st.epoch + 1, f)
    && st.prob == Share(t, st.epoch, f)
  }

  ghost predicate Counters(sh: Shard, t: seq<seq<Packet>>)
    requires t != []
  {
    var e := |t| - 1;
    && sh.bytes == TotalIn(t[e]) % TWO32 && sh.packets == |t[e]| % TWO32
    && sh.oldBytes == (if e == 0 then 0 else Weight(t, e))
    && sh.oldPackets == (if e == 0 then 0 else |t[e - 1]| % TWO32)
  }

  /** The flows listed are exactly those hit in the last ended epoch. */
  ghost predicate ListsEnded(fs: seq<Flow>, t: seq<seq<Packet>>)
    requires t != []
  {
    forall f :: f in fs <==> |t| != 1 && HitIn(t, |t| - 2, f)
  }

  ghost predicate HasShares(sh: Shard, t: seq<seq<Packet>>)
    requires t != []
  {
    forall i :: 0 <= i < |sh.ordered| ==>
      sh.ordered[i] in sh.table && |t| != 1 && sh.table[sh.ordered[i]].prob2 == Share(t, |t| - 2, sh.ordered[i])
  }

  /** The list left by the last epoch step: exactly the flows hit in the epoch that it
      ended, by descending share, each with its share and running sum. */
  ghost predicate OrderedList(sh: Shard, t: seq<seq<Packet>>)
    requires t != []
  {
    var fs := sh.ordered;
    && NoDuplicates(fs) && ListsEnded(fs, t) && HasShares(sh, t)
    && (forall i, j :: 0 <= i < j < |fs| ==> sh.table[fs[i]].prob2 >= sh.table[fs[j]].prob2)
    && (forall k :: 0 <= k < |fs| ==> sh.table[fs[k]].cdf == ListedSum(sh.table, fs, k + 1))
  }

  /** The table knows exactly the flows that were seen. */
  ghost predicate KnowsSeen(sh: Shard, t: seq<seq<Packet>>) {
    forall f :: f in sh.table <==> Seen(t, f)
  }

  ghost predicate AllAccount(sh: Shard, t: seq<seq<Packet>>) {
    forall f :: f in sh.table ==> Accounts(sh.table[f], t, f)
  }

  /** A record keeps the mark of the packet that made its flow known. */
  ghost predicate KeepsMarks(sh: Shard, t: seq<seq<Packet>>) {
    forall f :: f in sh.table ==> Created(t, f, sh.table[f].priority)
  }

  /** The buffer holds exactly the flows hit in the running epoch. */
  ghost predicate BufferIsLog(sh: Shard, t: seq<seq<Packet>>)
    requires t != []
  {
    forall f :: f in sh.current <==> HitIn(t, |t| - 1, f)
  }

  /** A flow that no finished epoch hit has never been listed: its running sum is still 0. */
  ghost predicate NeverListed(sh: Shard, t: seq<seq<Packet>>)
    requires t != []
  {
    forall f :: f in sh.table && (forall d :: 0 <= d < |t| - 1 ==> !HitIn(t, d, f)) ==> sh.table[f].cdf == 0.0
  }

  ghost predicate Inv(sh: Shard, t: seq<seq<Packet>>)
    requires t != []
  {
    && KnowsSeen(sh, t)
    && AllAccount(sh, t)
    && KeepsMarks(sh, t)
    && BufferIsLog(sh, t)
    && sh.other == {}
    && Counters(sh, t)
    && OrderedList(sh, t)
    && NeverListed(sh, t)
  }

  // ---------------------------------------------------------------------
  // A packet arrives

  function Snoc(t: seq<seq<Packet>>, p: Packet): seq<seq<Packet>>
    requires t != []
  {
    t[..|t| - 1] + [t[|t| - 1] + [p]]
  }

  /** Two traces with the same first epochs. */
  ghost predicate Agree(t: seq<seq<Packet>>, t': seq<seq<Packet>>, n: nat) {
    n <= |t| && n <= |t'| && forall d :: 0 <= d < n ==> t'[d] == t[d]
  }

  lemma SnocAgrees(t: seq<seq<Packet>>, p: Packet)
    requires t != []
    ensures var t' := Snoc(t, p);
            Agree(t, t', |t| - 1) && |t'| == |t| && t'[|t| - 1] == t[|t| - 1] + [p]
  {
  }

  /** What happened before is settled. */
  lemma EarlierAgrees(t: seq<seq<Packet>>, t': seq<seq<Packet>>, n: nat, f: Flow)
    requires Agree(t, t', n)
    ensures SeenEarlier(t', n, f) <==> SeenEarlier(t, n, f)
  {
    if SeenEarlier(t, n, f) {
      var d :| 0 <= d < n && OccursIn(t[d], f);
      assert OccursIn(t'[d], f);
    }
    if SeenEarlier(t', n, f) {
      var d :| 0 <= d < n && OccursIn(t'[d], f);
      assert OccursIn(t[d], f);
    }
  }

  lemma EpochAgrees(t: seq<seq<Packet>>, t': seq<seq<Packet>>, e: nat, f: Flow)
    requires Agree(t, t', e + 1)
    ensures Anchor(t', e, f) == Anchor(t, e, f) && Tail(t', e, f) == Tail(t, e, f)
    ensures Anchored(t', e, f) <==> Anchored(t, e, f)
  {
    EarlierAgrees(t, t', e, f);
    assert t'[e] == t[e];
  }

  lemma ShareAgrees(t: seq<seq<Packet>>, t': seq<seq<Packet>>, e: nat, f: Flow)
    requires Agree(t, t', e + 1)
    ensures Share(t', e, f) == Share(t, e, f)
  {
    EpochAgrees(t, t', e, f);
    assert t'[e] == t[e];
    if 0 < e {
      EpochAgrees(t, t', e - 1, f);
      assert t'[e - 1] == t[e - 1];
    }
  }

  lemma HitAgrees(t: seq<seq<Packet>>, t': seq<seq<Packet>>, e: nat, f: Flow)
    requires Agree(t, t', e + 1)
    ensures HitIn(t', e, f) <==> HitIn(t, e, f)
  {
    EarlierAgrees(t, t', e, f);
    assert t'[e] == t[e];
    if HitIn(t, e, f) {
      var k :| 0 <= k < |t[e]| && t[e][k].flow == f && !t[e][k].priority && SeenBefore(t, e, k, f);
      assert SeenBefore(t', e, k, f);
      assert t'[e][k].flow == f;
    }
    if HitIn(t', e, f) {
      var k :| 0 <= k < |t'[e]| && t'[e][k].flow == f && !t'[e][k].priority && SeenBefore(t', e, k, f);
      assert SeenBefore(t, e, k, f);
      assert t[e][k].flow == f;
    }
  }

  lemma OccursSnoc(pkts: seq<Packet>, p: Packet, f: Flow)
    ensures OccursIn(pkts + [p], f) <==> OccursIn(pkts, f) || f == p.flow
  {
    var pkts' := pkts + [p];
    if OccursIn(pkts, f) {
      var k :| 0 <= k < |pkts| && pkts[k].flow == f;
      assert pkts'[k].flow == f;
    }
    if f == p.flow {
      assert pkts'[|pkts|].flow == f;
    }
  }

  lemma BytesSnoc(pkts: seq<Packet>, p: Packet, f: Flow)
    ensures BytesIn(pkts + [p], f) == BytesIn(pkts, f) + if p.flow == f then p.len else 0
    ensures TotalIn(pkts + [p]) == TotalIn(pkts) + p.len
  {
    assert (pkts + [p])[..|pkts|] == pkts;
  }

  lemma SeenSnoc(t: seq<seq<Packet>>, p: Packet, f: Flow)
    requires t != []
    ensures Seen(Snoc(t, p), f) <==> Seen(t, f) || f == p.flow
  {
    var n, t' := |t| - 1, Snoc(t, p);
    SnocAgrees(t, p);
    OccursSnoc(t[n], p, f);
    EarlierAgrees(t, t', n, f);
    SeenIsEarlierOrNow(t, f);
    SeenIsEarlierOrNow(t', f);
  }

  lemma SeenIsEarlierOrNow(t: seq<seq<Packet>>, f: Flow)
    requires t != []
    ensures Seen(t, f) <==> SeenEarlier(t, |t| - 1, f) || OccursIn(t[|t| - 1], f)
  {
    if OccursIn(t[|t| - 1], f) {
      var d := |t| - 1;
      assert 0 <= d < |t| && OccursIn(t[d], f);
    }
  }

  /** The flow was known before the k-th packet of the running epoch; packets appended
      later do not change that. */
  lemma SeenBeforeSnoc(t: seq<seq<Packet>>, p: Packet, k: nat, f: Flow)
    requires t != [] && k <= |t[|t| - 1]|
    ensures |Snoc(t, p)| == |t| && k <= |Snoc(t, p)[|t| - 1]|
    ensures SeenBefore(Snoc(t, p), |t| - 1, k, f) <==> SeenBefore(t, |t| - 1, k, f)
  {
    var n, t' := |t| - 1, Snoc(t, p);
    SnocAgrees(t, p);
    EarlierAgrees(t, t', n, f);
    assert t'[n][..k] == t[n][..k];
  }

  lemma SeenIsBeforeEnd(t: seq<seq<Packet>>, f: Flow)
    requires t != []
    ensures Seen(t, f) <==> SeenBefore(t, |t| - 1, |t[|t| - 1]|, f)
  {
    var n := |t| - 1;
    assert t[n][..|t[n]|] == t[n];
    SeenIsEarlierOrNow(t, f);
  }

  lemma HitSnoc(t: seq<seq<Packet>>, p: Packet, f: Flow)
    requires t != []
    ensures HitIn(Snoc(t, p), |t| - 1, f) <==>
              HitIn(t, |t| - 1, f) || (f == p.flow && !p.priority && Seen(t, f))
  {
    var n, t' := |t| - 1, Snoc(t, p);
    var m := |t[n]|;
    assert forall k :: 0 <= k < m ==> t'[n][k] == t[n][k];
    assert t'[n][m] == p;
    SeenIsBeforeEnd(t, f);
    SeenBeforeSnoc(t, p, m, f);
    if HitIn(t, n, f) {
      var k :| 0 <= k < m && t[n][k].flow == f && !t[n][k].priority && SeenBefore(t, n, k, f);
      SeenBeforeSnoc(t, p, k, f);
      assert t'[n][k].flow == f;
    }
    if HitIn(t', n, f) {
      var k :| 0 <= k < |t'[n]| && t'[n][k].flow == f && !t'[n][k].priority && SeenBefore(t', n, k, f);
      if k < m {
        SeenBeforeSnoc(t, p, k, f);
        assert t[n][k].flow == f;
      }
    }
  }

  lemma FirstSnoc(pkts: seq<Packet>, p: Packet, f: Flow, unmarked: bool)
    ensures FirstPacket(pkts + [p], f, unmarked) ==
            var k := FirstPacket(pkts, f, unmarked);
            if k < |pkts| || (p.flow == f && (unmarked ==> !p.priority)) then k else |pkts| + 1
  {
    assert (pkts + [p])[..|pkts|] == pkts;
  }

  /** A flow that did not occur in some packets sent no bytes in them. */
  lemma {:induction false} NoBytes(pkts: seq<Packet>, f: Flow)
    requires !OccursIn(pkts, f)
    ensures BytesIn(pkts, f) == 0
  {
    if pkts != [] {
      var n := |pkts| - 1;
      assert forall k :: 0 <= k < n ==> pkts[..n][k] == pkts[k];
      assert pkts[n].flow != f;
      NoBytes(pkts[..n], f);
    }
  }

  /** The first packet is found. */
  lemma {:induction false} FirstIsFirst(pkts: seq<Packet>, f: Flow, unmarked: bool, j: nat)
    requires j < |pkts| && pkts[j].flow == f && (unmarked ==> !pkts[j].priority)
    ensures FirstPacket(pkts, f, unmarked) <= j
  {
    var n := |pkts| - 1;
    if j < n {
      FirstIsFirst(pkts[..n], f, unmarked, j);
    }
  }

  /** The anchor of the running epoch after one more packet. */
  lemma AnchorSnoc(t: seq<seq<Packet>>, p: Packet, f: Flow)
    requires t != []
    ensures var n, t' := |t| - 1, Snoc(t, p);
            && |t'| == |t|
            && Anchor(t', n, f) ==
               (if Anchored(t, n, f) || (p.flow == f && (SeenEarlier(t, n, f) ==> !p.priority)) then Anchor(t, n, f)
                else |t[n]| + 1)
            && (Anchored(t, n, f) ==>
                  Anchored(t', n, f) && Tail(t', n, f) == Tail(t, n, f) + if p.flow == f then p.len else 0)
  {
    var n, t' := |t| - 1, Snoc(t, p);
    SnocAgrees(t, p);
    EarlierAgrees(t, t', n, f);
    FirstSnoc(t[n], p, f, SeenEarlier(t, n, f));
    var a := Anchor(t, n, f);
    assert t'[n][a..] == t[n][a..] + [p];
    BytesSnoc(t[n][a..], p, f);
  }

  lemma BytesFromSnoc(t: seq<seq<Packet>>, p: Packet, d: nat, f: Flow)
    requires t != []
    ensures BytesFrom(Snoc(t, p), d, f) == BytesFrom(t, d, f) + if d < |t| && p.flow == f then p.len else 0
  {
    var n, t' := |t| - 1, Snoc(t, p);
    assert t'[..n] == t[..n];
    BytesSnoc(t[n], p, f);
  }

  /** A seen flow that has no packet in an epoch before the running one, or only marked ones,
      is unanchored there; a seen flow that is unanchored in the running epoch was seen
      earlier. */
  lemma UnanchoredIsOld(t: seq<seq<Packet>>, f: Flow)
    requires t != [] && Seen(t, f) && !Anchored(t, |t| - 1, f)
    ensures SeenEarlier(t, |t| - 1, f)
  {
    var n := |t| - 1;
    SeenIsEarlierOrNow(t, f);
    if !SeenEarlier(t, n, f) {
      var j :| 0 <= j < |t[n]| && t[n][j].flow == f;
      FirstIsFirst(t[n], f, false, j);
      assert false;
    }
  }

  lemma UnseenIsUnanchored(t: seq<seq<Packet>>, e: nat, f: Flow)
    requires e < |t| && !Seen(t, f)
    ensures !SeenEarlier(t, e, f) && !OccursIn(t[e], f) && !Anchored(t, e, f)
  {
    assert !OccursIn(t[e], f);
  }

  /** The packet does not make a new anchor for the flow: it only adds to its bytes. */
  lemma AccountsSame(st: FlowState, st': FlowState, t: seq<seq<Packet>>, p: Packet, f: Flow)
    requires t != [] && Accounts(st, t, f)
    requires Anchored(t, |t| - 1, f) || p.flow != f || (p.priority && SeenEarlier(t, |t| - 1, f))
    requires st'.epoch == st.epoch && st'.prob == st.prob && st'.bytes == st.bytes + if p.flow == f then p.len else 0
    ensures Accounts(st', Snoc(t, p), f)
  {
    var n, t' := |t| - 1, Snoc(t, p);
    SnocAgrees(t, p);
    AnchorSnoc(t, p, f);
    forall d | 0 <= d < n
      ensures (Anchored(t', d, f) <==> Anchored(t, d, f)) && Tail(t', d, f) == Tail(t, d, f)
    {
      EpochAgrees(t, t', d, f);
    }
    BytesFromSnoc(t, p, st.epoch + 1, f);
    SharesSnoc(t, p, st.epoch, f);
  }

  /** A share that is fixed stays. */
  lemma SharesSnoc(t: seq<seq<Packet>>, p: Packet, e: nat, f: Flow)
    requires e < |t| && Anchored(t, e, f)
    ensures |Snoc(t, p)| == |t| && Share(Snoc(t, p), e, f) == Share(t, e, f)
  {
    var n, t' := |t| - 1, Snoc(t, p);
    SnocAgrees(t, p);
    if e < n {
      ShareAgrees(t, t', e, f);
    } else if 0 < n {
      AnchorSnoc(t, p, f);
      EpochAgrees(t, t', n - 1, f);
      var a := Anchor(t, n, f);
      assert t'[n][..a] == t[n][..a];
      assert t'[n - 1] == t[n - 1];
    }
  }

  /** The packet is a new anchor of its flow. */
  lemma AnchorAnew(t: seq<seq<Packet>>, p: Packet)
    requires 1 < |t| && !Anchored(t, |t| - 1, p.flow) && !p.priority
    ensures var n, t', f := |t| - 1, Snoc(t, p), p.flow;
            && |t'| == |t| && Anchored(t', n, f) && Tail(t', n, f) == p.len && Weight(t', n) == Weight(t, n)
            && Carried(t', n, f) == if Anchored(t, n - 1, f) then Tail(t, n - 1, f) + BytesIn(t[n], f) else 0
  {
    var n, t', f := |t| - 1, Snoc(t, p), p.flow;
    SnocAgrees(t, p);
    AnchorSnoc(t, p, f);
    EpochAgrees(t, t', n - 1, f);
    assert t'[n][|t[n]|..] == [p] && t'[n][..|t[n]|] == t[n];
    BytesSnoc([], p, f);
    assert [] + [p] == [p];
    assert t'[n - 1] == t[n - 1];
  }

  /** The flow is anchored anew: its bytes since the last anchor become its share. */
  lemma AccountsAnew(st: FlowState, st': FlowState, t: seq<seq<Packet>>, p: Packet, oldBytes: nat)
    requires t != [] && Accounts(st, t, p.flow) && st.epoch < |t| - 1 && !p.priority
    requires oldBytes == Weight(t, |t| - 1)
    requires st' == RollOver(st, |t| - 1, oldBytes).(bytes := p.len)
    ensures Accounts(st', Snoc(t, p), p.flow)
  {
    ShareAnew(st, t, p, oldBytes);
    AnchorAnew(t, p);
    AccountsLast(st', Snoc(t, p), p.flow);
  }

  lemma ShareAnew(st: FlowState, t: seq<seq<Packet>>, p: Packet, oldBytes: nat)
    requires t != [] && Accounts(st, t, p.flow) && st.epoch < |t| - 1 && !p.priority
    requires oldBytes == Weight(t, |t| - 1)
    ensures !Anchored(t, |t| - 1, p.flow)
    ensures RollOver(st, |t| - 1, oldBytes).prob == Share(Snoc(t, p), |t| - 1, p.flow)
  {
    assert !Anchored(t, |t| - 1, p.flow);
    AnchorAnew(t, p);
    BytesCarried(st, t, p.flow);
  }

  /** A record that was anchored in the running epoch. */
  lemma AccountsLast(st: FlowState, t: seq<seq<Packet>>, f: Flow)
    requires t != [] && st.epoch == |t| - 1 && Anchored(t, |t| - 1, f)
    requires st.bytes == Tail(t, |t| - 1, f) && st.prob == Share(t, |t| - 1, f)
    ensures Accounts(st, t, f)
  {
  }

  /** The bytes that a record has counted by the end of an epoch without anchor are those that it
      carries into that epoch, if it was anchored in the one before. */
  lemma BytesCarried(st: FlowState, t: seq<seq<Packet>>, f: Flow)
    requires 1 < |t| && Accounts(st, t, f) && st.epoch < |t| - 1
    ensures Anchored(t, |t| - 2, f) <==> st.epoch == |t| - 2
    ensures st.epoch == |t| - 2 ==> st.bytes == Tail(t, |t| - 2, f) + BytesIn(t[|t| - 1], f)
  {
    if st.epoch == |t| - 2 {
      BytesOfLast(t, f);
    } else {
      assert !Anchored(t, |t| - 2, f);
    }
  }

  lemma BytesOfLast(t: seq<seq<Packet>>, f: Flow)
    requires t != []
    ensures BytesFrom(t, |t| - 1, f) == BytesIn(t[|t| - 1], f)
  {
    assert BytesFrom(t[..|t| - 1], |t| - 1, f) == 0;
  }

  /** The record of a flow after its first packet. */
  lemma AccountsNew(st': FlowState, t: seq<seq<Packet>>, p: Packet)
    requires t != [] && !Seen(t, p.flow)
    requires st'.epoch == |t| - 1 && st'.bytes == p.len && st'.prob == 0.0
    ensures Accounts(st', Snoc(t, p), p.flow)
  {
    var n, t', f := |t| - 1, Snoc(t, p), p.flow;
    SnocAgrees(t, p);
    AnchorSnoc(t, p, f);
    UnseenIsUnanchored(t, n, f);
    assert t'[n][|t[n]|..] == [p];
    BytesSnoc([], p, f);
    assert [] + [p] == [p];
    if 0 < n {
      UnseenIsUnanchored(t, n - 1, f);
      EpochAgrees(t, t', n - 1, f);
    }
  }

  /** The record of a known flow after one of its packets. */
  lemma AccountsHit(st: FlowState, t: seq<seq<Packet>>, p: Packet, oldBytes: nat)
    requires t != [] && Accounts(st, t, p.flow) && Seen(t, p.flow)
    requires 1 < |t| ==> oldBytes == Weight(t, |t| - 1)
    ensures var st1 := if p.priority then st else RollOver(st, |t| - 1, oldBytes);
            Accounts(st1.(bytes := st1.bytes + p.len), Snoc(t, p), p.flow)
  {
    var n, f := |t| - 1, p.flow;
    var st1 := if p.priority then st else RollOver(st, n, oldBytes);
    var st' := st1.(bytes := st1.bytes + p.len);
    if Anchored(t, n, f) {
      assert st.epoch == n;
      AccountsSame(st, st', t, p, f);
    } else {
      UnanchoredIsOld(t, f);
      if p.priority {
        AccountsSame(st, st', t, p, f);
      } else {
        AccountsAnew(st, st', t, p, oldBytes);
      }
    }
  }

  lemma CreatedSnoc(t: seq<seq<Packet>>, p: Packet, f: Flow, priority: bool)
    requires t != [] && Created(t, f, priority)
    ensures Created(Snoc(t, p), f, priority)
  {
    var d: nat, k: nat :| CreatedAt(t, d, k, f, priority);
    var t' := Snoc(t, p);
    SnocAgrees(t, p);
    if d == |t| - 1 {
      SeenBeforeSnoc(t, p, k, f);
    } else {
      EarlierAgrees(t, t', d, f);
      assert t'[d] == t[d];
    }
    assert CreatedAt(t', d, k, f, priority);
  }

  lemma CreatedNew(t: seq<seq<Packet>>, p: Packet)
    requires t != [] && !Seen(t, p.flow)
    ensures Created(Snoc(t, p), p.flow, p.priority)
  {
    var n, t' := |t| - 1, Snoc(t, p);
    SnocAgrees(t, p);
    SeenIsBeforeEnd(t, p.flow);
    SeenBeforeSnoc(t, p, |t[n]|, p.flow);
    assert CreatedAt(t', n, |t[n]|, p.flow, p.priority);
  }

  lemma CountersArrive(sh: Shard, sh': Shard, t: seq<seq<Packet>>, p: Packet)
    requires t != [] && Counters(sh, t)
    requires sh'.bytes == (sh.bytes + p.len) % TWO32 && sh'.packets == (sh.packets + 1) % TWO32
    requires sh'.oldBytes == sh.oldBytes && sh'.oldPackets == sh.oldPackets
    ensures Counters(sh', Snoc(t, p))
  {
    var n, t' := |t| - 1, Snoc(t, p);
    BytesSnoc(t[n], p, p.flow);
    AddMod(TotalIn(t[n]), p.len);
    AddMod(|t[n]|, 1);
    assert n != 0 ==> t'[n - 1] == t[n - 1];
  }

  /** Neither the listing nor any listed share or running sum has changed; flows that are
      new have no running sum. */
  ghost predicate SameLists(sh: Shard, sh': Shard) {
    && sh'.ordered == sh.ordered
    && (forall f :: f in sh.table ==>
          f in sh'.table && sh'.table[f].prob2 == sh.table[f].prob2 && sh'.table[f].cdf == sh.table[f].cdf)
    && (forall f :: f in sh'.table && f !in sh.table ==> sh'.table[f].cdf == 0.0)
  }

  /** What the list is checked against is settled before the packet comes. */
  lemma EndedArrive(fs: seq<Flow>, t: seq<seq<Packet>>, p: Packet)
    requires t != [] && ListsEnded(fs, t)
    ensures ListsEnded(fs, Snoc(t, p))
  {
    SnocAgrees(t, p);
    forall f ensures f in fs <==> |t| != 1 && HitIn(Snoc(t, p), |t| - 2, f) {
      if 1 < |t| {
        HitAgrees(t, Snoc(t, p), |t| - 2, f);
      }
    }
  }

  lemma SharesArrive(sh: Shard, sh': Shard, t: seq<seq<Packet>>, p: Packet)
    requires t != [] && HasShares(sh, t) && SameLists(sh, sh')
    ensures HasShares(sh', Snoc(t, p))
  {
    var t', fs := Snoc(t, p), sh'.ordered;
    SnocAgrees(t, p);
    forall i | 0 <= i < |fs|
      ensures fs[i] in sh'.table && |t'| != 1 && sh'.table[fs[i]].prob2 == Share(t', |t'| - 2, fs[i])
    {
      assert fs[i] == sh.ordered[i] && fs[i] in sh.table;
      assert sh.table[fs[i]].prob2 == Share(t, |t| - 2, fs[i]);
      ShareAgrees(t, t', |t| - 2, fs[i]);
    }
  }

  lemma ListArrive(sh: Shard, sh': Shard, t: seq<seq<Packet>>, p: Packet)
    requires t != [] && OrderedList(sh, t) && SameLists(sh, sh')
    ensures OrderedList(sh', Snoc(t, p))
  {
    EndedArrive(sh.ordered, t, p);
    SharesArrive(sh, sh', t, p);
    assert SharesOf(sh'.table, sh.ordered) == SharesOf(sh.table, sh.ordered);
  }

  lemma NeverListedArrive(sh: Shard, sh': Shard, t: seq<seq<Packet>>, p: Packet)
    requires t != [] && NeverListed(sh, t) && SameLists(sh, sh')
    ensures NeverListed(sh', Snoc(t, p))
  {
    var t' := Snoc(t, p);
    SnocAgrees(t, p);
    forall f | f in sh'.table && (forall d :: 0 <= d < |t'| - 1 ==> !HitIn(t', d, f))
      ensures sh'.table[f].cdf == 0.0
    {
      forall d | 0 <= d < |t| - 1 ensures !HitIn(t, d, f) {
        assert !HitIn(t', d, f);
        HitAgrees(t, t', d, f);
      }
    }
  }

  lemma BufferArrive(sh: Shard, sh': Shard, t: seq<seq<Packet>>, p: Packet)
    requires t != [] && KnowsSeen(sh, t) && BufferIsLog(sh, t)
    requires sh'.table.Keys == sh.table.Keys + {p.flow}
    requires sh'.current == sh.current + (if p.flow in sh.table && !p.priority then {p.flow} else {})
    ensures KnowsSeen(sh', Snoc(t, p)) && BufferIsLog(sh', Snoc(t, p))
  {
    var t' := Snoc(t, p);
    forall f ensures f in sh'.table <==> Seen(t', f) {
      SeenSnoc(t, p, f);
      assert f in sh'.table <==> f in sh'.table.Keys;
    }
    forall f ensures f in sh'.current <==> HitIn(t', |t| - 1, f) {
      HitSnoc(t, p, f);
    }
  }

  lemma AccountsArrive(sh: Shard, sh': Shard, t: seq<seq<Packet>>, p: Packet)
    requires t != [] && AllAccount(sh, t)
    requires sh'.table.Keys == sh.table.Keys + {p.flow}
    requires forall f :: f in sh.table && f != p.flow ==> sh'.table[f] == sh.table[f]
    requires Accounts(sh'.table[p.flow], Snoc(t, p), p.flow)
    ensures AllAccount(sh', Snoc(t, p))
  {
    forall f | f in sh'.table ensures Accounts(sh'.table[f], Snoc(t, p), f) {
      assert f in sh'.table.Keys;
      if f != p.flow {
        AccountsSame(sh.table[f], sh.table[f], t, p, f);
      }
    }
  }

  lemma MarksArrive(sh: Shard, sh': Shard, t: seq<seq<Packet>>, p: Packet)
    requires t != [] && KnowsSeen(sh, t) && KeepsMarks(sh, t)
    requires sh'.table.Keys == sh.table.Keys + {p.flow}
    requires forall f :: f in sh.table ==> sh'.table[f].priority == sh.table[f].priority
    requires p.flow !in sh.table ==> sh'.table[p.flow].priority == p.priority
    ensures KeepsMarks(sh', Snoc(t, p))
  {
    forall f | f in sh'.table ensures Created(Snoc(t, p), f, sh'.table[f].priority) {
      assert f in sh'.table.Keys;
      if f in sh.table {
        CreatedSnoc(t, p, f, sh.table[f].priority);
      } else {
        CreatedNew(t, p);
      }
    }
  }

  /** What a packet does to the record of its flow. */
  ghost predicate OwnStep(sh: Shard, epoch: nat, p: Packet, st': FlowState) {
    if p.flow in sh.table then
      var st := if p.priority then sh.table[p.flow] else RollOver(sh.table[p.flow], epoch, sh.oldBytes);
      st' == st.(bytes := st.bytes + p.len)
    else st' == FlowState(0.0, 0.0, 0.0, p.priority, epoch, p.len)
  }

  /** What a packet does to the other parts of the shard. */
  ghost predicate Arrives(sh: Shard, sh': Shard, epoch: nat, p: Packet) {
    && sh'.table.Keys == sh.table.Keys + {p.flow}
    && (forall f :: f in sh.table && f != p.flow ==> sh'.table[f] == sh.table[f])
    && (forall f :: f in sh.table ==> sh'.table[f].priority == sh.table[f].priority)
    && (p.flow !in sh.table ==> sh'.table[p.flow].priority == p.priority)
    && sh'.current == sh.current + (if p.flow in sh.table && !p.priority then {p.flow} else {})
    && sh'.other == sh.other
    && sh'.bytes == (sh.bytes + p.len) % TWO32 && sh'.packets == (sh.packets + 1) % TWO32
    && sh'.oldBytes == sh.oldBytes && sh'.oldPackets == sh.oldPackets
    && SameLists(sh, sh')
    && OwnStep(sh, epoch, p, sh'.table[p.flow])
  }

  lemma ExtractFacts(sh: Shard, epoch: nat, p: Packet)
    ensures Arrives(sh, Extract(sh, epoch, p), epoch, p)
  {
  }

  lemma AccountsOwn(sh: Shard, st': FlowState, t: seq<seq<Packet>>, p: Packet)
    requires t != [] && OwnStep(sh, |t| - 1, p, st') && (1 < |t| ==> sh.oldBytes == Weight(t, |t| - 1))
    requires p.flow in sh.table <==> Seen(t, p.flow)
    requires p.flow in sh.table ==> Accounts(sh.table[p.flow], t, p.flow)
    ensures Accounts(st', Snoc(t, p), p.flow)
  {
    if p.flow in sh.table {
      AccountsHit(sh.table[p.flow], t, p, sh.oldBytes);
    } else {
      AccountsNew(st', t, p);
    }
  }

  lemma RecordsArrive(sh: Shard, sh': Shard, t: seq<seq<Packet>>, p: Packet)
    requires t != [] && Arrives(sh, sh', |t| - 1, p)
    requires KnowsSeen(sh, t) && AllAccount(sh, t) && KeepsMarks(sh, t)
    requires 1 < |t| ==> sh.oldBytes == Weight(t, |t| - 1)
    ensures AllAccount(sh', Snoc(t, p)) && KeepsMarks(sh', Snoc(t, p))
  {
    AccountsOwn(sh, sh'.table[p.flow], t, p);
    AccountsArrive(sh, sh', t, p);
    MarksArrive(sh, sh', t, p);
  }

  /** One packet keeps the invariant, whatever its mark. */
  lemma InvArrive(sh: Shard, t: seq<seq<Packet>>, p: Packet)
    requires t != [] && Inv(sh, t)
    ensures Inv(Extract(sh, |t| - 1, p), Snoc(t, p))
  {
    var sh' := Extract(sh, |t| - 1, p);
    ExtractFacts(sh, |t| - 1, p);
    RecordsArrive(sh, sh', t, p);
    BufferArrive(sh, sh', t, p);
    CountersArrive(sh, sh', t, p);
    ListArrive(sh, sh', t, p);
    NeverListedArrive(sh, sh', t, p);
  }

  // ---------------------------------------------------------------------
  // An epoch ends

  lemma HitLast(t: seq<seq<Packet>>, f: Flow)
    requires t != []
    ensures HitIn(t + [[]], |t| - 1, f) <==> HitIn(t, |t| - 1, f)
    ensures !HitIn(t + [[]], |t|, f)
    ensures Share(t + [[]], |t| - 1, f) == Share(t, |t| - 1, f)
  {
    HitAgrees(t, t + [[]], |t| - 1, f);
    ShareAgrees(t, t + [[]], |t| - 1, f);
  }

  lemma SeenTick(t: seq<seq<Packet>>, f: Flow)
    ensures Seen(t + [[]], f) <==> Seen(t, f)
  {
    EarlierAgrees(t, t + [[]], |t|, f);
    SeenIsEarlierOrNow(t + [[]], f);
  }

  /** A flow hit in the running epoch is anchored there, so it carries the share fixed
      there. */
  lemma HitHasShare(st: FlowState, t: seq<seq<Packet>>, f: Flow)
    requires t != [] && HitIn(t, |t| - 1, f) && Accounts(st, t, f)
    ensures st.prob == Share(t, |t| - 1, f)
  {
    var n := |t| - 1;
    var k :| 0 <= k < |t[n]| && t[n][k].flow == f && !t[n][k].priority && SeenBefore(t, n, k, f);
    FirstIsFirst(t[n], f, SeenEarlier(t, n, f), k);
    assert Anchored(t, n, f);
  }

  lemma HitIsSeen(t: seq<seq<Packet>>, f: Flow)
    requires t != [] && HitIn(t, |t| - 1, f)
    ensures Seen(t, f)
  {
    var n := |t| - 1;
    assert OccursIn(t[n], f);
    SeenIsEarlierOrNow(t, f);
  }

  ghost predicate BufferShares(sh: Shard, t': seq<seq<Packet>>)
    requires 1 < |t'|
  {
    forall f :: f in sh.current ==> f in sh.table && sh.table[f].prob == Share(t', |t'| - 2, f)
  }

  lemma BufferHasShares(sh: Shard, t: seq<seq<Packet>>)
    requires t != [] && KnowsSeen(sh, t) && AllAccount(sh, t) && BufferIsLog(sh, t)
    ensures BufferShares(sh, t + [[]])
  {
    forall f | f in sh.current ensures f in sh.table && sh.table[f].prob == Share(t + [[]], |t| - 1, f) {
      HitIsSeen(t, f);
      HitHasShare(sh.table[f], t, f);
      HitLast(t, f);
    }
  }

  lemma AccountsTick(st: FlowState, st': FlowState, t: seq<seq<Packet>>, f: Flow)
    requires t != [] && Accounts(st, t, f) && st' == st.(prob2 := st'.prob2, cdf := st'.cdf)
    ensures Accounts(st', t + [[]], f)
  {
    var t' := t + [[]];
    forall d | 0 <= d < |t|
      ensures (Anchored(t', d, f) <==> Anchored(t, d, f)) && Tail(t', d, f) == Tail(t, d, f)
    {
      EpochAgrees(t, t', d, f);
    }
    assert t'[..|t|] == t && t'[|t|] == [];
    ShareAgrees(t, t', st.epoch, f);
  }

  lemma CreatedTick(t: seq<seq<Packet>>, f: Flow, priority: bool)
    requires Created(t, f, priority)
    ensures Created(t + [[]], f, priority)
  {
    var d: nat, k: nat :| CreatedAt(t, d, k, f, priority);
    EarlierAgrees(t, t + [[]], d, f);
    assert CreatedAt(t + [[]], d, k, f, priority);
  }

  lemma ListedMembers(sh: Shard, sh': Shard, t: seq<seq<Packet>>)
    requires t != [] && BufferIsLog(sh, t)
    requires forall f :: f in sh.current <==> f in sh'.ordered
    ensures ListsEnded(sh'.ordered, t + [[]])
  {
    forall f ensures f in sh'.ordered <==> HitIn(t + [[]], |t| - 1, f) {
      HitLast(t, f);
    }
  }

  /** The listed flows come from the buffer, with their share and running sum. */
  ghost predicate ListedFrom(sh: Shard, sh': Shard) {
    && (forall i :: 0 <= i < |sh'.ordered| ==>
          sh'.ordered[i] in sh.current && sh'.ordered[i] in sh.table && sh'.ordered[i] in sh'.table)
    && (forall i :: 0 <= i < |sh'.ordered| ==>
          sh'.table[sh'.ordered[i]].prob2 == sh.table[sh'.ordered[i]].prob)
    && (forall i :: 0 <= i < |sh'.ordered| ==>
          sh'.table[sh'.ordered[i]].cdf == ListedSum(sh'.table, sh'.ordered, i + 1))
  }

  /** From the shares before the step to the list after it. */
  lemma ListFromShares(sh: Shard, sh': Shard, t': seq<seq<Packet>>)
    requires 1 < |t'| && Listing(sh.table, sh'.ordered) && ListedFrom(sh, sh')
    requires ListsEnded(sh'.ordered, t') && BufferShares(sh, t')
    ensures OrderedList(sh', t')
  {
  }

  lemma NeverListedTick(sh: Shard, sh': Shard, t: seq<seq<Packet>>)
    requires t != [] && NeverListed(sh, t) && ListsEnded(sh'.ordered, t + [[]])
    requires sh'.table.Keys == sh.table.Keys
    requires forall f :: f in sh.table && f !in sh'.ordered ==> sh'.table[f] == sh.table[f]
    ensures NeverListed(sh', t + [[]])
  {
    var t' := t + [[]];
    forall f | f in sh'.table && (forall d :: 0 <= d < |t'| - 1 ==> !HitIn(t', d, f))
      ensures sh'.table[f].cdf == 0.0
    {
      assert !HitIn(t', |t| - 1, f);
      assert f !in sh'.ordered;
      forall d | 0 <= d < |t| - 1 ensures !HitIn(t, d, f) {
        assert !HitIn(t', d, f);
        HitAgrees(t, t', d, f);
      }
    }
  }

  lemma AccountTick(sh: Shard, sh': Shard, t: seq<seq<Packet>>)
    requires t != [] && KnowsSeen(sh, t) && AllAccount(sh, t) && KeepsMarks(sh, t)
    requires sh'.table.Keys == sh.table.Keys
    requires forall f :: f in sh.table ==>
               sh'.table[f] == sh.table[f].(prob2 := sh'.table[f].prob2, cdf := sh'.table[f].cdf)
    ensures KnowsSeen(sh', t + [[]]) && AllAccount(sh', t + [[]]) && KeepsMarks(sh', t + [[]])
  {
    var t' := t + [[]];
    forall f ensures f in sh'.table <==> Seen(t', f) {
      SeenTick(t, f);
      assert f in sh'.table.Keys <==> f in sh.table.Keys;
    }
    forall f | f in sh'.table ensures Accounts(sh'.table[f], t', f) && Created(t', f, sh'.table[f].priority) {
      AccountsTick(sh.table[f], sh'.table[f], t, f);
      CreatedTick(t, f, sh.table[f].priority);
    }
  }

  /** What an epoch step does, flow by flow. */
  lemma EpochFacts(sh: Shard, sh': Shard)
    requires EpochStep(sh, sh')
    ensures Listing(sh.table, sh'.ordered) && sh'.table.Keys == sh.table.Keys
    ensures forall f :: f in sh.current <==> f in sh'.ordered
    ensures forall f :: f in sh.table ==>
              sh'.table[f] == sh.table[f].(prob2 := sh'.table[f].prob2, cdf := sh'.table[f].cdf)
    ensures forall f :: f in sh.table && f !in sh'.ordered ==> sh'.table[f] == sh.table[f]
    ensures ListedFrom(sh, sh')
    ensures sh'.current == sh.other && sh'.other == {}
    ensures sh'.bytes == 0 && sh'.packets == 0 && sh'.oldBytes == sh.bytes && sh'.oldPackets == sh.packets
  {
    forall f | f in sh.table
      ensures sh'.table[f] == sh.table[f].(prob2 := sh'.table[f].prob2, cdf := sh'.table[f].cdf)
    {
      if f in sh'.ordered {
        var k :| 0 <= k < |sh'.ordered| && sh'.ordered[k] == f;
      }
    }
  }

  /** One epoch step keeps the invariant. */
  lemma InvTick(sh: Shard, sh': Shard, t: seq<seq<Packet>>)
    requires t != [] && Inv(sh, t) && EpochStep(sh, sh')
    ensures Inv(sh', t + [[]])
  {
    var t' := t + [[]];
    EpochFacts(sh, sh');
    AccountTick(sh, sh', t);
    ListedMembers(sh, sh', t);
    BufferHasShares(sh, t);
    ListFromShares(sh, sh', t');
    NeverListedTick(sh, sh', t);
    assert t'[|t|] == [] && t'[|t| - 1] == t[|t| - 1];
    assert BufferIsLog(sh', t') by {
      forall f ensures !HitIn(t', |t|, f) {
        HitLast(t, f);
      }
    }
  }

  // ---------------------------------------------------------------------
  // Runs

  /** In every state of every run the double-buffered state refines the plain trace of
      packets. */
  lemma {:induction false} RunRefinesTrace(states: seq<Shard>, evs: seq<Event>, i: nat)
    requires IsRun(states, evs) && i <= |evs|
    ensures Inv(states[i], TraceOf(evs[..i]))
    decreases i
  {
    if i == 0 {
      assert evs[..0] == [];
      InvStart();
    } else {
      var now := evs[..i];
      RunRefinesTrace(states, evs, i - 1);
      assert Step(states[i - 1], EpochAfter(evs[..i - 1]), evs[i - 1], states[i]);
      assert now[..|now| - 1] == evs[..i - 1] && now[|now| - 1] == evs[i - 1];
      StepRefines(states[i - 1], states[i], now);
    }
  }

  /** The last of some events takes one more step along. */
  lemma StepRefines(sh: Shard, sh': Shard, evs: seq<Event>)
    requires evs != []
    requires var before := evs[..|evs| - 1];
             Inv(sh, TraceOf(before)) && Step(sh, EpochAfter(before), evs[|evs| - 1], sh')
    ensures Inv(sh', TraceOf(evs))
  {
    var before := evs[..|evs| - 1];
    EpochOfTrace(before);
    match evs[|evs| - 1]
    case Arrive(p) => InvArrive(sh, TraceOf(before), p);
    case Tick => InvTick(sh, sh', TraceOf(before));
  }

  lemma InvStart()
    ensures Inv(EMPTY_SHARD, [[]])
  {
    var t: seq<seq<Packet>> := [[]];
    forall f ensures !Seen(t, f) && !HitIn(t, 0, f) {
      assert !OccursIn(t[0], f);
    }
  }

  // ---------------------------------------------------------------------
  // The steps in figures

  /** One packet: a new flow enters the table only; a known flow whose packet is unmarked is
      recorded in the buffer in use, and in a new epoch gets its share and counts afresh. */
  lemma PacketInFigures(sh: Shard, epoch: nat, p: Packet)
    ensures var f, sh' := p.flow, Extract(sh, epoch, p);
            && sh'.table.Keys == sh.table.Keys + {f}
            && (forall g :: g in sh.table && g != f ==> sh'.table[g] == sh.table[g])
            && sh'.current == (if f in sh.table && !p.priority then sh.current + {f} else sh.current)
            && sh'.other == sh.other && sh'.ordered == sh.ordered
            && sh'.bytes == (sh.bytes + p.len) % 0x1_0000_0000 && sh'.packets == (sh.packets + 1) % 0x1_0000_0000
            && sh'.oldBytes == sh.oldBytes && sh'.oldPackets == sh.oldPackets
            && (f !in sh.table ==> sh'.table[f] == FlowState(0.0, 0.0, 0.0, p.priority, epoch, p.len))
            && (f in sh.table ==>
                  var st, st' := sh.table[f], sh'.table[f];
                  if p.priority || st.epoch == epoch then st' == st.(bytes := st.bytes + p.len)
                  else
                    && st' == st.(prob := st'.prob, bytes := p.len, epoch := epoch)
                    && (st.epoch + 1 != epoch || sh.oldBytes == 0 ==> st'.prob == 0.0)
                    && (st.epoch + 1 == epoch && sh.oldBytes != 0 ==>
                          st'.prob * sh.oldBytes as real == st.bytes as real))
  {
    if p.flow in sh.table && sh.oldBytes != 0 {
      var b, n := sh.table[p.flow].bytes as real, sh.oldBytes as real;
      assert b / n * n == b;
    }
  }

  /** A step gives a known flow another running sum only if it lists the flow. */
  lemma SumsMove(sh: Shard, epoch: nat, ev: Event, sh': Shard, f: Flow)
    requires Step(sh, epoch, ev, sh') && f in sh.table
    ensures f in sh'.table && sh'.table[f].priority == sh.table[f].priority
    ensures !(ev.Tick? && f in sh'.ordered) ==>
              sh'.table[f].cdf == sh.table[f].cdf && sh'.table[f].prob2 == sh.table[f].prob2
    ensures ev.Arrive? ==> sh'.ordered == sh.ordered
    ensures ev.Tick? ==>
              && sh'.table[f].bytes == sh.table[f].bytes && sh'.table[f].epoch == sh.table[f].epoch
              && sh'.table[f].prob == sh.table[f].prob
  {
    if ev.Tick? && f in sh'.ordered {
      var k: nat :| k < |sh'.ordered| && sh'.ordered[k] == f;
      assert sh'.table[sh'.ordered[k]].prob == sh.table[f].prob;
    }
  }

  /** The running sum of a flow is that of the last list it was on, however many epochs ago. */
  lemma {:induction false} SumSince(states: seq<Shard>, evs: seq<Event>, i: nat, j: nat, f: Flow)
    requires IsRun(states, evs) && i <= j <= |evs| && f in states[i].table
    requires forall k :: i <= k < j && evs[k].Tick? ==> f !in states[k + 1].ordered
    ensures f in states[j].table && states[j].table[f].cdf == states[i].table[f].cdf
    decreases j
  {
    if i < j {
      SumSince(states, evs, i, j - 1, f);
      assert Step(states[j - 1], EpochAfter(evs[..j - 1]), evs[j - 1], states[j]);
      SumsMove(states[j - 1], EpochAfter(evs[..j - 1]), evs[j - 1], states[j], f);
    }
  }
}
