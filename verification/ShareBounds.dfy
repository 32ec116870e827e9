/** Do the shares of a list sum to at most 1?  The exact condition, conditions that can be
    read off the packets, and runs that break them. */
module ShareBounds {
  import opened Machine
  import opened Accounting

  // ---------------------------------------------------------------------
  // Bytes of several flows

  function BytesOf(fs: seq<Flow>, pkts: seq<Packet>): nat {
    if fs == [] then 0 else BytesOf(fs[..|fs| - 1], pkts) + BytesIn(pkts, fs[|fs| - 1])
  }

  lemma {:induction false} BytesOfNone(fs: seq<Flow>)
    ensures BytesOf(fs, []) == 0
  {
    if fs != [] {
      BytesOfNone(fs[..|fs| - 1]);
    }
  }

  lemma {:induction false} BytesOfSnoc(fs: seq<Flow>, pkts: seq<Packet>, p: Packet)
    requires NoDuplicates(fs)
    ensures BytesOf(fs, pkts + [p]) == BytesOf(fs, pkts) + if p.flow in fs then p.len else 0
  {
    if fs != [] {
      var n := |fs| - 1;
      assert fs == fs[..n] + [fs[n]];
      BytesOfSnoc(fs[..n], pkts, p);
      BytesSnoc(pkts, p, fs[n]);
      assert p.flow in fs[..n] ==> p.flow != fs[n];
    }
  }

  /** Distinct flows account for no more bytes than there are. */
  lemma {:induction false} BytesConserved(fs: seq<Flow>, pkts: seq<Packet>)
    requires NoDuplicates(fs)
    ensures BytesOf(fs, pkts) <= TotalIn(pkts)
  {
    if pkts == [] {
      BytesOfNone(fs);
    } else {
      var n := |pkts| - 1;
      assert pkts == pkts[..n] + [pkts[n]];
      BytesConserved(fs, pkts[..n]);
      BytesOfSnoc(fs, pkts[..n], pkts[n]);
    }
  }

  /** The bytes that some flows carried into epoch `e`. */
  ghost function CarriedOf(fs: seq<Flow>, t: seq<seq<Packet>>, e: nat): nat
    requires 0 < e < |t|
  {
    if fs == [] then 0 else CarriedOf(fs[..|fs| - 1], t, e) + Carried(t, e, fs[|fs| - 1])
  }

  lemma {:induction false} CarriedMonotone(fs: seq<Flow>, t: seq<seq<Packet>>, e: nat, k: nat)
    requires 0 < e < |t| && k <= |fs|
    ensures CarriedOf(fs[..k], t, e) <= CarriedOf(fs, t, e)
  {
    if k < |fs| {
      CarriedMonotone(fs[..|fs| - 1], t, e, k);
      assert fs[..|fs| - 1][..k] == fs[..k];
    } else {
      assert fs[..k] == fs;
    }
  }

  lemma CarriedMore(fs: seq<Flow>, t: seq<seq<Packet>>, e: nat, k: nat)
    requires 0 < e < |t| && 0 < k <= |fs| && 0 < Weight(t, e)
    ensures Ratio(CarriedOf(fs[..k], t, e), Weight(t, e))
         == Ratio(CarriedOf(fs[..k - 1], t, e), Weight(t, e)) + Ratio(Carried(t, e, fs[k - 1]), Weight(t, e))
  {
    assert fs[..k][..k - 1] == fs[..k - 1];
    AddRatios(CarriedOf(fs[..k - 1], t, e), Carried(t, e, fs[k - 1]), Weight(t, e));
  }

  /** The listed shares are the carried bytes, as parts of the bytes of the epoch before. */
  lemma {:induction false} SharesAreCarried(sh: Shard, t: seq<seq<Packet>>, k: nat)
    requires 2 < |t| && HasShares(sh, t) && k <= |sh.ordered| && 0 < Weight(t, |t| - 2)
    ensures ListedSum(sh.table, sh.ordered, k) == Ratio(CarriedOf(sh.ordered[..k], t, |t| - 2), Weight(t, |t| - 2))
  {
    if k != 0 {
      SharesAreCarried(sh, t, k - 1);
      assert sh.table[sh.ordered[k - 1]].prob2 == Share(t, |t| - 2, sh.ordered[k - 1]);
      CarriedMore(sh.ordered, t, |t| - 2, k);
    }
  }

  lemma AddRatios(a: nat, b: nat, total: nat)
    requires 0 < total
    ensures Ratio(a, total) + Ratio(b, total) == Ratio(a + b, total)
  {
    var x, y, z := a as real, b as real, total as real;
    assert x / z + y / z == (x + y) / z;
  }

  lemma {:induction false} NoShares(shares: seq<real>, k: nat)
    requires k <= |shares| && forall i :: 0 <= i < |shares| ==> shares[i] == 0.0
    ensures RunningSum(shares, k) == 0.0
  {
    if k != 0 {
      NoShares(shares, k - 1);
    }
  }

  lemma RatioBounds(b: nat, total: nat)
    requires 0 < total
    ensures 0.0 <= Ratio(b, total) && (Ratio(b, total) <= 1.0 <==> b <= total)
  {
    if total < b {
      assert Ratio(b, total) * total as real == b as real;
    }
  }

  lemma ShareNonNegative(t: seq<seq<Packet>>, e: nat, f: Flow)
    requires e < |t|
    ensures 0.0 <= Share(t, e, f)
  {
    if 0 < e && Weight(t, e) != 0 {
      RatioBounds(Carried(t, e, f), Weight(t, e));
    }
  }

  // ---------------------------------------------------------------------
  // The exact condition

  /** Every running sum of the list lies in [0, 1]. */
  ghost predicate Bounded(sh: Shard) {
    && (forall i :: 0 <= i < |sh.ordered| ==> sh.ordered[i] in sh.table)
    && forall k :: 0 <= k <= |sh.ordered| ==> 0.0 <= ListedSum(sh.table, sh.ordered, k) <= 1.0
  }

  /** The listed flows carried no more bytes than the 32-bit counter of the divided epoch
      shows, or that counter shows 0 and no share is taken. */
  ghost predicate Fits(fs: seq<Flow>, t: seq<seq<Packet>>) {
    2 < |t| ==> Weight(t, |t| - 2) == 0 || CarriedOf(fs, t, |t| - 2) <= Weight(t, |t| - 2)
  }

  /** The same of the running sums as they are stored. */
  ghost predicate StoredInBounds(sh: Shard) {
    forall k :: 0 <= k < |sh.ordered| ==> sh.ordered[k] in sh.table && 0.0 <= sh.table[sh.ordered[k]].cdf <= 1.0
  }

  ghost predicate SharesNonNegative(sh: Shard) {
    forall k :: 0 <= k < |sh.ordered| ==> sh.ordered[k] in sh.table && 0.0 <= sh.table[sh.ordered[k]].prob2
  }

  lemma BoundedIff(sh: Shard, t: seq<seq<Packet>>)
    requires t != [] && OrderedList(sh, t)
    ensures Bounded(sh) <==> Fits(sh.ordered, t)
    ensures SharesNonNegative(sh)
  {
    var fs := sh.ordered;
    forall i | 0 <= i < |fs| ensures fs[i] in sh.table && 0.0 <= sh.table[fs[i]].prob2 {
      assert sh.table[fs[i]].prob2 == Share(t, |t| - 2, fs[i]);
      ShareNonNegative(t, |t| - 2, fs[i]);
    }
    if |t| <= 2 || Weight(t, |t| - 2) == 0 {
      ZeroShares(sh, t);
    } else {
      WeighedShares(sh, t);
    }
  }

  lemma ZeroShares(sh: Shard, t: seq<seq<Packet>>)
    requires t != [] && HasShares(sh, t) && (2 < |t| ==> Weight(t, |t| - 2) == 0)
    ensures Bounded(sh)
  {
    forall i | 0 <= i < |sh.ordered| ensures sh.ordered[i] in sh.table && sh.table[sh.ordered[i]].prob2 == 0.0 {
      assert sh.table[sh.ordered[i]].prob2 == Share(t, |t| - 2, sh.ordered[i]);
    }
    forall k | 0 <= k <= |sh.ordered| ensures ListedSum(sh.table, sh.ordered, k) == 0.0 {
      NoShares(SharesOf(sh.table, sh.ordered), k);
    }
  }

  lemma WeighedShares(sh: Shard, t: seq<seq<Packet>>)
    requires 2 < |t| && HasShares(sh, t) && 0 < Weight(t, |t| - 2)
    ensures Bounded(sh) <==> CarriedOf(sh.ordered, t, |t| - 2) <= Weight(t, |t| - 2)
  {
    var fs, e, w := sh.ordered, |t| - 2, Weight(t, |t| - 2);
    assert forall i :: 0 <= i < |fs| ==> fs[i] in sh.table;
    forall k | 0 <= k <= |fs|
      ensures 0.0 <= ListedSum(sh.table, fs, k)
      ensures CarriedOf(fs, t, e) <= w ==> ListedSum(sh.table, fs, k) <= 1.0
    {
      SharesAreCarried(sh, t, k);
      RatioBounds(CarriedOf(fs[..k], t, e), w);
      CarriedMonotone(fs, t, e, k);
    }
    SharesAreCarried(sh, t, |fs|);
    assert fs[..|fs|] == fs;
    RatioBounds(CarriedOf(fs, t, e), w);
  }

  // What flows carry together does not depend on their order.

  /** All but the k-th. */
  function Without<T>(xs: seq<T>, k: nat): (left: seq<T>)
    requires k < |xs|
    ensures |left| == |xs| - 1 && forall i :: 0 <= i < |left| ==> left[i] == xs[if i < k then i else i + 1]
  {
    xs[..k] + xs[k + 1..]
  }

  function Sum(xs: seq<nat>): nat {
    if xs == [] then 0 else Sum(xs[..|xs| - 1]) + xs[|xs| - 1]
  }

  lemma {:induction false} SumWithout(xs: seq<nat>, k: nat)
    requires k < |xs|
    ensures Sum(xs) == Sum(Without(xs, k)) + xs[k]
  {
    var n := |xs| - 1;
    if k < n {
      SumWithout(xs[..n], k);
      assert Without(xs, k)[..n - 1] == Without(xs[..n], k);
    } else {
      assert Without(xs, k) == xs[..n];
    }
  }

  /** What each of the flows carried. */
  ghost function CarriedEach(fs: seq<Flow>, t: seq<seq<Packet>>, e: nat): (each: seq<nat>)
    requires 0 < e < |t|
    ensures |each| == |fs| && forall i :: 0 <= i < |fs| ==> each[i] == Carried(t, e, fs[i])
  {
    seq(|fs|, i requires 0 <= i < |fs| => Carried(t, e, fs[i]))
  }

  lemma {:induction false} CarriedIsSum(fs: seq<Flow>, t: seq<seq<Packet>>, e: nat)
    requires 0 < e < |t|
    ensures CarriedOf(fs, t, e) == Sum(CarriedEach(fs, t, e))
  {
    if fs != [] {
      CarriedIsSum(fs[..|fs| - 1], t, e);
      assert CarriedEach(fs, t, e)[..|fs| - 1] == CarriedEach(fs[..|fs| - 1], t, e);
    }
  }

  lemma CarriedWithout(fs: seq<Flow>, k: nat, t: seq<seq<Packet>>, e: nat)
    requires 0 < e < |t| && k < |fs|
    ensures CarriedOf(fs, t, e) == CarriedOf(Without(fs, k), t, e) + Carried(t, e, fs[k])
  {
    CarriedIsSum(fs, t, e);
    CarriedIsSum(Without(fs, k), t, e);
    SumWithout(CarriedEach(fs, t, e), k);
    assert Without(CarriedEach(fs, t, e), k) == CarriedEach(Without(fs, k), t, e);
  }

  lemma WithoutIs(fs: seq<Flow>, k: nat, f: Flow)
    requires NoDuplicates(fs) && k < |fs|
    ensures f in Without(fs, k) <==> f in fs && f != fs[k]
  {
    var left := Without(fs, k);
    if f in fs && f != fs[k] {
      var i :| 0 <= i < |fs| && fs[i] == f;
      assert left[if i < k then i else i - 1] == f;
    }
  }

  lemma WithoutOne(fs: seq<Flow>, gs: seq<Flow>, j: nat, k: nat)
    requires NoDuplicates(fs) && NoDuplicates(gs) && j < |fs| && k < |gs| && gs[k] == fs[j]
    requires forall f :: f in fs <==> f in gs
    ensures NoDuplicates(Without(gs, k)) && forall f :: f in Without(fs, j) <==> f in Without(gs, k)
  {
    forall f ensures f in Without(fs, j) <==> f in Without(gs, k) {
      WithoutIs(fs, j, f);
      WithoutIs(gs, k, f);
    }
  }

  lemma SomeMember(fs: seq<Flow>) returns (f: Flow)
    requires fs != []
    ensures f in fs
  {
    f := fs[0];
  }

  lemma {:induction false} CarriedSame(fs: seq<Flow>, gs: seq<Flow>, t: seq<seq<Packet>>, e: nat)
    requires 0 < e < |t| && NoDuplicates(fs) && NoDuplicates(gs) && forall f :: f in fs <==> f in gs
    ensures CarriedOf(fs, t, e) == CarriedOf(gs, t, e)
  {
    if fs == [] {
      if gs != [] {
        var f := SomeMember(gs);
      }
    } else {
      var n := |fs| - 1;
      assert fs[n] in gs;
      var k :| 0 <= k < |gs| && gs[k] == fs[n];
      WithoutOne(fs, gs, n, k);
      assert Without(fs, n) == fs[..n];
      CarriedSame(fs[..n], Without(gs, k), t, e);
      CarriedWithout(gs, k, t, e);
    }
  }

  lemma FitsSame(fs: seq<Flow>, gs: seq<Flow>, t: seq<seq<Packet>>)
    requires t != [] && NoDuplicates(fs) && NoDuplicates(gs) && ListsEnded(fs, t) && ListsEnded(gs, t)
    ensures Fits(fs, t) <==> Fits(gs, t)
  {
    if 2 < |t| {
      CarriedSame(fs, gs, t, |t| - 2);
    }
  }

  /** Over all runs, with any marks and any traffic: the stored running sums of the list lie
      in [0, 1] exactly when the flows that were hit in the last ended epoch, in any order,
      fit.  Both are read off the trace. */
  lemma RunSharesBoundedIff(states: seq<Shard>, evs: seq<Event>, i: nat, fs: seq<Flow>)
    requires IsRun(states, evs) && i <= |evs|
    requires NoDuplicates(fs) && ListsEnded(fs, TraceOf(evs[..i]))
    ensures SharesNonNegative(states[i])
    ensures StoredInBounds(states[i]) <==> Fits(fs, TraceOf(evs[..i]))
  {
    RunRefinesTrace(states, evs, i);
    BoundedIff(states[i], TraceOf(evs[..i]));
    SumsStored(states[i], TraceOf(evs[..i]));
    FitsSame(fs, states[i].ordered, TraceOf(evs[..i]));
  }

  /** The running sums are what is stored. */
  lemma SumsStored(sh: Shard, t: seq<seq<Packet>>)
    requires t != [] && OrderedList(sh, t)
    ensures Bounded(sh) <==> StoredInBounds(sh)
  {
    var fs := sh.ordered;
    assert forall i :: 0 <= i < |fs| ==> fs[i] in sh.table;
    assert ListedSum(sh.table, fs, 0) == 0.0;
    if StoredInBounds(sh) {
      forall k | 0 < k <= |fs| ensures 0.0 <= ListedSum(sh.table, fs, k) <= 1.0 {
        assert sh.table[fs[k - 1]].cdf == ListedSum(sh.table, fs, k - 1 + 1);
      }
    }
    if Bounded(sh) {
      forall k | 0 <= k < |fs| ensures 0.0 <= sh.table[fs[k]].cdf <= 1.0 {
        assert sh.table[fs[k]].cdf == ListedSum(sh.table, fs, k + 1);
      }
    }
  }

  // ---------------------------------------------------------------------
  // Conditions on the packets

  /** No marked packet of a flow comes before its first unmarked one. */
  ghost predicate InOrder(pkts: seq<Packet>) {
    forall i, j :: 0 <= i < j < |pkts| && pkts[i].flow == pkts[j].flow && pkts[i].priority && !pkts[j].priority ==>
      exists h :: 0 <= h < i && pkts[h].flow == pkts[i].flow && !pkts[h].priority
  }

  /** The epoch whose bytes the listed shares divide by did not overflow its counter. */
  ghost predicate NoWrap(t: seq<seq<Packet>>) {
    2 < |t| ==> TotalIn(t[|t| - 3]) < TWO32
  }

  lemma {:induction false} BytesSplit(pkts: seq<Packet>, k: nat, f: Flow)
    requires k <= |pkts|
    ensures BytesIn(pkts, f) == BytesIn(pkts[..k], f) + BytesIn(pkts[k..], f)
  {
    if k < |pkts| {
      var n := |pkts| - 1;
      BytesSplit(pkts[..n], k, f);
      assert pkts[..n][..k] == pkts[..k];
      assert pkts[k..][..n - k] == pkts[..n][k..];
    } else {
      assert pkts[..k] == pkts && pkts[k..] == [];
    }
  }

  /** Packets in order: the flow has none before its first unmarked one. */
  lemma NoneBeforeFirst(pkts: seq<Packet>, f: Flow)
    requires InOrder(pkts) && FirstPacket(pkts, f, true) < |pkts|
    ensures !OccursIn(pkts[..FirstPacket(pkts, f, true)], f)
  {
    var a := FirstPacket(pkts, f, true);
    forall i | 0 <= i < a ensures pkts[..a][i].flow != f {
      if pkts[i].flow == f {
        if !pkts[i].priority {
          FirstIsFirst(pkts, f, true, i);
        } else {
          var h :| 0 <= h < i && pkts[h].flow == f && !pkts[h].priority;
          FirstIsFirst(pkts, f, true, h);
        }
        assert false;
      }
    }
  }

  /** Then a flow that is hit carries no more than it sent in the epoch before. */
  lemma CarriedInOrder(t: seq<seq<Packet>>, e: nat, f: Flow)
    requires 0 < e < |t| && InOrder(t[e]) && HitIn(t, e, f)
    ensures Carried(t, e, f) <= BytesIn(t[e - 1], f)
  {
    if Anchored(t, e - 1, f) {
      BytesSplit(t[e - 1], Anchor(t, e - 1, f), f);
      AnchoredIsSeen(t, e - 1, f);
      var k :| 0 <= k < |t[e]| && t[e][k].flow == f && !t[e][k].priority && SeenBefore(t, e, k, f);
      FirstIsFirst(t[e], f, true, k);
      NoneBeforeFirst(t[e], f);
      NoBytes(t[e][..Anchor(t, e, f)], f);
    }
  }

  lemma AnchoredIsSeen(t: seq<seq<Packet>>, e: nat, f: Flow)
    requires e + 1 < |t| && Anchored(t, e, f)
    ensures SeenEarlier(t, e + 1, f)
  {
    assert t[e][Anchor(t, e, f)].flow == f;
    assert OccursIn(t[e], f);
  }

  lemma {:induction false} CarriedAtMostBytes(fs: seq<Flow>, t: seq<seq<Packet>>, e: nat)
    requires 0 < e < |t| && forall i :: 0 <= i < |fs| ==> Carried(t, e, fs[i]) <= BytesIn(t[e - 1], fs[i])
    ensures CarriedOf(fs, t, e) <= BytesOf(fs, t[e - 1])
  {
    if fs != [] {
      CarriedAtMostBytes(fs[..|fs| - 1], t, e);
    }
  }

  /** The bound holds when no marked packet came before the first unmarked one of its flow in
      the listed epoch and the byte counter of the epoch before did not overflow. */
  lemma FitsInOrder(fs: seq<Flow>, t: seq<seq<Packet>>)
    requires t != [] && NoDuplicates(fs) && ListsEnded(fs, t)
    requires (2 < |t| ==> InOrder(t[|t| - 2])) && NoWrap(t)
    ensures Fits(fs, t)
  {
    if 2 < |t| {
      var e := |t| - 2;
      forall i | 0 <= i < |fs| ensures Carried(t, e, fs[i]) <= BytesIn(t[e - 1], fs[i]) {
        assert fs[i] in fs;
        CarriedInOrder(t, e, fs[i]);
      }
      CarriedAtMostBytes(fs, t, e);
      BytesConserved(fs, t[e - 1]);
    }
  }

  lemma RunSharesBounded(states: seq<Shard>, evs: seq<Event>, i: nat)
    requires IsRun(states, evs) && i <= |evs|
    requires var t := TraceOf(evs[..i]); (2 < |t| ==> InOrder(t[|t| - 2])) && NoWrap(t)
    ensures SharesNonNegative(states[i]) && StoredInBounds(states[i])
  {
    RunLists(states, evs, i);
    RunSharesBoundedIff(states, evs, i, states[i].ordered);
    FitsInOrder(states[i].ordered, TraceOf(evs[..i]));
  }

  lemma RunLists(states: seq<Shard>, evs: seq<Event>, i: nat)
    requires IsRun(states, evs) && i <= |evs|
    ensures NoDuplicates(states[i].ordered) && ListsEnded(states[i].ordered, TraceOf(evs[..i]))
  {
    RunRefinesTrace(states, evs, i);
  }

  // ---------------------------------------------------------------------
  // Marks that are a property of the flow

  /** The priority mark is a property of the flow. */
  ghost predicate Consistent(t: seq<seq<Packet>>, prio: Flow -> bool) {
    forall e, k :: 0 <= e < |t| && 0 <= k < |t[e]| ==> t[e][k].priority == prio(t[e][k].flow)
  }

  lemma HitUnmarked(t: seq<seq<Packet>>, e: nat, f: Flow, prio: Flow -> bool)
    requires e < |t| && HitIn(t, e, f) && Consistent(t, prio)
    ensures !prio(f)
  {
  }

  /** Without marks the anchor of an epoch is the first packet of the flow. */
  lemma NothingBeforeAnchor(t: seq<seq<Packet>>, e: nat, f: Flow, prio: Flow -> bool)
    requires e < |t| && Consistent(t, prio) && !prio(f)
    ensures !OccursIn(t[e][..Anchor(t, e, f)], f)
  {
    var a := Anchor(t, e, f);
    forall i | 0 <= i < a ensures t[e][..a][i].flow != f {
      if t[e][i].flow == f {
        FirstIsFirst(t[e], f, SeenEarlier(t, e, f), i);
        assert false;
      }
    }
  }

  /** Then the bytes carried are simply the bytes of the epoch before. */
  lemma CarriedIsBytes(t: seq<seq<Packet>>, e: nat, f: Flow, prio: Flow -> bool)
    requires 0 < e < |t| && Consistent(t, prio) && !prio(f)
    ensures Carried(t, e, f) == BytesIn(t[e - 1], f)
  {
    NothingBeforeAnchor(t, e, f, prio);
    NothingBeforeAnchor(t, e - 1, f, prio);
    NoBytes(t[e][..Anchor(t, e, f)], f);
    NoBytes(t[e - 1][..Anchor(t, e - 1, f)], f);
    BytesSplit(t[e - 1], Anchor(t, e - 1, f), f);
    if !Anchored(t, e - 1, f) {
      assert t[e - 1][|t[e - 1]|..] == [];
    }
  }

  lemma {:induction false} CarriedOfIsBytes(fs: seq<Flow>, t: seq<seq<Packet>>, e: nat, prio: Flow -> bool)
    requires 0 < e < |t| && Consistent(t, prio) && forall i :: 0 <= i < |fs| ==> !prio(fs[i])
    ensures CarriedOf(fs, t, e) == BytesOf(fs, t[e - 1])
  {
    if fs != [] {
      CarriedOfIsBytes(fs[..|fs| - 1], t, e, prio);
      CarriedIsBytes(t, e, fs[|fs| - 1], prio);
    }
  }

  /** With such marks the bound depends on the overflow alone: the bytes that the listed flows
      sent must fit the wrapped counter. */
  lemma BoundedByBytesIff(sh: Shard, t: seq<seq<Packet>>, prio: Flow -> bool)
    requires 2 < |t| && OrderedList(sh, t) && Consistent(t, prio)
    ensures var w := TotalIn(t[|t| - 3]) % TWO32;
            Bounded(sh) <==> w == 0 || BytesOf(sh.ordered, t[|t| - 3]) <= w
  {
    var fs, e := sh.ordered, |t| - 2;
    BoundedIff(sh, t);
    forall i | 0 <= i < |fs| ensures !prio(fs[i]) {
      assert fs[i] in fs;
      HitUnmarked(t, e, fs[i], prio);
    }
    CarriedOfIsBytes(fs, t, e, prio);
  }

  // ---------------------------------------------------------------------
  // Runs that break the bound

  const EXAMPLE: Flow := Flow(1, 2, 3, 4)
  const PLAIN: Packet := Packet(EXAMPLE, false, 100)
  const MARKED: Packet := Packet(EXAMPLE, true, 100)

  function ExampleState(st: FlowState, bytes: nat, packets: nat, oldBytes: nat, oldPackets: nat): Shard {
    Shard(map[EXAMPLE := st], {}, {}, bytes, packets, oldBytes, oldPackets, [])
  }

  lemma ExampleEpochs(evs: seq<Event>)
    requires evs == [Arrive(PLAIN), Tick, Arrive(MARKED), Arrive(PLAIN), Tick]
    ensures EpochAfter(evs[..0]) == EpochAfter(evs[..1]) == 0
    ensures EpochAfter(evs[..2]) == EpochAfter(evs[..3]) == EpochAfter(evs[..4]) == 1
  {
    assert evs[..1][..0] == evs[..0] && evs[..2][..1] == evs[..1];
    assert evs[..3][..2] == evs[..2] && evs[..4][..3] == evs[..3];
  }

  lemma ExampleFirstTick(st: FlowState)
    ensures EpochStep(ExampleState(st, 100, 1, 0, 0), ExampleState(st, 0, 0, 100, 1))
  {
  }

  lemma ExampleLastTick(sh: Shard, sh': Shard)
    requires sh == ExampleState(FlowState(0.0, 2.0, 0.0, false, 1, 100), 200, 2, 100, 1).(current := {EXAMPLE})
    requires sh' == ExampleState(FlowState(2.0, 2.0, 2.0, false, 1, 100), 0, 0, 200, 2).(ordered := [EXAMPLE])
    ensures EpochStep(sh, sh')
  {
    assert SharesOf(sh'.table, [EXAMPLE]) == [2.0];
    assert RunningSum([2.0], 0) == 0.0;
    assert RunningSum([2.0], 1) == 2.0;
  }

  /** A flow whose packets are marked now and then: its marked packets are counted without
      rolling over, and its share comes out as 2. */
  lemma MixedMarksBreakShare() returns (states: seq<Shard>, evs: seq<Event>)
    ensures IsRun(states, evs) && forall i :: 0 <= i < |evs| && evs[i].Arrive? ==> evs[i].p.len == 100
    ensures var sh := states[|evs|];
            |sh.ordered| == 1 && sh.ordered[0] in sh.table && sh.table[sh.ordered[0]].prob2 == 2.0
  {
    evs := [Arrive(PLAIN), Tick, Arrive(MARKED), Arrive(PLAIN), Tick];
    var first := FlowState(0.0, 0.0, 0.0, false, 0, 100);
    var s1, s2 := ExampleState(first, 100, 1, 0, 0), ExampleState(first, 0, 0, 100, 1);
    var s3 := ExampleState(first.(bytes := 200), 100, 1, 100, 1);
    var s4 := ExampleState(FlowState(0.0, 2.0, 0.0, false, 1, 100), 200, 2, 100, 1).(current := {EXAMPLE});
    var s5 := ExampleState(FlowState(2.0, 2.0, 2.0, false, 1, 100), 0, 0, 200, 2).(ordered := [EXAMPLE]);
    states := [EMPTY_SHARD, s1, s2, s3, s4, s5];
    ExampleEpochs(evs);
    assert s1 == Extract(EMPTY_SHARD, 0, PLAIN);
    ExampleFirstTick(first);
    assert s3 == Extract(s2, 1, MARKED);
    assert s4 == Extract(s3, 1, PLAIN);
    ExampleLastTick(s4, s5);
  }

  // A flow that floods one epoch: 65538 packets of 65535 bytes, 2^32 + 65534 bytes in all.

  const BIG: Packet := Packet(EXAMPLE, false, 65535)
  const FLOOD: nat := 65538

  /** The shard after the first `i` packets of the flood. */
  function Flooded(i: nat): Shard {
    if i == 0 then EMPTY_SHARD
    else Shard(map[EXAMPLE := FlowState(0.0, 0.0, 0.0, false, 0, 65535 * i)], if i == 1 then {} else {EXAMPLE}, {},
               (65535 * i) % TWO32, i % TWO32, 0, 0, [])
  }

  lemma FloodGoesOn(i: nat)
    ensures Extract(Flooded(i), 0, BIG) == Flooded(i + 1)
  {
    AddMod(65535 * i, 65535);
    AddMod(i, 1);
    var sh := Flooded(i);
    assert i != 0 ==> Extract(sh, 0, BIG).table == map[EXAMPLE := FlowState(0.0, 0.0, 0.0, false, 0, 65535 * (i + 1))];
  }

  const LISTED: FlowState := FlowState(0.0, 0.0, 0.0, false, 0, 65535 * FLOOD)
  const ENDED: Shard := Shard(map[EXAMPLE := LISTED], {}, {}, 0, 0, 65534, FLOOD, [EXAMPLE])

  const OVERSHARE: real := (65535 * FLOOD) as real / 65534.0
  const ROLLED: FlowState := FlowState(0.0, OVERSHARE, 0.0, false, 1, 65535)
  const RUNNING: Shard := Shard(map[EXAMPLE := ROLLED], {EXAMPLE}, {}, 65535, 1, 65534, FLOOD, [EXAMPLE])

  const OVERLISTED: FlowState := FlowState(OVERSHARE, OVERSHARE, OVERSHARE, false, 1, 65535)
  const LAST: Shard := Shard(map[EXAMPLE := OVERLISTED], {}, {}, 0, 0, 65535, 1, [EXAMPLE])

  lemma OneListed(st: FlowState)
    ensures ListedSum(map[EXAMPLE := st], [EXAMPLE], 1) == st.prob2
  {
    var shares := SharesOf(map[EXAMPLE := st], [EXAMPLE]);
    assert RunningSum(shares, 0) == 0.0;
  }

  lemma FloodEnds()
    ensures EpochStep(Flooded(FLOOD), ENDED) && Step(ENDED, 1, Arrive(BIG), RUNNING) && EpochStep(RUNNING, LAST)
    ensures 1.0 < OVERSHARE
  {
    OneListed(LISTED);
    OneListed(OVERLISTED);
    assert (65535 * FLOOD) % TWO32 == 65534;
    assert Extract(ENDED, 1, BIG).table == RUNNING.table;
  }

  lemma {:induction false} NoTicks(evs: seq<Event>)
    requires forall i :: 0 <= i < |evs| ==> evs[i].Arrive?
    ensures EpochAfter(evs) == 0
  {
    if evs != [] {
      NoTicks(evs[..|evs| - 1]);
    }
  }

  function FloodEvents(): (evs: seq<Event>)
    ensures |evs| == FLOOD + 3
    ensures forall i :: 0 <= i < |evs| ==> evs[i] == if i == FLOOD || i == FLOOD + 2 then Tick else Arrive(BIG)
  {
    seq(FLOOD, _ => Arrive(BIG)) + [Tick, Arrive(BIG), Tick]
  }

  lemma FloodEpochs(i: nat)
    requires i <= FLOOD + 2
    ensures EpochAfter(FloodEvents()[..i]) == if i <= FLOOD then 0 else 1
  {
    var evs := FloodEvents();
    if i <= FLOOD {
      NoTicks(evs[..i]);
    } else {
      FloodEpochs(i - 1);
      assert evs[..i][..i - 1] == evs[..i - 1];
    }
  }

  /** Marks aside, an epoch whose bytes overflow the counter breaks the bound: the only flow of
      the run, whose packets are all unmarked and no longer than IP allows, gets a share of
      more than 65000. */
  lemma WrapBreaksShare() returns (states: seq<Shard>, evs: seq<Event>)
    ensures IsRun(states, evs)
    ensures forall i :: 0 <= i < |evs| && evs[i].Arrive? ==> evs[i].p.len <= 65535 && !evs[i].p.priority
    ensures var sh := states[|evs|];
            |sh.ordered| == 1 && sh.ordered[0] in sh.table && 65000.0 < sh.table[sh.ordered[0]].prob2
  {
    evs := FloodEvents();
    states := seq(FLOOD + 1, i requires 0 <= i => Flooded(i)) + [ENDED, RUNNING, LAST];
    FloodEnds();
    forall i | 0 <= i < |evs| ensures Step(states[i], EpochAfter(evs[..i]), evs[i], states[i + 1]) {
      FloodEpochs(i);
      if i < FLOOD {
        FloodGoesOn(i);
      }
    }
  }
}
