/** Which packets a working core diverts to its offloading core, and how the controller
    rounds the solver's ratio to the list of flows. */
module Offload {
  import opened Accounting
  import ShareBounds
  import opened Shards

  const EPSILON: real := 0.0000000001
  const SCALE: real := 1.5

  function Abs(a: real): real {
    if a < 0.0 then -a else a
  }

  function Larger(a: real, b: real): real {
    if Abs(a) < Abs(b) then Abs(b) else Abs(a)
  }

  predicate IsLessThan(a: real, b: real) {
    b - a > Larger(a, b) * EPSILON
  }

  predicate IsEqualThan(a: real, b: real) {
    Abs(a - b) <= Larger(a, b) * EPSILON
  }

  /** On the values that occur, `is_less_than` is a strict comparison with a margin. */
  lemma LessThanIff(a: real, b: real)
    requires 0.0 <= a && 0.0 <= b
    ensures IsLessThan(a, b) <==> a < b * (1.0 - EPSILON)
    ensures IsLessThan(a, b) <==> a < b * 0.9999999999
  {
  }

  /** Two ratios count as equal exactly if neither is below the other by more than the margin. */
  lemma EqualIff(a: real, b: real)
    requires 0.0 <= a && 0.0 <= b
    ensures IsEqualThan(a, b) <==> b * 0.9999999999 <= a && a * 0.9999999999 <= b
  {
  }

  lemma EqualZeroIff(a: real)
    ensures IsEqualThan(a, 0.0) <==> a == 0.0
  {
  }

  // ---------------------------------------------------------------------
  // The decision of `run`

  predicate Diverts(st: FlowState, r: real) {
    !st.priority && IsLessThan(st.cdf, r)
  }

  /** The part of DyssectWorkingCore that collects diverted packets. */
  class Collector {
    var offPkts: seq<Packet>

    constructor ()
      ensures offPkts == []
    {
      offPkts := [];
    }

    /** `DyssectWorkingCore::run`. */
    method Run(sh: ShardInfo, p: Packet, now: nat) returns (ret: int)
      requires sh.Valid()
      modifies this, sh, sh.Records()
      ensures sh.r == old(sh.r) && sh.Valid() && sh.View() == Extract(old(sh.View()), now, p)
      ensures ret == (if Diverts(sh.View().table[p.flow], old(sh.r)) then -1 else 0)
      ensures var st := sh.View().table[p.flow];
              0.0 <= st.cdf && 0.0 <= old(sh.r) ==>
                (ret == -1 <==> !st.priority && st.cdf < old(sh.r) * 0.9999999999)
      ensures offPkts == if ret == -1 then old(offPkts) + [p] else old(offPkts)
    {
      var state := sh.ExtractState(p, now);
      assert sh.View().table[p.flow] == state.State();
      ret := Decide(p, state, sh.r);
    }

    /** The decision itself. */
    method Decide(p: Packet, state: FlowRecord, r: real) returns (ret: int)
      modifies this
      ensures ret == if Diverts(state.State(), r) then -1 else 0
      ensures 0.0 <= state.cdf && 0.0 <= r ==> (ret == -1 <==> !state.priority && state.cdf < r * 0.9999999999)
      ensures offPkts == if ret == -1 then old(offPkts) + [p] else old(offPkts)
    {
      if state.priority {
        return 0;
      }
      if IsLessThan(state.cdf, r) {
        offPkts := offPkts + [p];
        return -1;
      }
      return 0;
    }
  }

  // ---------------------------------------------------------------------
  // What an ordered list diverts

  ghost predicate Listed(sh: Shard) {
    forall i :: 0 <= i < |sh.ordered| ==> sh.ordered[i] in sh.table
  }

  /** The state of the i-th listed flow. */
  function At(sh: Shard, i: nat): FlowState
    requires Listed(sh) && i < |sh.ordered|
  {
    sh.table[sh.ordered[i]]
  }

  /** The running sums never fall along the list, and start at or above 0. */
  ghost predicate Rising(sh: Shard)
    requires Listed(sh)
  {
    && (forall i :: 0 <= i < |sh.ordered| ==> 0.0 <= At(sh, i).prob2)
    && (forall k :: 0 <= k < |sh.ordered| ==> At(sh, k).cdf == ListedSum(sh.table, sh.ordered, k + 1))
    && (forall i, j :: 0 <= i < j < |sh.ordered| ==> At(sh, i).prob2 >= At(sh, j).prob2)
  }

  lemma {:induction false} SumsRise(sh: Shard, i: nat, j: nat)
    requires Listed(sh) && Rising(sh) && i <= j <= |sh.ordered|
    ensures 0.0 <= ListedSum(sh.table, sh.ordered, i) <= ListedSum(sh.table, sh.ordered, j)
    decreases j
  {
    if 0 < j {
      if i < j {
        SumsRise(sh, i, j - 1);
        assert At(sh, j - 1) == sh.table[sh.ordered[j - 1]];
      } else {
        SumsRise(sh, i - 1, j - 1);
        assert At(sh, j - 1) == sh.table[sh.ordered[j - 1]];
      }
    }
  }

  /** The states of a run have such lists. */
  lemma ReachableListsRise(states: seq<Shard>, evs: seq<Event>, i: nat)
    requires IsRun(states, evs) && i <= |evs|
    ensures Listed(states[i]) && Rising(states[i])
  {
    RunRefinesTrace(states, evs, i);
    InvLists(states[i], TraceOf(evs[..i]));
  }

  lemma InvLists(sh: Shard, t: seq<seq<Packet>>)
    requires t != [] && OrderedList(sh, t)
    ensures Listed(sh) && Rising(sh)
  {
    forall i | 0 <= i < |sh.ordered| ensures sh.ordered[i] in sh.table && 0.0 <= sh.table[sh.ordered[i]].prob2 {
      assert sh.table[sh.ordered[i]].prob2 == Share(t, |t| - 2, sh.ordered[i]);
      ShareBounds.ShareNonNegative(t, |t| - 2, sh.ordered[i]);
    }
  }

  /** No listed flow has a priority record. */
  ghost predicate Unmarked(sh: Shard)
    requires Listed(sh)
  {
    forall i :: 0 <= i < |sh.ordered| ==> !At(sh, i).priority
  }

  /** So it is when marks are a property of the flow; otherwise a flow whose first packet was
      marked may be listed. */
  lemma ListsUnmarked(sh: Shard, t: seq<seq<Packet>>, prio: Flow -> bool)
    requires t != [] && OrderedList(sh, t) && KeepsMarks(sh, t) && ShareBounds.Consistent(t, prio)
    ensures Listed(sh) && Unmarked(sh)
  {
    forall i | 0 <= i < |sh.ordered| ensures sh.ordered[i] in sh.table && !sh.table[sh.ordered[i]].priority {
      var f := sh.ordered[i];
      assert f in sh.ordered && f in sh.table;
      ShareBounds.HitUnmarked(t, |t| - 2, f, prio);
      var d: nat, k: nat :| CreatedAt(t, d, k, f, sh.table[f].priority);
    }
  }

  /** The number of listed flows whose running sum is below the ratio with its margin. */
  function Cut(sh: Shard, r: real, k: nat): (m: nat)
    requires Listed(sh) && k <= |sh.ordered|
    ensures k <= m <= |sh.ordered|
    ensures forall i :: k <= i < m ==> At(sh, i).cdf < r * (1.0 - EPSILON)
    ensures m < |sh.ordered| ==> At(sh, m).cdf >= r * (1.0 - EPSILON)
    decreases |sh.ordered| - k
  {
    if k < |sh.ordered| && At(sh, k).cdf < r * (1.0 - EPSILON) then Cut(sh, r, k + 1) else k
  }

  /** The sum of the shares of the diverted flows among the first `n`. */
  function DivertedShare(sh: Shard, r: real, n: nat): real
    requires Listed(sh) && n <= |sh.ordered|
  {
    if n == 0 then 0.0
    else DivertedShare(sh, r, n - 1) + if Diverts(At(sh, n - 1), r) then At(sh, n - 1).prob2 else 0.0
  }

  /** The sum of the shares among the first `n` that are not of priority flows. */
  function UnmarkedSum(sh: Shard, n: nat): real
    requires Listed(sh) && n <= |sh.ordered|
  {
    if n == 0 then 0.0 else UnmarkedSum(sh, n - 1) + if At(sh, n - 1).priority then 0.0 else At(sh, n - 1).prob2
  }

  lemma {:induction false} UnmarkedRises(sh: Shard, m: nat, n: nat)
    requires Listed(sh) && Rising(sh) && m <= n <= |sh.ordered|
    ensures UnmarkedSum(sh, m) <= UnmarkedSum(sh, n)
    decreases n
  {
    if m < n {
      UnmarkedRises(sh, m, n - 1);
    }
  }

  lemma {:induction false} UnmarkedAtMost(sh: Shard, n: nat)
    requires Listed(sh) && Rising(sh) && n <= |sh.ordered|
    ensures UnmarkedSum(sh, n) <= ListedSum(sh.table, sh.ordered, n)
    ensures Unmarked(sh) ==> UnmarkedSum(sh, n) == ListedSum(sh.table, sh.ordered, n)
  {
    if n != 0 {
      UnmarkedAtMost(sh, n - 1);
      assert At(sh, n - 1) == sh.table[sh.ordered[n - 1]];
    }
  }

  /** The diverted flows are the maximal prefix of the list below the ratio, but for priority
      flows; none that is kept, but for priority flows, is heavier than one that is diverted;
      together they stay below the ratio. */
  lemma DivertedIsPrefix(sh: Shard, r: real)
    requires Listed(sh) && Rising(sh) && 0.0 <= r
    ensures forall i :: 0 <= i < |sh.ordered| ==> (Diverts(At(sh, i), r) <==> i < Cut(sh, r, 0) && !At(sh, i).priority)
    ensures forall i, j :: 0 <= i < |sh.ordered| && 0 <= j < |sh.ordered|
              && Diverts(At(sh, i), r) && !Diverts(At(sh, j), r) && !At(sh, j).priority
              ==> At(sh, i).prob2 >= At(sh, j).prob2
    ensures DivertedShare(sh, r, |sh.ordered|)
            == UnmarkedSum(sh, Cut(sh, r, 0)) <= ListedSum(sh.table, sh.ordered, Cut(sh, r, 0))
    ensures 0.0 < r ==> DivertedShare(sh, r, |sh.ordered|) < r
    ensures r == 0.0 ==> Cut(sh, r, 0) == 0
  {
    var m := Cut(sh, r, 0);
    forall i | 0 <= i < |sh.ordered| ensures Diverts(At(sh, i), r) <==> i < m && !At(sh, i).priority {
      SumsRise(sh, 0, i + 1);
      LessThanIff(At(sh, i).cdf, r);
      if m <= i {
        SumsRise(sh, m + 1, i + 1);
      }
    }
    PrefixShare(sh, r, m, |sh.ordered|);
    UnmarkedAtMost(sh, m);
    if 0 < m {
      assert At(sh, m - 1).cdf == ListedSum(sh.table, sh.ordered, m);
      SumsRise(sh, 0, m);
    }
  }

  lemma {:induction false} PrefixShare(sh: Shard, r: real, m: nat, n: nat)
    requires Listed(sh) && Rising(sh) && m <= |sh.ordered| && n <= |sh.ordered|
    requires forall i :: 0 <= i < |sh.ordered| ==> (Diverts(At(sh, i), r) <==> i < m && !At(sh, i).priority)
    ensures DivertedShare(sh, r, n) == UnmarkedSum(sh, if n < m then n else m)
  {
    if n != 0 {
      PrefixShare(sh, r, m, n - 1);
    }
  }

  /** A flow that no finished epoch has listed is diverted whenever anything is wanted. */
  lemma NewFlowsDivert(sh: Shard, t: seq<seq<Packet>>, f: Flow, r: real)
    requires t != [] && NeverListed(sh, t) && f in sh.table && 0.0 <= r
    requires forall d :: 0 <= d < |t| - 1 ==> !HitIn(t, d, f)
    ensures Diverts(sh.table[f], r) <==> !sh.table[f].priority && 0.0 < r
  {
    LessThanIff(0.0, r);
  }

  // ---------------------------------------------------------------------
  // Rounding the ratio

  /** The running sum at the i-th flow reaches the ratio. */
  predicate Reaches(sh: Shard, r: real, i: nat)
    requires Listed(sh) && i < |sh.ordered|
  {
    ListedSum(sh.table, sh.ordered, i + 1) >= r
  }

  /** The first flow, from `k` on, whose running sum reaches the ratio. */
  function FirstReach(sh: Shard, r: real, k: nat): (m: nat)
    requires Listed(sh) && k <= |sh.ordered|
    ensures k <= m <= |sh.ordered|
    ensures forall i :: k <= i < m ==> !Reaches(sh, r, i)
    ensures m < |sh.ordered| ==> Reaches(sh, r, m)
    decreases |sh.ordered| - k
  {
    if k < |sh.ordered| && !Reaches(sh, r, k) then FirstReach(sh, r, k + 1) else k
  }

  /** The ratio is rounded up, to the running sum of the k-th flow. */
  ghost predicate RoundsUpAt(sh: Shard, r: real, k: nat)
    requires Listed(sh)
  {
    && r != 0.0 && k == FirstReach(sh, r, 0) < |sh.ordered|
    && ListedSum(sh.table, sh.ordered, k + 1) < r * SCALE
  }

  function Rounded(sh: Shard, r: real): real
    requires Listed(sh)
  {
    var k := FirstReach(sh, r, 0);
    if r != 0.0 && k < |sh.ordered| && ListedSum(sh.table, sh.ordered, k + 1) < r * SCALE
    then ListedSum(sh.table, sh.ordered, k + 1) + EPSILON
    else r
  }

  /** What the rounding does, in figures: let `k` be the first flow at which the sum of the shares
      reaches the ratio; if that sum is below 1.5 times the ratio it is what the ratio
      becomes, plus 10^-10. */
  lemma RoundedIs(sh: Shard, r: real, k: nat)
    requires Listed(sh) && 0.0 < r && k <= |sh.ordered|
    requires forall i :: 0 < i <= k ==> ListedSum(sh.table, sh.ordered, i) < r
    requires k < |sh.ordered| ==> r <= ListedSum(sh.table, sh.ordered, k + 1)
    ensures Rounded(sh, r) ==
            if k < |sh.ordered| && ListedSum(sh.table, sh.ordered, k + 1) < r * 1.5
            then ListedSum(sh.table, sh.ordered, k + 1) + 0.0000000001 else r
  {
    assert forall i :: 0 <= i < k ==> !Reaches(sh, r, i);
    assert k < |sh.ordered| ==> Reaches(sh, r, k);
  }

  /** The rounded ratio is not below the requested one, and not half as large again. */
  lemma RoundedBounds(sh: Shard, r: real)
    requires Listed(sh) && 0.0 <= r
    ensures r <= Rounded(sh, r) < SCALE * r + EPSILON
  {
  }

  /** The k-th flow is below the ratio in force, and up to it the flows without priority have
      the share that was asked for. */
  ghost predicate MeetsAt(sh: Shard, asked: real, r: real, k: nat)
    requires Listed(sh)
  {
    k < |sh.ordered| && asked <= UnmarkedSum(sh, k + 1) && At(sh, k).cdf < r * (1.0 - EPSILON)
  }

  /** When does the ratio in force divert the share that was asked for?  Whatever list it was
      rounded to, exactly if some flow of the list in use meets both conditions. */
  lemma ReachesIff(sh: Shard, asked: real, r: real)
    requires Listed(sh) && Rising(sh) && 0.0 < asked && 0.0 <= r
    ensures DivertedShare(sh, r, |sh.ordered|) >= asked <==> exists k: nat :: MeetsAt(sh, asked, r, k)
  {
    var m := Cut(sh, r, 0);
    DivertedIsPrefix(sh, r);
    if 0 < m && DivertedShare(sh, r, |sh.ordered|) >= asked {
      assert MeetsAt(sh, asked, r, m - 1);
    }
    if k: nat :| MeetsAt(sh, asked, r, k) {
      BelowCut(sh, r, k);
      UnmarkedRises(sh, k + 1, m);
    }
  }

  lemma BelowCut(sh: Shard, r: real, k: nat)
    requires Listed(sh) && Rising(sh) && k < |sh.ordered| && At(sh, k).cdf < r * (1.0 - EPSILON)
    ensures k < Cut(sh, r, 0)
  {
    if Cut(sh, r, 0) <= k {
      SumsRise(sh, Cut(sh, r, 0) + 1, k + 1);
    }
  }

  /** On the list that the ratio was rounded up to, at flow k, the request is met exactly when
      the running sum leaves room for the margin: then, and only then, flow k itself is
      diverted.  With priority flows on the list `ReachesIff` says when the request is met. */
  lemma RoundingReachesIff(sh: Shard, r: real, k: nat)
    requires Listed(sh) && Rising(sh) && 0.0 <= r && RoundsUpAt(sh, r, k)
    ensures Diverts(At(sh, k), Rounded(sh, r)) <==> At(sh, k).cdf + EPSILON < 1.0 && !At(sh, k).priority
    ensures Unmarked(sh) ==>
              (DivertedShare(sh, Rounded(sh, r), |sh.ordered|) >= r <==> At(sh, k).cdf + EPSILON < 1.0)
  {
    var c, r' := At(sh, k).cdf, Rounded(sh, r);
    SumsRise(sh, 0, k + 1);
    LessThanIff(c, r');
    MarginFits(c);
    if Unmarked(sh) {
      ReachesIff(sh, r, r');
      OnlyAt(sh, r, k);
    }
  }

  /** The request can only be met at flow k, if at all. */
  lemma OnlyAt(sh: Shard, r: real, k: nat)
    requires Listed(sh) && Rising(sh) && Unmarked(sh) && 0.0 <= r && RoundsUpAt(sh, r, k)
    ensures (exists j: nat :: MeetsAt(sh, r, Rounded(sh, r), j)) <==> At(sh, k).cdf < Rounded(sh, r) * (1.0 - EPSILON)
  {
    if j: nat :| MeetsAt(sh, r, Rounded(sh, r), j) {
      UnmarkedAtMost(sh, j + 1);
      assert Reaches(sh, r, j);
      assert k <= j;
      SumsRise(sh, k + 1, j + 1);
    }
    if At(sh, k).cdf < Rounded(sh, r) * (1.0 - EPSILON) {
      UnmarkedAtMost(sh, k + 1);
      assert MeetsAt(sh, r, Rounded(sh, r), k);
    }
  }

  lemma MarginFits(c: real)
    requires 0.0 <= c
    ensures c < (c + EPSILON) * (1.0 - EPSILON) <==> c + EPSILON < 1.0
  {
  }

  // ---------------------------------------------------------------------
  // The list that is used next

  const ONE: Flow := Flow(1, 2, 3, 4)
  const TWO: Flow := Flow(5, 6, 7, 8)

  function PlainOne(len: nat): Event {
    Arrive(Packet(ONE, false, len))
  }

  function MarkedTwo(len: nat): Event {
    Arrive(Packet(TWO, true, len))
  }

  function Priority(bytes: nat): FlowState {
    FlowState(0.0, 0.0, 0.0, true, 0, bytes)
  }

  function ExampleShard(one: FlowState, two: nat, hit: bool, bytes: nat, packets: nat, oldBytes: nat, oldPackets: nat,
                        ordered: seq<Flow>): Shard {
    Shard(map[ONE := one, TWO := Priority(two)], if hit then {ONE} else {}, {}, bytes, packets, oldBytes, oldPackets,
          ordered)
  }

  const ASKED: real := 0.4
  const HALF: FlowState := FlowState(0.5, 0.5, 0.5, false, 1, 60)
  const BEFORE: Shard := ExampleShard(HALF.(prob := 0.6, epoch := 2, bytes := 1), 90, true, 1, 1, 100, 2, [ONE])
  const AFTER: Shard := ExampleShard(FlowState(0.6, 0.6, 0.6, false, 2, 1), 90, false, 0, 0, 1, 1, [ONE])

  const FRESH: FlowState := FlowState(0.0, 0.0, 0.0, false, 0, 50)
  const AGED: FlowState := FlowState(0.0, 0.5, 0.0, false, 1, 60)
  const ONLY_ONE: Shard := Shard(map[ONE := FRESH], {}, {}, 50, 1, 0, 0, [])

  lemma OneShare(table: map<Flow, FlowState>)
    requires ONE in table
    ensures ListedSum(table, [ONE], 1) == table[ONE].prob2
  {
    assert RunningSum(SharesOf(table, [ONE]), 0) == 0.0;
  }

  lemma ExampleTicks()
    ensures EpochStep(ExampleShard(FRESH, 50, false, 100, 2, 0, 0, []),
                      ExampleShard(FRESH, 50, false, 0, 0, 100, 2, []))
    ensures EpochStep(ExampleShard(AGED, 90, true, 100, 2, 100, 2, []),
                      ExampleShard(HALF, 90, false, 0, 0, 100, 2, [ONE]))
    ensures EpochStep(BEFORE, AFTER)
  {
    OneShare(ExampleShard(HALF, 90, false, 0, 0, 100, 2, [ONE]).table);
    OneShare(AFTER.table);
  }

  lemma FirstPackets()
    ensures Step(EMPTY_SHARD, 0, PlainOne(50), ONLY_ONE)
    ensures Step(ONLY_ONE, 0, MarkedTwo(50), ExampleShard(FRESH, 50, false, 100, 2, 0, 0, []))
  {
  }

  lemma SecondPackets()
    ensures Step(ExampleShard(FRESH, 50, false, 0, 0, 100, 2, []), 1, PlainOne(60),
                 ExampleShard(AGED, 50, true, 60, 1, 100, 2, []))
  {
  }

  lemma ThirdPackets()
    ensures Step(ExampleShard(AGED, 50, true, 60, 1, 100, 2, []), 1, MarkedTwo(40),
                 ExampleShard(AGED, 90, true, 100, 2, 100, 2, []))
  {
  }

  lemma LastPacket()
    ensures Step(ExampleShard(HALF, 90, false, 0, 0, 100, 2, [ONE]), 2, PlainOne(1), BEFORE)
  {
  }

  lemma ExampleEpochs(evs: seq<Event>)
    requires evs == [PlainOne(50), MarkedTwo(50), Tick, PlainOne(60), MarkedTwo(40), Tick, PlainOne(1), Tick]
    ensures EpochAfter(evs[..0]) == EpochAfter(evs[..1]) == EpochAfter(evs[..2]) == 0
    ensures EpochAfter(evs[..3]) == EpochAfter(evs[..4]) == EpochAfter(evs[..5]) == 1
    ensures EpochAfter(evs[..6]) == EpochAfter(evs[..7]) == 2
  {
    assert evs[..1][..0] == evs[..0] && evs[..2][..1] == evs[..1] && evs[..3][..2] == evs[..2];
    assert evs[..4][..3] == evs[..3] && evs[..5][..4] == evs[..4];
    assert evs[..6][..5] == evs[..5] && evs[..7][..6] == evs[..6];
  }

  lemma ExampleShares()
    ensures Listed(BEFORE) && Listed(AFTER) && RoundsUpAt(BEFORE, ASKED, 0)
    ensures DivertedShare(BEFORE, Rounded(BEFORE, ASKED), 1) == 0.5
    ensures DivertedShare(AFTER, Rounded(BEFORE, ASKED), 1) == 0.0
  {
    OneShare(BEFORE.table);
    assert Reaches(BEFORE, ASKED, 0);
    assert FirstReach(BEFORE, ASKED, 0) == 0;
    assert Rounded(BEFORE, ASKED) == 0.5 + EPSILON;
    assert At(BEFORE, 0) == BEFORE.table[ONE] && At(AFTER, 0) == AFTER.table[ONE];
    assert DivertedShare(BEFORE, Rounded(BEFORE, ASKED), 0) == 0.0;
    assert DivertedShare(AFTER, Rounded(BEFORE, ASKED), 0) == 0.0;
  }

  /** A run in which a request for 0.4 is rounded up to the running sum 0.5, which the list
      would meet; but the epoch step that rounds also makes a new list, on which the same
      flow has the share 0.6, and nothing at all is diverted. */
  lemma RequestMissed() returns (states: seq<Shard>, evs: seq<Event>)
    ensures IsRun(states, evs) && |evs| == 8 && evs[7] == Tick && states[7] == BEFORE && states[8] == AFTER
    ensures Listed(BEFORE) && Listed(AFTER) && RoundsUpAt(BEFORE, ASKED, 0)
    ensures ASKED <= DivertedShare(BEFORE, Rounded(BEFORE, ASKED), 1)
    ensures DivertedShare(AFTER, Rounded(BEFORE, ASKED), 1) == 0.0
  {
    evs := [PlainOne(50), MarkedTwo(50), Tick, PlainOne(60), MarkedTwo(40), Tick, PlainOne(1), Tick];
    states := [EMPTY_SHARD, ONLY_ONE,
               ExampleShard(FRESH, 50, false, 100, 2, 0, 0, []), ExampleShard(FRESH, 50, false, 0, 0, 100, 2, []),
               ExampleShard(AGED, 50, true, 60, 1, 100, 2, []), ExampleShard(AGED, 90, true, 100, 2, 100, 2, []),
               ExampleShard(HALF, 90, false, 0, 0, 100, 2, [ONE]), BEFORE, AFTER];
    ExampleEpochs(evs);
    ExampleTicks();
    FirstPackets();
    SecondPackets();
    ThirdPackets();
    LastPacket();
    ExampleShares();
  }

  // ---------------------------------------------------------------------
  // update_ratio

  /** Is the ratio reached at the k-th flow, and at what running sum? */
  method Search(sh: ShardInfo) returns (k: nat, accum: real)
    requires sh.Valid()
    ensures k == FirstReach(sh.View(), sh.rNew, 0)
    ensures k < |sh.ordered| ==> accum == ListedSum(sh.View().table, sh.View().ordered, k + 1)
  {
    ghost var v := sh.View();
    k, accum := 0, 0.0;
    while k < |sh.ordered|
      invariant k <= |sh.ordered|
      invariant accum == ListedSum(v.table, v.ordered, k)
      invariant FirstReach(v, sh.rNew, 0) == FirstReach(v, sh.rNew, k)
    {
      assert v.table[v.ordered[k]].prob2 == sh.ordered[k].prob2;
      accum := accum + sh.ordered[k].prob2;
      if accum >= sh.rNew {
        return;
      }
      k := k + 1;
    }
  }

  lemma RoundedCases(v: Shard, asked: real, k: nat, accum: real)
    requires Listed(v) && k == FirstReach(v, asked, 0)
    requires k < |v.ordered| ==> accum == ListedSum(v.table, v.ordered, k + 1)
    ensures Rounded(v, asked) ==
            if !IsEqualThan(asked, 0.0) && k < |v.ordered| && accum < asked * SCALE then accum + EPSILON else asked
  {
    EqualZeroIff(asked);
  }

  lemma NothingAsked(v: Shard, asked: real)
    requires Listed(v) && IsEqualThan(asked, 0.0)
    ensures Rounded(v, asked) == asked
  {
    EqualZeroIff(asked);
  }

  /** The rounding of one ratio in `update_ratio`. */
  method RoundedRatio(sh: ShardInfo) returns (ratio: real)
    requires sh.Valid()
    ensures ratio == Rounded(sh.View(), sh.rNew)
  {
    ratio := sh.rNew;
    if IsEqualThan(sh.rNew, 0.0) {
      NothingAsked(sh.View(), sh.rNew);
    } else {
      var k, accum := Search(sh);
      RoundedCases(sh.View(), sh.rNew, k, accum);
      if k < |sh.ordered| && accum < sh.rNew * SCALE {
        ratio := accum + EPSILON;
      }
    }
  }

  /** The rounded ratios of the shards. */
  ghost predicate RoundsAll(v: seq<Shard>, asked: seq<real>, rounded: seq<real>) {
    |v| == |asked| == |rounded| && forall i :: 0 <= i < |v| ==> Listed(v[i]) && rounded[i] == Rounded(v[i], asked[i])
  }
}
