/** The traffic generator of fastudpflows.cc: which flow each packet belongs to, how often
    a flow changes its ports, and when the generator stops. */
module UdpFlows {
  import opened Cyclic
  import opened Machine

  const NO_LIMIT: nat := 0xFFFF_FFFF

  /** A packet as the receiver can tell it apart: its flow, and how many times the
      ports of that flow had been changed when it was sent. */
  datatype Sent = Sent(flow: nat, generation: nat)

  // ---------------------------------------------------------------------
  // Scheduling of the sequential mode

  /** The length of a burst: FLOWBURST 0 behaves as 1. */
  function Burst(flowburst: nat): (b: nat)
    ensures 0 < b
  {
    if flowburst == 0 then 1 else flowburst
  }

  /** The flow of the k-th packet (from 0): the burst number, kept in 32 bits, modulo
      the number of flows. */
  function FlowAt(k: nat, b: nat, nflows: nat): nat
    requires 0 < b && 0 < nflows
  {
    Round(k / b, nflows)
  }

  /** Plain round robin by bursts: what the k-th packet's flow is meant to be. */
  function TurnAt(k: nat, b: nat, nflows: nat): nat
    requires 0 < b && 0 < nflows
  {
    (k / b) % nflows
  }

  lemma RoundRobinAt(k: nat, b: nat, nflows: nat)
    requires 0 < b && 0 < nflows && (k / b < TWO32 || TWO32 % nflows == 0)
    ensures FlowAt(k, b, nflows) == TurnAt(k, b, nflows)
  {
    RoundIs(k / b, nflows);
  }

  lemma WrapBreaksTurn(b: nat, nflows: nat)
    requires 0 < b && 0 < nflows && TWO32 % nflows != 0
    ensures FlowAt(b * TWO32, b, nflows) != TurnAt(b * TWO32, b, nflows)
  {
    DivModUnique(b * TWO32, b, TWO32, 0);
    DivModUnique(0, nflows, 0, 0);
  }

  /** The schedule is plain round robin for all time exactly when the number of flows
      divides 2^32; otherwise it is so until the 32-bit burst number wraps. */
  lemma RoundRobinIff(b: nat, nflows: nat)
    requires 0 < b && 0 < nflows
    ensures (forall k: nat :: FlowAt(k, b, nflows) == TurnAt(k, b, nflows)) <==> TWO32 % nflows == 0
  {
    if TWO32 % nflows == 0 {
      forall k: nat ensures FlowAt(k, b, nflows) == TurnAt(k, b, nflows) {
        RoundRobinAt(k, b, nflows);
      }
    } else {
      WrapBreaksTurn(b, nflows);
    }
  }

  /** How many of the first `k` packets belong to flow `f`. */
  function Total(k: nat, f: nat, b: nat, nflows: nat): nat
    requires 0 < b && 0 < nflows
  {
    if k == 0 then 0
    else Total(k - 1, f, b, nflows) + if FlowAt(k - 1, b, nflows) == f then 1 else 0
  }

  /** How many of the first `q` bursts go to flow `f`. */
  function Rounds(q: nat, f: nat, nflows: nat): nat
    requires 0 < nflows
  {
    if q == 0 then 0 else Rounds(q - 1, f, nflows) + if Round(q - 1, nflows) == f then 1 else 0
  }

  /** Packets are counted burst by burst. */
  lemma {:induction false} TotalByRounds(k: nat, q: nat, r: nat, f: nat, b: nat, nflows: nat)
    requires 0 < nflows && r < b && k == b * q + r
    ensures Total(k, f, b, nflows) == b * Rounds(q, f, nflows) + if Round(q, nflows) == f then r else 0
    decreases k
  {
    if k == 0 {
      if q != 0 {
        MulGrows(b, 0, q);
      }
    } else if r != 0 {
      TotalByRounds(k - 1, q, r - 1, f, b, nflows);
      DivModUnique(k - 1, b, q, r - 1);
    } else {
      assert q != 0;
      assert k - 1 == b * (q - 1) + (b - 1) by {
        MulDistributes(b, q - 1, 1);
      }
      TotalByRounds(k - 1, q - 1, b - 1, f, b, nflows);
      DivModUnique(k - 1, b, q - 1, b - 1);
      MulDistributes(b, Rounds(q - 1, f, nflows), 1);
    }
  }

  /** While the burst number has not wrapped, or wrapping is harmless, flow `f` has had
      the `t` complete turns plus one more if its place in the current turn has been reached. */
  lemma {:induction false} RoundsClosed(q: nat, t: nat, p: nat, f: nat, nflows: nat)
    requires f < nflows && p < nflows && q == nflows * t + p
    requires q <= TWO32 || TWO32 % nflows == 0
    ensures Rounds(q, f, nflows) == t + if f < p then 1 else 0
    decreases q
  {
    if q == 0 {
      if t != 0 {
        MulGrows(nflows, 0, t);
      }
    } else if p != 0 {
      RoundsClosed(q - 1, t, p - 1, f, nflows);
      RoundIs(q - 1, nflows);
      DivModUnique(q - 1, nflows, t, p - 1);
    } else {
      assert t != 0;
      MulDistributes(nflows, t - 1, 1);
      RoundsClosed(q - 1, t - 1, nflows - 1, f, nflows);
      RoundIs(q - 1, nflows);
      DivModUnique(q - 1, nflows, t - 1, nflows - 1);
    }
  }

  lemma RoundsApart(q: nat, f: nat, g: nat, nflows: nat)
    requires f < nflows && g < nflows && (q <= TWO32 || TWO32 % nflows == 0)
    ensures var x, y := Rounds(q, f, nflows), Rounds(q, g, nflows);
            x <= y || (x == y + 1 && (q < TWO32 || TWO32 % nflows == 0 ==> Round(q, nflows) != f))
  {
    DivMod(q, nflows);
    RoundsClosed(q, q / nflows, q % nflows, f, nflows);
    RoundsClosed(q, q / nflows, q % nflows, g, nflows);
    if q < TWO32 || TWO32 % nflows == 0 {
      RoundIs(q, nflows);
    }
  }

  lemma MulMonotone(b: nat, x: nat, y: nat)
    requires x <= y
    ensures b * x <= b * y
  {
    if x < y {
      MulGrows(b, x, y);
    }
  }

  /** Fairness: the totals of two flows never differ by more than one burst. */
  lemma Balanced(k: nat, f: nat, g: nat, b: nat, nflows: nat)
    requires 0 < b && f < nflows && g < nflows
    requires k <= b * TWO32 || TWO32 % nflows == 0
    ensures Total(k, f, b, nflows) <= Total(k, g, b, nflows) + b
  {
    DivMod(k, b);
    var q, r := k / b, k % b;
    if TWO32 % nflows != 0 && TWO32 <= q {
      MulMonotone(b, TWO32, q);
      if TWO32 < q {
        MulGrows(b, TWO32, q);
      }
      assert q == TWO32 && r == 0;
    }
    BalancedAt(q, r, f, g, b, nflows);
  }

  lemma BalancedAt(q: nat, r: nat, f: nat, g: nat, b: nat, nflows: nat)
    requires r < b && f < nflows && g < nflows
    requires TWO32 % nflows == 0 || q < TWO32 || (q == TWO32 && r == 0)
    ensures Total(b * q + r, f, b, nflows) <= Total(b * q + r, g, b, nflows) + b
  {
    TotalByRounds(b * q + r, q, r, f, b, nflows);
    TotalByRounds(b * q + r, q, r, g, b, nflows);
    RoundsApart(q, f, g, nflows);
    var x, y := Rounds(q, f, nflows), Rounds(q, g, nflows);
    if x <= y {
      MulMonotone(b, x, y);
    } else {
      MulDistributes(b, y, 1);
    }
  }

  lemma RoundsAtWrap(t: nat, p: nat, nflows: nat)
    requires 0 < p < nflows && TWO32 == nflows * t + p
    ensures Rounds(TWO32 + 1, 0, nflows) == Rounds(TWO32 + 1, nflows - 1, nflows) + 2
  {
    RoundsClosed(TWO32, t, p, 0, nflows);
    RoundsClosed(TWO32, t, p, nflows - 1, nflows);
    assert Round(TWO32, nflows) == 0 by {
      DivModUnique(0, nflows, 0, 0);
    }
  }

  /** At the first wrap of the burst number flow 0 is two bursts ahead of the last flow,
      unless the number of flows divides 2^32. */
  lemma WrapBreaksBalance(b: nat, nflows: nat)
    requires 0 < b && 0 < nflows && TWO32 % nflows != 0
    ensures Total(b * (TWO32 + 1), 0, b, nflows) == Total(b * (TWO32 + 1), nflows - 1, b, nflows) + 2 * b
  {
    DivMod(TWO32, nflows);
    RoundsAtWrap(TWO32 / nflows, TWO32 % nflows, nflows);
    TotalByRounds(b * (TWO32 + 1), TWO32 + 1, 0, 0, b, nflows);
    TotalByRounds(b * (TWO32 + 1), TWO32 + 1, 0, nflows - 1, b, nflows);
    MulDistributes(b, Rounds(TWO32 + 1, nflows - 1, nflows), 2);
  }

  ghost predicate AlwaysBalanced(b: nat, nflows: nat)
    requires 0 < b && 0 < nflows
  {
    forall k: nat, f: nat, g: nat :: f < nflows && g < nflows ==>
      Total(k, f, b, nflows) <= Total(k, g, b, nflows) + b
  }

  /** Fairness holds for all time exactly when the number of flows divides 2^32. */
  lemma BalancedIff(b: nat, nflows: nat)
    requires 0 < b && 0 < nflows
    ensures AlwaysBalanced(b, nflows) <==> TWO32 % nflows == 0
  {
    if TWO32 % nflows == 0 {
      forall k: nat, f: nat, g: nat | f < nflows && g < nflows
        ensures Total(k, f, b, nflows) <= Total(k, g, b, nflows) + b
      {
        Balanced(k, f, g, b, nflows);
      }
    } else {
      WrapBreaksBalance(b, nflows);
    }
  }

  // ---------------------------------------------------------------------
  // Ports of a flow

  /** How many packets of flow `f` are among `sent`. */
  function SentOf(sent: seq<Sent>, f: nat): nat {
    if sent == [] then 0
    else SentOf(sent[..|sent| - 1], f) + if sent[|sent| - 1].flow == f then 1 else 0
  }

  lemma SentOfSnoc(sent: seq<Sent>, p: Sent, f: nat)
    ensures SentOf(sent + [p], f) == SentOf(sent, f) + if p.flow == f then 1 else 0
  {
    assert (sent + [p])[..|sent|] == sent;
  }

  /** How many packets of flow `f` were sent with its ports changed `g` times. */
  function SentWith(sent: seq<Sent>, f: nat, g: nat): nat {
    if sent == [] then 0
    else SentWith(sent[..|sent| - 1], f, g) + if sent[|sent| - 1] == Sent(f, g) then 1 else 0
  }

  /** `g` port changes come before the m-th packet of a flow (from 1).  With FLOWSIZE 0
      the ports change before every packet, the first included. */
  ghost predicate IsGeneration(m: nat, flowsize: nat, g: nat) {
    if flowsize == 0 then g == m
    else Steps(flowsize, g) < m <= Steps(flowsize, g) + flowsize
  }

  lemma GenerationIsQuotient(m: nat, flowsize: nat, g: nat)
    requires 0 < m && 0 < flowsize
    ensures IsGeneration(m, flowsize, g) <==> g == (m - 1) / flowsize
  {
    DivMod(m - 1, flowsize);
    StepsIsProduct(flowsize, (m - 1) / flowsize);
    if IsGeneration(m, flowsize, g) {
      DivModSteps(m - 1, flowsize, g, m - 1 - Steps(flowsize, g));
    }
  }

  /** Every packet of the history carries the port generation due to its place in its flow. */
  ghost predicate History(sent: seq<Sent>, flowsize: nat) {
    forall i :: 0 <= i < |sent| ==>
      IsGeneration(SentOf(sent[..i], sent[i].flow) + 1, flowsize, sent[i].generation)
  }

  /** Every packet of the history belongs to the flow whose turn it was. */
  ghost predicate Turns(sent: seq<Sent>, flowburst: nat, nflows: nat)
    requires 0 < nflows
  {
    forall i {:trigger sent[i]} :: 0 <= i < |sent| ==> sent[i].flow == FlowAt(i, Burst(flowburst), nflows)
  }

  lemma HistoryPrefix(sent: seq<Sent>, flowsize: nat)
    requires History(sent, flowsize) && sent != []
    ensures History(sent[..|sent| - 1], flowsize)
  {
    var s := sent[..|sent| - 1];
    forall i | 0 <= i < |s| ensures IsGeneration(SentOf(s[..i], s[i].flow) + 1, flowsize, s[i].generation) {
      assert s[..i] == sent[..i];
    }
  }

  lemma HistorySnoc(sent: seq<Sent>, p: Sent, flowsize: nat)
    requires History(sent, flowsize) && IsGeneration(SentOf(sent, p.flow) + 1, flowsize, p.generation)
    ensures History(sent + [p], flowsize)
  {
    var s := sent + [p];
    forall i | 0 <= i < |s| ensures IsGeneration(SentOf(s[..i], s[i].flow) + 1, flowsize, s[i].generation) {
      assert s[..i] == if i < |sent| then sent[..i] else sent;
    }
  }

  lemma TurnInFigures(sent: seq<Sent>, p: Sent, flowburst: nat, nflows: nat)
    requires 0 < nflows && Turns(sent + [p], flowburst, nflows)
    ensures p.flow == ((|sent| / (if flowburst == 0 then 1 else flowburst)) % 0x1_0000_0000) % nflows
  {
    assert (sent + [p])[|sent|] == p;
  }

  lemma GenerationInFigures(m: nat, flowsize: nat, g: nat)
    requires IsGeneration(m + 1, flowsize, g)
    ensures g == if flowsize == 0 then m + 1 else m / flowsize
  {
    if flowsize != 0 {
      GenerationIsQuotient(m + 1, flowsize, g);
    }
  }

  lemma {:induction false} CountedSet(sent: seq<Sent>, f: nat)
    ensures SentOf(sent, f) == |set i | 0 <= i < |sent| && sent[i].flow == f|
  {
    var all := set i | 0 <= i < |sent| && sent[i].flow == f;
    if sent == [] {
      assert all == {};
    } else {
      var n := |sent| - 1;
      CountedSet(sent[..n], f);
      var before := set i | 0 <= i < n && sent[..n][i].flow == f;
      assert all == before + if sent[n].flow == f then {n} else {};
    }
  }

  // ---------------------------------------------------------------------
  // Fairness of the packets sent

  /** What was sent of a flow is what the schedule gives it. */
  lemma {:induction false} SentIsTotal(sent: seq<Sent>, flowburst: nat, nflows: nat, f: nat)
    requires 0 < nflows && Turns(sent, flowburst, nflows)
    ensures SentOf(sent, f) == Total(|sent|, f, Burst(flowburst), nflows)
  {
    if sent != [] {
      var n := |sent| - 1;
      SentIsTotal(sent[..n], flowburst, nflows, f);
      assert sent[n].flow == FlowAt(n, Burst(flowburst), nflows);
    }
  }

  /** No flow is more than one burst ahead of another. */
  ghost predicate Fair(sent: seq<Sent>, flowburst: nat, nflows: nat) {
    forall f: nat, g: nat :: f < nflows && g < nflows ==> SentOf(sent, f) <= SentOf(sent, g) + Burst(flowburst)
  }

  /** The history of a sequential generator is fair until the burst number wraps, and for all
      time if the number of flows divides 2^32. */
  lemma SentFair(sent: seq<Sent>, flowburst: nat, nflows: nat)
    requires 0 < nflows && Turns(sent, flowburst, nflows)
    requires |sent| <= Burst(flowburst) * TWO32 || TWO32 % nflows == 0
    ensures Fair(sent, flowburst, nflows)
  {
    forall f: nat, g: nat | f < nflows && g < nflows ensures SentOf(sent, f) <= SentOf(sent, g) + Burst(flowburst) {
      SentIsTotal(sent, flowburst, nflows, f);
      SentIsTotal(sent, flowburst, nflows, g);
      Balanced(|sent|, f, g, Burst(flowburst), nflows);
    }
  }

  function DueGeneration(m: nat, flowsize: nat): (g: nat)
    requires 0 < m
    ensures IsGeneration(m, flowsize, g)
  {
    if flowsize == 0 then m
    else
      GenerationIsQuotient(m, flowsize, (m - 1) / flowsize);
      (m - 1) / flowsize
  }

  /** The packet that comes after a history. */
  function NextSent(sent: seq<Sent>, flowsize: nat, flowburst: nat, nflows: nat): Sent
    requires 0 < nflows
  {
    var f := FlowAt(|sent|, Burst(flowburst), nflows);
    Sent(f, DueGeneration(SentOf(sent, f) + 1, flowsize))
  }

  lemma NextKeeps(sent: seq<Sent>, flowsize: nat, flowburst: nat, nflows: nat)
    requires 0 < nflows && History(sent, flowsize) && Turns(sent, flowburst, nflows)
    ensures var next := sent + [NextSent(sent, flowsize, flowburst, nflows)];
            History(next, flowsize) && Turns(next, flowburst, nflows)
  {
    HistorySnoc(sent, NextSent(sent, flowsize, flowburst, nflows), flowsize);
  }

  /** The history of `k` packets. */
  function Played(k: nat, flowsize: nat, flowburst: nat, nflows: nat): (sent: seq<Sent>)
    requires 0 < nflows
    ensures |sent| == k
  {
    if k == 0 then []
    else
      var before := Played(k - 1, flowsize, flowburst, nflows);
      before + [NextSent(before, flowsize, flowburst, nflows)]
  }

  lemma {:induction false} PlayedIsHistory(k: nat, flowsize: nat, flowburst: nat, nflows: nat)
    requires 0 < nflows
    ensures History(Played(k, flowsize, flowburst, nflows), flowsize)
    ensures Turns(Played(k, flowsize, flowburst, nflows), flowburst, nflows)
  {
    if k != 0 {
      PlayedIsHistory(k - 1, flowsize, flowburst, nflows);
      NextKeeps(Played(k - 1, flowsize, flowburst, nflows), flowsize, flowburst, nflows);
    }
  }

  /** All histories of a sequential generator are fair exactly if the number of flows divides
      2^32. */
  lemma SentFairIff(flowsize: nat, flowburst: nat, nflows: nat)
    requires 0 < nflows
    ensures (forall sent: seq<Sent> :: History(sent, flowsize) && Turns(sent, flowburst, nflows) ==>
             Fair(sent, flowburst, nflows))
            <==> TWO32 % nflows == 0
  {
    if TWO32 % nflows == 0 {
      forall sent: seq<Sent> | History(sent, flowsize) && Turns(sent, flowburst, nflows)
        ensures Fair(sent, flowburst, nflows)
      {
        SentFair(sent, flowburst, nflows);
      }
    } else {
      var sent := UnfairHistory(flowsize, flowburst, nflows);
    }
  }

  /** The history that ends one burst after the wrap. */
  lemma UnfairHistory(flowsize: nat, flowburst: nat, nflows: nat) returns (sent: seq<Sent>)
    requires 0 < nflows && TWO32 % nflows != 0
    ensures History(sent, flowsize) && Turns(sent, flowburst, nflows) && !Fair(sent, flowburst, nflows)
  {
    var k := WrapLength(Burst(flowburst), nflows);
    sent := Played(k, flowsize, flowburst, nflows);
    PlayedIsHistory(k, flowsize, flowburst, nflows);
    SentIsTotal(sent, flowburst, nflows, 0);
    SentIsTotal(sent, flowburst, nflows, nflows - 1);
    assert SentOf(sent, 0) > SentOf(sent, nflows - 1) + Burst(flowburst);
  }

  lemma WrapLength(b: nat, nflows: nat) returns (k: nat)
    requires 0 < b && 0 < nflows && TWO32 % nflows != 0
    ensures Total(k, 0, b, nflows) > Total(k, nflows - 1, b, nflows) + b
  {
    k := b * (TWO32 + 1);
    WrapBreaksBalance(b, nflows);
  }

  /** Each flow is limited to FLOWSIZE packets between two port changes, and uses all of
      them before it changes: generation g holds packets gF+1 .. (g+1)F of the flow. */
  lemma {:induction false} FlowSizeLimit(sent: seq<Sent>, flowsize: nat, f: nat, g: nat)
    requires History(sent, flowsize) && 0 < flowsize
    ensures var m := SentOf(sent, f);
            SentWith(sent, f, g) == if m <= Steps(flowsize, g) then 0
                                    else if m <= Steps(flowsize, g) + flowsize then m - Steps(flowsize, g)
                                    else flowsize
  {
    if sent != [] {
      var n := |sent| - 1;
      HistoryPrefix(sent, flowsize);
      FlowSizeLimit(sent[..n], flowsize, f, g);
      if sent[n].flow == f {
        OneGeneration(SentOf(sent[..n], f) + 1, flowsize, g, sent[n].generation);
      }
    }
  }

  lemma OneGeneration(m: nat, flowsize: nat, g: nat, g': nat)
    requires 0 < m && 0 < flowsize && IsGeneration(m, flowsize, g')
    ensures IsGeneration(m, flowsize, g) <==> g == g'
  {
    GenerationIsQuotient(m, flowsize, g);
    GenerationIsQuotient(m, flowsize, g');
  }

  /** The two counters of a flow that has sent `m` packets. */
  ghost predicate Counters(m: nat, flowsize: nat, flowCount: nat, portChanges: nat) {
    if m == 0 then flowCount == 0 && portChanges == 0
    else if flowsize == 0 then flowCount == 1 && portChanges == m
    else 1 <= flowCount <= flowsize && m == Steps(flowsize, portChanges) + flowCount
  }

  lemma NextCounters(m: nat, flowsize: nat, flowCount: nat, portChanges: nat)
    requires Counters(m, flowsize, flowCount, portChanges)
    ensures flowCount < flowsize ==>
              Counters(m + 1, flowsize, flowCount + 1, portChanges) && IsGeneration(m + 1, flowsize, portChanges)
    ensures flowsize <= flowCount ==>
              Counters(m + 1, flowsize, 1, portChanges + 1) && IsGeneration(m + 1, flowsize, portChanges + 1)
  {
  }

  lemma CountersKeep(sent: seq<Sent>, p: Sent, f: nat, flowsize: nat, flowCount: nat, portChanges: nat)
    requires p.flow != f && Counters(SentOf(sent, f), flowsize, flowCount, portChanges)
    ensures Counters(SentOf(sent + [p], f), flowsize, flowCount, portChanges)
  {
    SentOfSnoc(sent, p, f);
  }

  lemma TurnsSnoc(sent: seq<Sent>, p: Sent, q: nat, r: nat, flowburst: nat, nflows: nat)
    requires 0 < nflows && Turns(sent, flowburst, nflows)
    requires r < Burst(flowburst) && |sent| == Steps(Burst(flowburst), q) + r && p.flow == Round(q, nflows)
    ensures Turns(sent + [p], flowburst, nflows)
  {
    DivModSteps(|sent|, Burst(flowburst), q, r);
  }

  // ---------------------------------------------------------------------
  // The element

  class FastUdpFlows {
    const nflows: nat
    const flowsize: nat
    const flowburst: nat
    const limit: nat
    const rateLimited: bool
    const stop: bool
    const sequential: bool
    var active: bool
    var index: nat
    var burstCount: nat
    const flowCount: array<nat>
    const portChanges: array<nat>
    var count: nat
    var first: int
    var last: int
    var stopping: bool
    ghost var sent: seq<Sent>   // every packet since the element was initialised
    ghost var pulled: nat       // packets handed out since the last reset
    ghost var bursts: nat       // complete bursts of the sequential mode

    ghost predicate Valid()
      reads this, flowCount, portChanges
    {
      && flowburst < TWO32 && limit < TWO32
      && Counted()
      && Flows(sent)
      && Schedule(|sent|)
      && (sequential ==> Turns(sent, flowburst, nflows))
    }

    /** `count` is the number of packets handed out, in 32 bits. */
    ghost predicate Counted()
      reads this`count, this`pulled
    {
      count == pulled % TWO32 && (limit != NO_LIMIT ==> pulled <= limit)
    }

    /** The scheduler stands before the k-th packet. */
    ghost predicate Schedule(k: nat)
      reads this`index, this`burstCount, this`bursts
    {
      0 < nflows &&
      (sequential ==>
         && index == bursts % TWO32 && 0 < burstCount <= Burst(flowburst)
         && k == Steps(Burst(flowburst), bursts) + (burstCount - 1))
    }

    /** The per-flow counters account for the history. */
    ghost predicate Flows(sent: seq<Sent>)
      reads flowCount, portChanges
    {
      && flowCount != portChanges && flowCount.Length == nflows && portChanges.Length == nflows
      && History(sent, flowsize)
      && (forall f :: 0 <= f < nflows ==> Counters(SentOf(sent, f), flowsize, flowCount[f], portChanges[f]))
    }

    constructor (nflows: nat, flowsize: nat, flowburst: nat, limit: nat, rateLimited: bool, stop: bool,
                 sequential: bool, active: bool)
      requires 0 < nflows && flowburst < TWO32 && limit < TWO32
      ensures Valid() && sent == [] && pulled == 0 && this.active == active
      ensures this.nflows == nflows && this.flowsize == flowsize && this.flowburst == flowburst
      ensures this.limit == limit && this.rateLimited == rateLimited && this.sequential == sequential
      ensures this.stop == stop && !stopping && index == 0 && burstCount == 1 && first == 0 && last == 0
      ensures fresh(flowCount) && fresh(portChanges)
    {
      this.nflows, this.flowsize, this.flowburst := nflows, flowsize, flowburst;
      this.limit, this.rateLimited, this.stop := limit, rateLimited, stop;
      this.sequential, this.active := sequential, active;
      index, burstCount, count, first, last, stopping := 0, 1, 0, 0, 0, false;
      flowCount, portChanges := new nat[nflows](_ => 0), new nat[nflows](_ => 0);
      sent, pulled, bursts := [], 0, 0;
    }

    /** First half of `get_packet`: which flow is next. */
    method ChooseFlow(random: nat) returns (flow: nat)
      requires Schedule(|sent|)
      modifies this`index, this`burstCount, this`bursts
      ensures Schedule(|sent| + 1) && flow < nflows
      ensures sequential ==> flow == Round(old(bursts), nflows)
      ensures !sequential ==> index == old(index)
      ensures !sequential ==> flow == (if old(burstCount) < flowburst then index else random / 4) % nflows
      ensures burstCount == if old(burstCount) < flowburst then old(burstCount) + 1 else 1
    {
      if burstCount < flowburst {
        burstCount := burstCount + 1;
        flow := index % nflows;
      } else {
        if sequential {
          flow := index % nflows;
          AddMod(bursts, 1);
          index := (index + 1) % TWO32;
          bursts := bursts + 1;
        } else {
          flow := (random / 4) % nflows;
        }
        burstCount := 1;
      }
    }

    /** One more packet of a flow, after a port change if the ports have served their time. */
    method CountInFlow(flow: nat)
      requires flowCount != portChanges && flow < flowCount.Length == portChanges.Length
      modifies flowCount, portChanges
      ensures flowCount[flow] == if old(flowCount[flow]) < flowsize then old(flowCount[flow]) + 1 else 1
      ensures portChanges[flow] == old(portChanges[flow]) + if old(flowCount[flow]) < flowsize then 0 else 1
      ensures forall f :: 0 <= f < flowCount.Length && f != flow ==>
                flowCount[f] == old(flowCount[f]) && portChanges[f] == old(portChanges[f])
    {
      if flowCount[flow] >= flowsize {
        portChanges[flow] := portChanges[flow] + 1;
        flowCount[flow] := 0;
      }
      flowCount[flow] := flowCount[flow] + 1;
    }

    /** Second half of `get_packet`: count the packet, changing the ports when due. */
    method Emit(flow: nat) returns (p: Sent)
      requires Flows(sent) && flow < nflows
      modifies flowCount, portChanges
      ensures Flows(sent + [p]) && p.flow == flow
      ensures IsGeneration(SentOf(sent, flow) + 1, flowsize, p.generation)
    {
      NextCounters(SentOf(sent, flow), flowsize, flowCount[flow], portChanges[flow]);
      CountInFlow(flow);
      p := Sent(flow, portChanges[flow]);
      assert Counters(SentOf(sent, flow) + 1, flowsize, flowCount[flow], portChanges[flow]);
      HistorySnoc(sent, p, flowsize);
      forall f | 0 <= f < nflows
        ensures Counters(SentOf(sent + [p], f), flowsize, flowCount[f], portChanges[f])
      {
        if f == flow {
          SentOfSnoc(sent, p, f);
        } else {
          CountersKeep(sent, p, f, flowsize, flowCount[f], portChanges[f]);
        }
      }
    }

    /** The next packet.  `Valid` says of the grown history that its flows follow `FlowAt`
        and its port changes follow `IsGeneration`.  `random` is the draw used when the mode is not sequential. */
    method GetPacket(random: nat) returns (p: Sent)
      requires Valid()
      modifies this`index, this`burstCount, this`bursts, this`sent, flowCount, portChanges
      ensures Valid() && sent == old(sent) + [p] && p.flow < nflows
      ensures sequential ==>
                p.flow == ((|old(sent)| / (if flowburst == 0 then 1 else flowburst)) % 0x1_0000_0000) % nflows
      ensures !sequential ==> index == old(index)
      ensures !sequential ==> p.flow == (if old(burstCount) < flowburst then index else random / 4) % nflows
      ensures burstCount == if old(burstCount) < flowburst then old(burstCount) + 1 else 1
      ensures var earlier := |set i | 0 <= i < |old(sent)| && old(sent)[i].flow == p.flow|;
              p.generation == if flowsize == 0 then earlier + 1 else earlier / flowsize
    {
      ghost var q, r := bursts, burstCount - 1;
      var flow := ChooseFlow(random);
      p := Emit(flow);
      if sequential {
        TurnsSnoc(sent, p, q, r, flowburst, nflows);
        TurnInFigures(sent, p, flowburst, nflows);
      }
      CountedSet(sent, p.flow);
      GenerationInFigures(SentOf(sent, p.flow), flowsize, p.generation);
      sent := sent + [p];
    }

    /** One pull at time `now`; `due` is the answer of the rate meter. */
    method Pull(now: int, due: bool, random: nat) returns (p: Option<Sent>)
      requires Valid()
      modifies this, flowCount, portChanges
      ensures Valid() && active == old(active)
      ensures p.Some? <==> active && (limit == NO_LIMIT || old(pulled) < limit) && (rateLimited ==> due)
      ensures p.Some? ==> pulled == old(pulled) + 1 && sent == old(sent) + [p.value]
      ensures p.Some? && sequential ==>
                p.value.flow == ((|old(sent)| / (if flowburst == 0 then 1 else flowburst)) % 0x1_0000_0000) % nflows
      ensures p.Some? && !sequential ==>
                p.value.flow == (if old(burstCount) < flowburst then old(index) else random / 4) % nflows
      ensures p.None? ==> pulled == old(pulled) && sent == old(sent)
      ensures first == if p.Some? && pulled % 0x1_0000_0000 == 1 then now else old(first)
      ensures last == if p.Some? && limit != NO_LIMIT && pulled == limit then now else old(last)
      ensures stopping == (old(stopping) || (p.Some? && limit != NO_LIMIT && pulled == limit && stop))
    {
      p := None;
      if !active || (limit != NO_LIMIT && count >= limit) {
        return;
      }
      if !rateLimited || due {
        var q := GetPacket(random);
        p := Some(q);
      }
      if p.Some? {
        CountPacket(now);
      }
    }

    /** The bookkeeping of `pull` after a packet has been made. */
    method CountPacket(now: int)
      requires Counted() && limit < TWO32 && (limit != NO_LIMIT ==> pulled < limit)
      modifies this`count, this`pulled, this`first, this`last, this`stopping
      ensures Counted() && pulled == old(pulled) + 1
      ensures first == if pulled % TWO32 == 1 then now else old(first)
      ensures last == if limit != NO_LIMIT && pulled == limit then now else old(last)
      ensures stopping == (old(stopping) || (limit != NO_LIMIT && pulled == limit && stop))
    {
      AddMod(pulled, 1);
      count := (count + 1) % TWO32;
      pulled := pulled + 1;
      if count == 1 {
        first := now;
      }
      if limit != NO_LIMIT && count >= limit {
        last := now;
        if stop {
          stopping := true;
        }
      }
    }

    /** A batch: pulls until `max` packets or the first empty pull, each with its own time and
        its own random number.  Without a rate, an
        active generator with a limit gives out exactly what is left of it, so over any
        number of batches exactly `limit` packets and nothing afterwards. */
    method PullBatch(max: nat, nows: seq<int>, randoms: seq<nat>) returns (batch: seq<Sent>)
      requires Valid() && !rateLimited && max <= |nows| && max <= |randoms|
      modifies this, flowCount, portChanges
      ensures Valid() && active == old(active)
      ensures sent == old(sent) + batch && pulled == old(pulled) + |batch|
      ensures |batch| == if !active then 0
                         else if limit == NO_LIMIT || old(pulled) + max <= limit then max
                         else limit - old(pulled)
    {
      batch := [];
      while |batch| < max
        invariant Valid() && active == old(active)
        invariant |batch| <= max
        invariant sent == old(sent) + batch && pulled == old(pulled) + |batch|
        invariant !active ==> batch == []
      {
        var p := Pull(nows[|batch|], true, randoms[|batch|]);
        if p.None? {
          break;
        }
        batch := batch + [p.value];
      }
    }

    method Reset()
      requires Valid()
      modifies this`count, this`first, this`last, this`pulled
      ensures Valid() && pulled == 0 && first == 0 && last == 0
    {
      count, first, last, pulled := 0, 0, 0, 0;
    }
  }
}
