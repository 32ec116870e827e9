/** Where packets are: the receive queues of the NIC, the bounded rings between cores, and
    what has left the system.  Two logs say which packets were diverted and which have had
    their flow state taken.  `rx_burst` takes a prefix of a queue; enqueueing a burst on a
    ring enters the prefix that fits, the rest is refused. */
module Device {
  import opened Selection

  /** A packet buffer, by its identity. */
  type Buf = nat

  const RING_SIZE: nat := 4095          // a ring created with 4096 slots keeps one free
  const NIC_LIMIT: nat := 0x7FFF_FFFF   // rte_eth_rx_queue_count returns an int

  datatype Packets = Packets(nic: seq<seq<Buf>>, rings: seq<seq<Buf>>,
                             emitted: seq<Buf>, offEmitted: seq<Buf>, refused: seq<Buf>,
                             extracted: seq<Buf>, diverted: seq<Buf>)

  function Min(a: nat, b: nat): nat {
    if a < b then a else b
  }

  /** How many of `n` packets a ring still takes. */
  function Room(ring: seq<Buf>, n: nat): (k: nat)
    ensures k <= n
  {
    if |ring| < RING_SIZE then Min(n, RING_SIZE - |ring|) else 0
  }

  function Put(pk: Packets, ring: nat, xs: seq<Buf>): (pk': Packets)
    requires ring < |pk.rings|
    ensures |pk'.rings| == |pk.rings| && pk'.nic == pk.nic
  {
    var k := Room(pk.rings[ring], |xs|);
    pk.(rings := pk.rings[ring := pk.rings[ring] + xs[..k]], refused := pk.refused + xs[k..])
  }

  /** All of the ring `from` moves to the ring `to`. */
  function Drained(pk: Packets, from: nat, to: nat): (pk': Packets)
    requires from < |pk.rings| && to < |pk.rings|
    ensures |pk'.rings| == |pk.rings| && pk'.nic == pk.nic
  {
    Put(pk.(rings := pk.rings[from := []]), to, pk.rings[from])
  }

  /** The first `n` packets of a receive queue move to a ring. */
  function Received(pk: Packets, w: nat, n: nat, ring: nat): (pk': Packets)
    requires w < |pk.nic| && n <= |pk.nic[w]| && ring < |pk.rings|
    ensures |pk'.rings| == |pk.rings| && |pk'.nic| == |pk.nic|
  {
    Put(pk.(nic := pk.nic[w := pk.nic[w][n..]]), ring, pk.nic[w][..n])
  }

  /** The first `n` packets of a ring are emitted by a working core, which takes their flow
      states first. */
  function Emitted(pk: Packets, ring: nat, n: nat): (pk': Packets)
    requires ring < |pk.rings| && n <= |pk.rings[ring]|
    ensures |pk'.rings| == |pk.rings| && pk'.nic == pk.nic
  {
    pk.(rings := pk.rings[ring := pk.rings[ring][n..]], emitted := pk.emitted + pk.rings[ring][..n],
        extracted := pk.extracted + pk.rings[ring][..n])
  }

  /** The first `n` packets of a ring are emitted by an offloading core, which takes no states. */
  function OffEmitted(pk: Packets, ring: nat, n: nat): (pk': Packets)
    requires ring < |pk.rings| && n <= |pk.rings[ring]|
    ensures |pk'.rings| == |pk.rings| && pk'.nic == pk.nic
  {
    pk.(rings := pk.rings[ring := pk.rings[ring][n..]], offEmitted := pk.offEmitted + pk.rings[ring][..n])
  }

  function Pick(xs: seq<Buf>, diverts: Buf -> bool, want: bool): (ys: seq<Buf>)
    ensures |ys| <= |xs|
  {
    if xs == [] then []
    else Pick(xs[..|xs| - 1], diverts, want) + if diverts(xs[|xs| - 1]) == want then [xs[|xs| - 1]] else []
  }

  /** A received batch is split, after the flow state of every packet has been taken: diverted
      packets go to the ring `q`, the others out. */
  function Split(pk: Packets, w: nat, n: nat, q: nat, diverts: Buf -> bool): (pk': Packets)
    requires w < |pk.nic| && n <= |pk.nic[w]| && q < |pk.rings|
    ensures |pk'.rings| == |pk.rings| && |pk'.nic| == |pk.nic|
  {
    var xs := pk.nic[w][..n];
    Put(pk.(nic := pk.nic[w := pk.nic[w][n..]], emitted := pk.emitted + Pick(xs, diverts, false),
            extracted := pk.extracted + xs, diverted := pk.diverted + Pick(xs, diverts, true)),
        q, Pick(xs, diverts, true))
  }

  // ---------------------------------------------------------------------
  // Nothing is lost, nothing appears twice

  function Count(xs: seq<Buf>, x: Buf): nat {
    multiset(xs)[x]
  }

  /** How often a packet occurs in the queues. */
  function Load(qs: seq<seq<Buf>>, x: Buf): nat {
    if qs == [] then 0 else Load(qs[..|qs| - 1], x) + Count(qs[|qs| - 1], x)
  }

  /** How often a packet occurs anywhere. */
  function Copies(pk: Packets, x: Buf): nat {
    Load(pk.nic, x) + Load(pk.rings, x) + Count(pk.emitted, x) + Count(pk.offEmitted, x) + Count(pk.refused, x)
  }

  lemma {:induction false} LoadUpdate(qs: seq<seq<Buf>>, i: nat, q: seq<Buf>, x: Buf)
    requires i < |qs|
    ensures Load(qs[i := q], x) == Load(qs, x) + Count(q, x) - Count(qs[i], x)
  {
    var n := |qs| - 1;
    if i == n {
      assert qs[i := q][..n] == qs[..n];
    } else {
      assert qs[i := q][..n] == qs[..n][i := q];
      LoadUpdate(qs[..n], i, q, x);
    }
  }

  lemma SplitCounts(xs: seq<Buf>, k: nat, x: Buf)
    requires k <= |xs|
    ensures Count(xs, x) == Count(xs[..k], x) + Count(xs[k..], x)
  {
    assert xs == xs[..k] + xs[k..];
  }

  lemma PutConserves(pk: Packets, ring: nat, xs: seq<Buf>, x: Buf)
    requires ring < |pk.rings|
    ensures Copies(Put(pk, ring, xs), x) == Copies(pk, x) + Count(xs, x)
  {
    var k := Room(pk.rings[ring], |xs|);
    SplitCounts(xs, k, x);
    LoadUpdate(pk.rings, ring, pk.rings[ring] + xs[..k], x);
  }

  lemma TakeRing(pk: Packets, ring: nat, n: nat, x: Buf)
    requires ring < |pk.rings| && n <= |pk.rings[ring]|
    ensures Load(pk.rings[ring := pk.rings[ring][n..]], x) == Load(pk.rings, x) - Count(pk.rings[ring][..n], x)
  {
    SplitCounts(pk.rings[ring], n, x);
    LoadUpdate(pk.rings, ring, pk.rings[ring][n..], x);
  }

  lemma TakeNic(pk: Packets, w: nat, n: nat, x: Buf)
    requires w < |pk.nic| && n <= |pk.nic[w]|
    ensures Load(pk.nic[w := pk.nic[w][n..]], x) == Load(pk.nic, x) - Count(pk.nic[w][..n], x)
  {
    SplitCounts(pk.nic[w], n, x);
    LoadUpdate(pk.nic, w, pk.nic[w][n..], x);
  }

  lemma DrainedConserves(pk: Packets, from: nat, to: nat, x: Buf)
    requires from < |pk.rings| && to < |pk.rings|
    ensures Copies(Drained(pk, from, to), x) == Copies(pk, x)
  {
    LoadUpdate(pk.rings, from, [], x);
    PutConserves(pk.(rings := pk.rings[from := []]), to, pk.rings[from], x);
  }

  lemma ReceivedConserves(pk: Packets, w: nat, n: nat, ring: nat, x: Buf)
    requires w < |pk.nic| && n <= |pk.nic[w]| && ring < |pk.rings|
    ensures Copies(Received(pk, w, n, ring), x) == Copies(pk, x)
  {
    TakeNic(pk, w, n, x);
    PutConserves(pk.(nic := pk.nic[w := pk.nic[w][n..]]), ring, pk.nic[w][..n], x);
  }

  lemma EmittedConserves(pk: Packets, ring: nat, n: nat, x: Buf)
    requires ring < |pk.rings| && n <= |pk.rings[ring]|
    ensures Copies(Emitted(pk, ring, n), x) == Copies(pk, x) == Copies(OffEmitted(pk, ring, n), x)
  {
    TakeRing(pk, ring, n, x);
  }

  lemma CountSnoc(xs: seq<Buf>, y: Buf, x: Buf)
    ensures Count(xs + [y], x) == Count(xs, x) + if x == y then 1 else 0
  {
  }

  /** A packet is picked as often as it occurs, or not at all. */
  lemma {:induction false} PickCounts(xs: seq<Buf>, diverts: Buf -> bool, want: bool, x: Buf)
    ensures Count(Pick(xs, diverts, want), x) == if diverts(x) == want then Count(xs, x) else 0
  {
    if xs != [] {
      var init, last := xs[..|xs| - 1], xs[|xs| - 1];
      PickCounts(init, diverts, want, x);
      assert xs == init + [last];
      CountSnoc(init, last, x);
      CountSnoc(Pick(init, diverts, want), last, x);
      assert Pick(init, diverts, want) + [] == Pick(init, diverts, want);
    }
  }

  /** What is picked keeps its order: it stands in the batch at places that go up, and these are
      exactly the places of the packets that are to be picked. */
  lemma {:induction false} PickedInOrder(xs: seq<Buf>, diverts: Buf -> bool, want: bool) returns (at: seq<nat>)
    ensures Places(xs, Pick(xs, diverts, want), at)
    ensures forall i: nat :: i < |xs| ==> (i in at <==> diverts(xs[i]) == want)
  {
    if xs == [] {
      at := [];
    } else {
      var init, last := xs[..|xs| - 1], xs[|xs| - 1];
      var before := PickedInOrder(init, diverts, want);
      assert xs == init + [last];
      var ys := Pick(init, diverts, want);
      if diverts(last) == want {
        PlacesTaken(init, ys, before, last);
        at := before + [|init|];
      } else {
        PlacesLeft(init, ys, before, last);
        assert ys + [] == ys;
        at := before;
      }
    }
  }

  lemma {:induction false} PickNone(xs: seq<Buf>, diverts: Buf -> bool)
    requires forall x :: !diverts(x)
    ensures Pick(xs, diverts, true) == []
  {
    if xs != [] {
      PickNone(xs[..|xs| - 1], diverts);
    }
  }

  lemma SplitConserves(pk: Packets, w: nat, n: nat, q: nat, diverts: Buf -> bool, x: Buf)
    requires w < |pk.nic| && n <= |pk.nic[w]| && q < |pk.rings|
    ensures Copies(Split(pk, w, n, q, diverts), x) == Copies(pk, x)
  {
    var xs := pk.nic[w][..n];
    TakeNic(pk, w, n, x);
    PickCounts(xs, diverts, true, x);
    PickCounts(xs, diverts, false, x);
    PutConserves(pk.(nic := pk.nic[w := pk.nic[w][n..]], emitted := pk.emitted + Pick(xs, diverts, false),
                       extracted := pk.extracted + xs, diverted := pk.diverted + Pick(xs, diverts, true)),
                 q, Pick(xs, diverts, true), x);
  }

  // ---------------------------------------------------------------------
  // Bursts

  /** Enqueueing in bursts enters what enqueueing at once would. */
  lemma PutPut(pk: Packets, ring: nat, xs: seq<Buf>, ys: seq<Buf>)
    requires ring < |pk.rings|
    ensures Put(Put(pk, ring, xs), ring, ys) == Put(pk, ring, xs + ys)
  {
    var r := pk.rings[ring];
    var j := Room(r, |xs|);
    var k := Room(r + xs[..j], |ys|);
    var m := Room(r, |xs + ys|);
    SplitTwice(xs, ys, j, k, m);
    assert (r + xs[..j]) + ys[..k] == r + (xs + ys)[..m];
    assert (pk.refused + xs[j..]) + ys[k..] == pk.refused + (xs + ys)[m..];
    assert Put(Put(pk, ring, xs), ring, ys).rings == Put(pk, ring, xs + ys).rings;
  }

  /** Either all of the first burst fits, or nothing of the second. */
  lemma SplitTwice(xs: seq<Buf>, ys: seq<Buf>, j: nat, k: nat, m: nat)
    requires j <= |xs| && k <= |ys| && m == j + k && (j < |xs| ==> k == 0)
    ensures (xs + ys)[..m] == xs[..j] + ys[..k] && (xs + ys)[m..] == xs[j..] + ys[k..]
  {
  }

  /** The NIC and the rings, as the cores operate on them. */
  class Fabric {
    var nic: seq<seq<Buf>>
    var rings: seq<seq<Buf>>
    var emitted: seq<Buf>
    var offEmitted: seq<Buf>
    var refused: seq<Buf>
    ghost var extracted: seq<Buf>    // the packets of the calls of extract_state, in order
    ghost var diverted: seq<Buf>     // the packets that `run` has diverted, in order

    ghost function Value(): Packets
      reads this
    {
      Packets(nic, rings, emitted, offEmitted, refused, extracted, diverted)
    }

    /** rte_eth_rx_burst. */
    method RxBurst(w: nat, n: nat) returns (xs: seq<Buf>)
      requires w < |nic|
      modifies this`nic
      ensures var k := Min(n, |old(nic)[w]|);
              xs == old(nic)[w][..k] && nic == old(nic)[w := old(nic)[w][k..]]
    {
      var k := Min(n, |nic[w]|);
      xs := nic[w][..k];
      nic := nic[w := nic[w][k..]];
    }

    /** rte_ring_enqueue_burst. */
    method EnqueueBurst(ring: nat, xs: seq<Buf>)
      requires ring < |rings|
      modifies this`rings, this`refused
      ensures Value() == Put(old(Value()), ring, xs)
    {
      var k := Room(rings[ring], |xs|);
      rings := rings[ring := rings[ring] + xs[..k]];
      refused := refused + xs[k..];
    }

    /** rte_ring_dequeue_burst. */
    method DequeueBurst(ring: nat, n: nat) returns (xs: seq<Buf>)
      requires ring < |rings|
      modifies this`rings
      ensures var k := Min(n, |old(rings)[ring]|);
              xs == old(rings)[ring][..k] && rings == old(rings)[ring := old(rings)[ring][k..]]
    {
      var k := Min(n, |rings[ring]|);
      xs := rings[ring][..k];
      rings := rings[ring := rings[ring][k..]];
    }

    /** Packets of a batch leave through the output of a working core. */
    method Emit(xs: seq<Buf>)
      modifies this`emitted
      ensures emitted == old(emitted) + xs
    {
      emitted := emitted + xs;
    }

    /** `extract_state` is called for each of the packets. */
    ghost method ExtractAll(xs: seq<Buf>)
      modifies this`extracted
      ensures extracted == old(extracted) + xs
    {
      extracted := extracted + xs;
    }

    /** The packets have been put aside for the offload ring. */
    ghost method DivertAll(xs: seq<Buf>)
      modifies this`diverted
      ensures diverted == old(diverted) + xs
    {
      diverted := diverted + xs;
    }

    method OffEmit(xs: seq<Buf>)
      modifies this`offEmitted
      ensures offEmitted == old(offEmitted) + xs
    {
      offEmitted := offEmitted + xs;
    }

    /** One turn of the loop that empties a ring into another. */
    method MoveBurst(from: nat, to: nat, burst: nat, ghost before: Packets, ghost done: nat) returns (ghost more: nat)
      requires from < |before.rings| && to < |before.rings| && from != to && done <= |before.rings[from]|
      requires Value() == DrainedTo(before, from, to, done)
      modifies this`rings, this`refused
      ensures more == done + Min(burst, |before.rings[from]| - done)
      ensures Value() == DrainedTo(before, from, to, more)
    {
      DrainMore(before, from, to, done, Min(burst, |before.rings[from]| - done));
      assert |rings| == |before.rings|;
      var xs := DequeueBurst(from, burst);
      EnqueueBurst(to, xs);
      more := done + |xs|;
    }

    /** The loop that empties one ring into another, burst by burst. */
    method Drain(from: nat, to: nat, burst: nat)
      requires from < |rings| && to < |rings| && from != to && 0 < burst
      modifies this`rings, this`refused
      ensures Value() == Drained(old(Value()), from, to)
    {
      ghost var before := Value();
      ghost var done: nat := 0;
      DrainEnds(before, from, to);
      while |rings[from]| != 0
        invariant |rings| == |before.rings| && done <= |before.rings[from]|
        invariant Value() == DrainedTo(before, from, to, done)
        invariant |rings[from]| == |before.rings[from]| - done
        decreases |rings[from]|
      {
        done := MoveBurst(from, to, burst, before, done);
        DrainLeft(before, from, to, done);
      }
    }
  }

  lemma DrainLeft(pk: Packets, from: nat, to: nat, done: nat)
    requires from < |pk.rings| && to < |pk.rings| && from != to && done <= |pk.rings[from]|
    ensures DrainedTo(pk, from, to, done).rings[from] == pk.rings[from][done..]
  {
  }

  lemma DrainEnds(pk: Packets, from: nat, to: nat)
    requires from < |pk.rings| && to < |pk.rings| && from != to
    ensures DrainedTo(pk, from, to, 0) == pk
    ensures DrainedTo(pk, from, to, |pk.rings[from]|) == Drained(pk, from, to)
  {
    var r := pk.rings[from];
    assert r[0..] == r && r[..0] == [] && r[..|r|] == r && r[|r|..] == [];
    assert pk.rings[from := r] == pk.rings;
    PutNothing(pk, to);
  }

  lemma PutNothing(pk: Packets, ring: nat)
    requires ring < |pk.rings|
    ensures Put(pk, ring, []) == pk
  {
    assert pk.rings[ring] + [] == pk.rings[ring];
    assert Put(pk, ring, []).rings == pk.rings;
  }

  lemma ReceivedNothing(pk: Packets, w: nat, ring: nat)
    requires w < |pk.nic| && ring < |pk.rings|
    ensures Received(pk, w, 0, ring) == pk
  {
    assert pk.nic[w][0..] == pk.nic[w] && pk.nic[w][..0] == [];
    assert pk.nic[w := pk.nic[w]] == pk.nic;
    PutNothing(pk, ring);
  }

  /** The first `done` packets of `from` have moved to `to`. */
  function DrainedTo(pk: Packets, from: nat, to: nat, done: nat): (pk': Packets)
    requires from < |pk.rings| && to < |pk.rings| && from != to && done <= |pk.rings[from]|
    ensures |pk'.rings| == |pk.rings|
  {
    Put(pk.(rings := pk.rings[from := pk.rings[from][done..]]), to, pk.rings[from][..done])
  }

  lemma DrainMore(pk: Packets, from: nat, to: nat, done: nat, n: nat)
    requires from < |pk.rings| && to < |pk.rings| && from != to && done + n <= |pk.rings[from]|
    ensures var pk1 := DrainedTo(pk, from, to, done);
            && pk1.rings[from] == pk.rings[from][done..]
            && Put(pk1.(rings := pk1.rings[from := pk1.rings[from][n..]]), to, pk1.rings[from][..n])
            == DrainedTo(pk, from, to, done + n)
  {
    var r := pk.rings[from];
    var pk1 := DrainedTo(pk, from, to, done);
    assert r[done..][n..] == r[done + n..] && r[done..][..n] == r[done..done + n];
    assert r[..done] + r[done..done + n] == r[..done + n];
    var base := pk.(rings := pk.rings[from := r[done + n..]]);
    assert Put(base, to, r[..done]).rings == pk1.rings[from := r[done + n..]];
    PutPut(base, to, r[..done], r[done..done + n]);
  }
}
