/** The accounting of a shard as the elements keep it: flow states shared by reference
    between the table, the two buffers and the ordered list.  Every method is tied to the
    step it performs on the value of the shard (module Accounting). */
module Shards {
  import opened Machine
  import opened Accounting

  /** DyssectState. */
  class FlowRecord {
    const flow: Flow
    const shard: nat
    const priority: bool
    var cdf: real
    var prob: real
    var prob2: real
    var epoch: nat
    var bytes: nat

    constructor (flow: Flow, shard: nat, priority: bool, epoch: nat)
      ensures this.flow == flow && this.shard == shard
      ensures State() == FlowState(0.0, 0.0, 0.0, priority, epoch, 0)
    {
      this.flow, this.shard, this.priority := flow, shard, priority;
      cdf, prob, prob2, this.epoch, bytes := 0.0, 0.0, 0.0, epoch, 0;
    }

    function State(): FlowState
      reads this
    {
      FlowState(cdf, prob, prob2, priority, epoch, bytes)
    }

    /** First hit in an epoch: turn the bytes of the epoch before into a share. */
    method Roll(now: nat, oldBytes: nat)
      modifies this`prob, this`bytes, this`epoch
      ensures State() == RollOver(old(State()), now, oldBytes)
      ensures epoch == now && bytes == (if old(epoch) == now then old(bytes) else 0)
      ensures prob == if old(epoch) == now then old(prob)
                      else if old(epoch) + 1 == now && oldBytes != 0 then old(bytes) as real / oldBytes as real
                      else 0.0
    {
      if epoch != now {
        prob := 0.0;
        if oldBytes != 0 && epoch + 1 == now {
          prob := bytes as real / oldBytes as real;
        }
        bytes := 0;
        epoch := now;
      }
    }

    method Count(len: nat)
      modifies this`bytes
      ensures State() == old(State()).(bytes := old(bytes) + len)
    {
      bytes := bytes + len;
    }
  }

  type Buffer = map<Flow, FlowRecord>

  /** ShardInfo, as far as accounting is concerned. */
  class ShardInfo {
    const id: nat
    var useSecond: bool
    var table: Buffer
    var flows3: Buffer
    var flows3Second: Buffer
    var ordered: seq<FlowRecord>
    var bytes: nat
    var packets: nat
    var oldBytes: nat
    var oldPackets: nat
    var r: real                // offloading ratio in force
    var rNew: real             // ratio wanted by the solver

    constructor (id: nat)
      ensures Valid() && View() == EMPTY_SHARD && this.id == id && Records() == {}
      ensures r == rNew == 0.0
    {
      this.id := id;
      useSecond, table, flows3, flows3Second, ordered := false, map[], map[], map[], [];
      bytes, packets, oldBytes, oldPackets := 0, 0, 0, 0;
      r, rNew := 0.0, 0.0;
    }

    ghost function Records(): set<FlowRecord>
      reads this
    {
      table.Values
    }

    /** Buffers and list refer to the records of the table. */
    ghost predicate Valid()
      reads this
    {
      && (forall f :: f in table ==> table[f].flow == f && table[f].shard == id)
      && (forall f :: f in flows3 ==> f in table && flows3[f] == table[f])
      && (forall f :: f in flows3Second ==> f in table && flows3Second[f] == table[f])
      && (forall i :: 0 <= i < |ordered| ==> ordered[i].flow in table && table[ordered[i].flow] == ordered[i])
    }

    ghost function Current(): Buffer
      reads this
    {
      if useSecond then flows3Second else flows3
    }

    ghost function Other(): Buffer
      reads this
    {
      if useSecond then flows3 else flows3Second
    }

    ghost function TableView(): map<Flow, FlowState>
      reads this, Records()
    {
      map f | f in table :: table[f].State()
    }

    ghost function View(): Shard
      reads this, Records()
    {
      Shard(TableView(), Current().Keys, Other().Keys, bytes, packets, oldBytes, oldPackets, FlowsOf(ordered))
    }

    /** Enter the record in the buffer that is in use. */
    method Record(state: FlowRecord)
      requires Valid() && state.flow in table && table[state.flow] == state
      modifies this`flows3, this`flows3Second
      ensures Valid()
      ensures View() == old(View()).(current := old(Current().Keys) + {state.flow})
    {
      if useSecond {
        flows3Second := flows3Second[state.flow := state];
      } else {
        flows3 := flows3[state.flow := state];
      }
    }

    method RollInTable(state: FlowRecord, now: nat)
      requires Valid() && state.flow in table && table[state.flow] == state
      modifies state`prob, state`bytes, state`epoch
      ensures Valid()
      ensures View() ==
              old(View()).(table := old(TableView())[state.flow := RollOver(old(state.State()), now, oldBytes)])
    {
      ghost var before := TableView();
      state.Roll(now, oldBytes);
      assert forall f :: f in table && f != state.flow ==> table[f].State() == before[f];
      assert TableView() == before[state.flow := state.State()];
    }

    /** The branch of a known flow: roll its count over and record it in the buffer. */
    method Hit(p: Packet, now: nat) returns (state: FlowRecord)
      requires Valid() && p.flow in table
      modifies this`flows3, this`flows3Second, Records()
      ensures Valid() && state == table[p.flow]
      ensures View() == RecordHit(old(View()), now, p)
    {
      state := table[p.flow];
      if !p.priority {
        RollInTable(state, now);
        Record(state);
      }
    }

    /** The branch of a flow that is new: its record enters the table, not the buffer. */
    method Create(p: Packet, now: nat) returns (state: FlowRecord)
      requires Valid() && p.flow !in table
      modifies this`table
      ensures Valid() && fresh(state) && table == old(table)[p.flow := state]
      ensures View() == RecordNew(old(View()), now, p)
    {
      state := new FlowRecord(p.flow, id, p.priority, now);
      Enter(state);
    }

    method Enter(state: FlowRecord)
      requires Valid() && state.flow !in table && state.shard == id
      modifies this`table
      ensures Valid() && table == old(table)[state.flow := state]
      ensures View() == old(View()).(table := old(TableView())[state.flow := state.State()])
    {
      ghost var before := TableView();
      table := table[state.flow := state];
      assert forall f :: f in table && f != state.flow ==> table[f].State() == before[f];
      assert TableView() == before[state.flow := state.State()];
    }

    method CountInTable(state: FlowRecord, len: nat)
      requires Valid() && state.flow in table && table[state.flow] == state
      modifies state`bytes
      ensures Valid()
      ensures View() ==
              old(View()).(table := old(TableView())[state.flow :=
                                      old(state.State()).(bytes := old(state.bytes) + len)])
    {
      ghost var before := TableView();
      state.Count(len);
      assert forall f :: f in table && f != state.flow ==> table[f].State() == before[f];
      assert TableView() == before[state.flow := state.State()];
    }

    /** The counters at the end of `extract_state`. */
    method CountPacket(state: FlowRecord, p: Packet)
      requires Valid() && p.flow in table && table[p.flow] == state
      modifies state`bytes, this`bytes, this`packets
      ensures Valid() && View() == Counted(old(View()), p)
    {
      CountInTable(state, p.len);
      AddToCounters(p.len);
    }

    method AddToCounters(len: nat)
      requires Valid()
      modifies this`bytes, this`packets
      ensures Valid()
      ensures View() == old(View()).(bytes := (old(bytes) + len) % TWO32, packets := (old(packets) + 1) % TWO32)
    {
      bytes := (bytes + len) % TWO32;
      packets := (packets + 1) % TWO32;
    }

    /** `DyssectWorkingCore::extract_state`, with the solver on. */
    method ExtractState(p: Packet, now: nat) returns (state: FlowRecord)
      requires Valid()
      modifies this`table, this`flows3, this`flows3Second, this`bytes, this`packets, Records()
      ensures Valid() && fresh(Records() - old(Records()))
      ensures View() == Extract(old(View()), now, p)
      ensures p.flow in table && table[p.flow] == state
    {
      if p.flow in table {
        state := Hit(p, now);
      } else {
        state := Create(p, now);
      }
      CountPacket(state, p);
    }

    /** `swap_shards` on one shard. */
    method Swap()
      requires Valid()
      modifies this`useSecond, this`oldBytes, this`oldPackets, this`bytes, this`packets
      ensures Valid() && Records() == old(Records()) && View() == Swapped(old(View()))
    {
      useSecond := !useSecond;
      oldBytes, oldPackets := bytes, packets;
      bytes, packets := 0, 0;
    }

    /** The records of `vec` are those of the flows `fs`, each once. */
    ghost predicate Lists(vec: seq<FlowRecord>, fs: set<Flow>)
      reads this
    {
      && Distinct(vec)
      && (forall i :: 0 <= i < |vec| ==> vec[i].flow in fs && vec[i].flow in table && vec[i] == table[vec[i].flow])
      && (forall f :: f in fs ==> f in table && table[f] in vec)
    }

    /** First loop of `order_shards`: walk the buffer in any order, fixing each share. */
    method TakeShares() returns (vec: seq<FlowRecord>)
      requires Valid()
      modifies Records()`prob2
      ensures Lists(vec, Other().Keys)
      ensures forall f :: f in table ==>
                table[f].prob2 == if f in Other() then table[f].prob else old(table[f].prob2)
    {
      vec := [];
      var pflow := if useSecond then flows3 else flows3Second;
      var todo := pflow.Keys;
      while todo != {}
        invariant todo <= pflow.Keys
        invariant Lists(vec, pflow.Keys - todo)
        invariant forall f :: f in table ==>
                    table[f].prob2 == if f in pflow && f !in todo then table[f].prob else old(table[f].prob2)
      {
        var f :| f in todo;
        var st := pflow[f];
        st.prob2 := st.prob;
        ListsOneMore(vec, pflow.Keys - todo, f);
        vec := vec + [st];
        todo := todo - {f};
        assert pflow.Keys - todo == (pflow.Keys - (todo + {f})) + {f};
      }
      assert pflow.Keys - todo == pflow.Keys;
    }

    /** Walking, sorting and summing: what is written to the records. */
    method ListFlows() returns (vec: seq<FlowRecord>)
      requires Valid()
      modifies Records()`prob2, Records()`cdf
      ensures Lists(vec, Other().Keys) && Descending(vec)
      ensures forall f :: f in table ==>
                table[f].prob2 == if f in Other() then table[f].prob else old(table[f].prob2)
      ensures forall k :: 0 <= k < |vec| ==> vec[k].cdf == RunningSum(Shares(vec), k + 1)
      ensures forall f :: f in table && f !in Other() ==> table[f].cdf == old(table[f].cdf)
    {
      var taken := TakeShares();
      vec := SortByShare(taken);
      ListsPermuted(taken, vec, Other().Keys);
      assert forall f :: f in table && f !in Other() ==> table[f] !in vec;
      StoreSums(vec);
    }

    /** The same on values: the list, and the table it was made from. */
    ghost predicate ListsValues(before: map<Flow, FlowState>, buffer: set<Flow>, after: map<Flow, FlowState>,
                                flows: seq<Flow>) {
      && after.Keys == before.Keys
      && NoDuplicates(flows) && (forall f :: f in buffer <==> f in flows)
      && (forall i :: 0 <= i < |flows| ==> flows[i] in before && flows[i] in after)
      && (forall i, j :: 0 <= i < j < |flows| ==> before[flows[i]].prob >= before[flows[j]].prob)
      && (forall f :: f in before ==> after[f] == before[f].(prob2 := after[f].prob2, cdf := after[f].cdf))
      && (forall f :: f in before ==> after[f].prob2 == if f in buffer then before[f].prob else before[f].prob2)
      && (forall f :: f in before && f !in buffer ==> after[f].cdf == before[f].cdf)
    }

    ghost predicate SumsValues(table: map<Flow, FlowState>, flows: seq<Flow>)
      requires forall i :: 0 <= i < |flows| ==> flows[i] in table
    {
      forall k :: 0 <= k < |flows| ==> table[flows[k]].cdf == ListedSum(table, flows, k + 1)
    }

    method ListByValue() returns (vec: seq<FlowRecord>)
      requires Valid()
      modifies Records()`prob2, Records()`cdf
      ensures Lists(vec, Other().Keys)
      ensures ListsValues(old(TableView()), Other().Keys, TableView(), FlowsOf(vec))
      ensures forall k :: 0 <= k < |vec| ==> vec[k].cdf == RunningSum(Shares(vec), k + 1)
    {
      ghost var before := TableView();
      vec := ListFlows();
      ListsFlows(vec, Other().Keys);
    }

    /** The shares of records of the table are those of their flows. */
    lemma SharesByValue(vec: seq<FlowRecord>, fs: set<Flow>)
      requires Valid() && Lists(vec, fs)
      ensures forall i :: 0 <= i < |vec| ==> FlowsOf(vec)[i] in TableView()
      ensures Shares(vec) == SharesOf(TableView(), FlowsOf(vec))
    {
    }

    lemma SumsByValue(vec: seq<FlowRecord>, fs: set<Flow>)
      requires Valid() && Lists(vec, fs)
      requires forall k :: 0 <= k < |vec| ==> vec[k].cdf == RunningSum(Shares(vec), k + 1)
      ensures forall i :: 0 <= i < |vec| ==> FlowsOf(vec)[i] in TableView()
      ensures SumsValues(TableView(), FlowsOf(vec))
    {
      SharesByValue(vec, fs);
    }

    /** Replacing the list leaves the records alone. */
    method StoreList(vec: seq<FlowRecord>)
      requires Valid() && forall i :: 0 <= i < |vec| ==> vec[i].flow in table && vec[i] == table[vec[i].flow]
      modifies this`ordered
      ensures Valid() && View() == old(View()).(ordered := FlowsOf(vec))
    {
      ordered := vec;
    }

    /** `order_shards` on one shard. */
    method OrderFlows()
      requires Valid()
      modifies this`ordered, Records()`prob2, Records()`cdf
      ensures Valid() && Records() == old(Records()) && OrderStep(old(View()), View())
    {
      ghost var before := View();
      var vec := ListByValue();
      SumsByValue(vec, Other().Keys);
      ghost var listed := View();
      assert listed == before.(table := listed.table);
      StoreList(vec);
      OrderedValues(before, View());
    }

    /** From the fields of the records to the step on values. */
    lemma OrderedValues(before: Shard, after: Shard)
      requires after == before.(table := after.table, ordered := after.ordered)
      requires ListsValues(before.table, before.other, after.table, after.ordered)
      requires SumsValues(after.table, after.ordered)
      ensures OrderStep(before, after)
    {
      forall k | 0 <= k < |after.ordered| ensures after.ordered[k] in before.other {
        assert after.ordered[k] in after.ordered;
      }
    }

    /** `clear_flows` on one shard. */
    method Clear()
      requires Valid()
      modifies this`flows3, this`flows3Second
      ensures Valid() && Records() == old(Records()) && View() == old(View()).(other := {})
    {
      if useSecond {
        flows3 := map[];
      } else {
        flows3Second := map[];
      }
    }

    method SetWanted(ratio: real)
      requires Valid()
      modifies this`rNew
      ensures Valid() && Records() == old(Records()) && View() == old(View()) && rNew == ratio
    {
      rNew := ratio;
    }

    lemma ListsFlows(vec: seq<FlowRecord>, fs: set<Flow>)
      requires Valid() && Lists(vec, fs)
      ensures NoDuplicates(FlowsOf(vec))
      ensures forall f :: f in fs <==> f in FlowsOf(vec)
    {
      var flows := FlowsOf(vec);
      forall f | f in fs ensures f in flows {
        var i :| 0 <= i < |vec| && vec[i] == table[f];
        assert flows[i] == vec[i].flow;
      }
    }

    lemma ListsOneMore(vec: seq<FlowRecord>, fs: set<Flow>, f: Flow)
      requires Valid() && Lists(vec, fs) && f in table && f !in fs
      ensures Lists(vec + [table[f]], fs + {f})
    {
      var v := vec + [table[f]];
      forall g | g in fs ensures table[g] in v {
        assert table[g] in vec;
      }
      assert v[|vec|] == table[f];
    }

    lemma ListsPermuted(vec: seq<FlowRecord>, sorted: seq<FlowRecord>, fs: set<Flow>)
      requires Lists(vec, fs) && multiset(sorted) == multiset(vec)
      ensures Lists(sorted, fs)
    {
      DistinctPermuted(vec, sorted);
      forall i | 0 <= i < |sorted|
        ensures sorted[i].flow in fs && sorted[i].flow in table && sorted[i] == table[sorted[i].flow]
      {
        assert sorted[i] in multiset(sorted);
        assert sorted[i] in vec;
      }
      forall f | f in fs ensures table[f] in sorted {
        assert table[f] in multiset(vec);
      }
    }
  }

  ghost predicate Distinct(vec: seq<FlowRecord>) {
    forall i, j :: 0 <= i < j < |vec| ==> vec[i] != vec[j]
  }

  lemma {:induction false} DistinctCounts(vec: seq<FlowRecord>)
    ensures Distinct(vec) <==> forall r :: r in vec ==> multiset(vec)[r] == 1
  {
    if vec != [] {
      var n := |vec| - 1;
      assert vec == vec[..n] + [vec[n]];
      DistinctCounts(vec[..n]);
      if Distinct(vec) {
        forall r | r in vec ensures multiset(vec)[r] == 1 {
          assert vec[n] !in vec[..n];
        }
      } else if Distinct(vec[..n]) {
        var i, j :| 0 <= i < j < |vec| && vec[i] == vec[j];
        assert j == n && vec[..n][i] == vec[n];
        assert vec[n] in multiset(vec[..n]);
        assert multiset(vec)[vec[n]] != 1;
      } else {
        var r :| r in vec[..n] && multiset(vec[..n])[r] != 1;
        assert r in multiset(vec[..n]);
        assert multiset(vec)[r] != 1;
      }
    }
  }

  lemma DistinctPermuted(vec: seq<FlowRecord>, sorted: seq<FlowRecord>)
    requires Distinct(vec) && multiset(sorted) == multiset(vec)
    ensures Distinct(sorted)
  {
    DistinctCounts(vec);
    DistinctCounts(sorted);
    forall r | r in sorted ensures multiset(sorted)[r] == 1 {
      assert r in multiset(sorted);
      assert r in vec;
    }
  }

  /** The stored shares of some records. */
  ghost function Shares(vec: seq<FlowRecord>): (shares: seq<real>)
    reads set i | 0 <= i < |vec| :: vec[i]`prob2
    ensures |shares| == |vec| && forall i :: 0 <= i < |vec| ==> shares[i] == vec[i].prob2
  {
    if vec == [] then [] else Shares(vec[..|vec| - 1]) + [vec[|vec| - 1].prob2]
  }

  /** Last loop of `order_shards`: store the running sums. */
  method StoreSums(vec: seq<FlowRecord>)
    requires Distinct(vec)
    modifies (set r | r in vec)`cdf
    ensures forall k :: 0 <= k < |vec| ==> vec[k].cdf == RunningSum(Shares(vec), k + 1)
  {
    ghost var shares := Shares(vec);
    var accum := 0.0;
    for i := 0 to |vec|
      invariant Shares(vec) == shares && accum == RunningSum(shares, i)
      invariant forall k :: 0 <= k < i ==> vec[k].cdf == RunningSum(shares, k + 1)
    {
      assert shares[i] == vec[i].prob2;
      accum := accum + vec[i].prob2;
      vec[i].cdf := accum;
    }
  }

  ghost predicate Descending(vec: seq<FlowRecord>)
    reads set i | 0 <= i < |vec| :: vec[i]`prob2
  {
    forall i, j :: 0 <= i < j < |vec| ==> vec[i].prob2 >= vec[j].prob2
  }

  /** The call of std::sort with `sortByVal`, here by insertion: all that is used of it is
      that the result is a permutation in descending order. */
  method SortByShare(vec: seq<FlowRecord>) returns (sorted: seq<FlowRecord>)
    ensures multiset(sorted) == multiset(vec) && Descending(sorted)
  {
    sorted := [];
    for i := 0 to |vec|
      invariant multiset(sorted) == multiset(vec[..i]) && Descending(sorted)
    {
      sorted := Insert(sorted, vec[i]);
      assert vec[..i + 1] == vec[..i] + [vec[i]];
    }
    assert vec[..|vec|] == vec;
  }

  method Insert(sorted: seq<FlowRecord>, x: FlowRecord) returns (more: seq<FlowRecord>)
    requires Descending(sorted)
    ensures multiset(more) == multiset(sorted) + multiset{x} && Descending(more)
  {
    var j := |sorted|;
    while 0 < j && sorted[j - 1].prob2 < x.prob2
      invariant 0 <= j <= |sorted|
      invariant j < |sorted| ==> sorted[j].prob2 < x.prob2
    {
      j := j - 1;
    }
    more := sorted[..j] + [x] + sorted[j..];
    InsertKeepsOrder(sorted, x, j, more);
    SpliceCounts(sorted, x, j);
  }

  lemma SpliceCounts(s: seq<FlowRecord>, x: FlowRecord, j: nat)
    requires j <= |s|
    ensures multiset(s[..j] + [x] + s[j..]) == multiset(s) + multiset{x}
  {
    assert s == s[..j] + s[j..];
  }

  lemma InsertKeepsOrder(sorted: seq<FlowRecord>, x: FlowRecord, j: nat, more: seq<FlowRecord>)
    requires Descending(sorted) && j <= |sorted| && more == sorted[..j] + [x] + sorted[j..]
    requires 0 < j ==> sorted[j - 1].prob2 >= x.prob2
    requires j < |sorted| ==> sorted[j].prob2 < x.prob2
    ensures Descending(more)
  {
    forall i, k | 0 <= i < k < |more| ensures more[i].prob2 >= more[k].prob2 {
      assert more[i] == if i < j then sorted[i] else if i == j then x else sorted[i - 1];
      assert more[k] == if k < j then sorted[k] else if k == j then x else sorted[k - 1];
    }
  }

  ghost function FlowsOf(records: seq<FlowRecord>): (fs: seq<Flow>)
    ensures |fs| == |records| && forall i :: 0 <= i < |fs| ==> fs[i] == records[i].flow
  {
    seq(|records|, i requires 0 <= i < |records| => records[i].flow)
  }
}
