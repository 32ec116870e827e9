/** The port allocator of dynapt.cc: `GetEndpoint` looks for a free port of one external
    address, starting at a random port and wrapping round. */
module Napt {
  import opened Cyclic
  import opened Machine

  const PORT_RANGE: nat := 65535
  const TWO16: nat := 0x1_0000

  /** `start_port` is 16 bits wide: the largest random value makes it wrap to 0. */
  function StartPort(random: nat): nat {
    (1 + random) % TWO16
  }

  /** The i-th candidate of a call that starts at `start`. */
  function Candidate(start: nat, i: nat): nat {
    (start + i) % PORT_RANGE
  }

  /** The first free port met when walking from the i-th candidate on. */
  function FirstFree(free: set<nat>, start: nat, i: nat): (port: Option<nat>)
    requires i <= PORT_RANGE
    ensures port.Some? ==> port.value in free && port.value < PORT_RANGE
    ensures port.None? ==> forall j :: i <= j < PORT_RANGE ==> Candidate(start, j) !in free
    decreases PORT_RANGE - i
  {
    if i == PORT_RANGE then None
    else if Candidate(start, i) in free then Some(Candidate(start, i))
    else FirstFree(free, start, i + 1)
  }

  lemma {:induction false} FoundAt(free: set<nat>, start: nat, i: nat) returns (j: nat)
    requires i <= PORT_RANGE && FirstFree(free, start, i).Some?
    ensures i <= j < PORT_RANGE && FirstFree(free, start, i) == Some(Candidate(start, j))
    ensures forall k :: i <= k < j ==> Candidate(start, k) !in free
    decreases PORT_RANGE - i
  {
    j := i;
    if Candidate(start, i) !in free {
      j := FoundAt(free, start, i + 1);
    }
  }

  ghost predicate Ports(free: set<nat>) {
    forall p :: p in free ==> p < PORT_RANGE
  }

  /** The walk misses no port, whatever the random start: it fails only on a full list. */
  lemma FailsOnlyWhenFull(free: set<nat>, start: nat)
    requires Ports(free)
    ensures FirstFree(free, start, 0).None? <==> free == {}
  {
    if free != {} {
      var p :| p in free;
      var i := StepsTo(start, p, PORT_RANGE);
      assert Candidate(start, i) in free;
    }
  }

  /** The port found is the nearest free one going up from the start, cyclically: it is `steps`
      ports away, and no free port is nearer. */
  lemma FirstFreeIsNearest(free: set<nat>, start: nat) returns (steps: nat)
    requires Ports(free) && free != {}
    ensures steps < 65535 && FirstFree(free, start, 0) == Some((start + steps) % 65535)
    ensures (start + steps) % 65535 in free
    ensures forall p :: p in free ==> steps <= (p + 65535 - start % 65535) % 65535
  {
    FailsOnlyWhenFull(free, start);
    steps := FoundAt(free, start, 0);
    forall p | p in free ensures steps <= (p + 65535 - start % 65535) % 65535 {
      Away(start, p);
    }
  }

  lemma Away(start: nat, p: nat)
    requires p < 65535
    ensures Candidate(start, (p + 65535 - start % 65535) % 65535) == p
  {
    var s := start % 65535;
    PlaceAfter(start, if s <= p then p - s else p + 65535 - s, 65535);
  }

  // ---------------------------------------------------------------------
  // Runs of calls on the free lists of all addresses

  datatype Call = Call(idx: nat, random: nat)

  function UpTo(n: nat): (s: set<nat>)
    ensures |s| == n && forall p: nat :: p in s <==> p < n
  {
    if n == 0 then {} else UpTo(n - 1) + {n - 1}
  }

  function AllPorts(): set<nat> {
    UpTo(PORT_RANGE)
  }

  function Initial(addrs: nat): seq<set<nat>> {
    seq(addrs, _ => AllPorts())
  }

  /** One call: the free lists afterwards and the port handed out. */
  function Allocate(lists: seq<set<nat>>, c: Call): (seq<set<nat>>, Option<nat>)
    requires c.idx < |lists|
  {
    var port := FirstFree(lists[c.idx], StartPort(c.random), 0);
    (if port.Some? then lists[c.idx := lists[c.idx] - {port.value}] else lists, port)
  }

  ghost predicate CallsOn(calls: seq<Call>, addrs: nat) {
    forall i :: 0 <= i < |calls| ==> calls[i].idx < addrs
  }

  /** A run of calls: the free lists at its end and the result of every call. */
  function Run(lists: seq<set<nat>>, calls: seq<Call>): (out: (seq<set<nat>>, seq<Option<nat>>))
    requires CallsOn(calls, |lists|)
    ensures |out.0| == |lists| && |out.1| == |calls|
  {
    if calls == [] then (lists, [])
    else
      var before := Run(lists, calls[..|calls| - 1]);
      var last := Allocate(before.0, calls[|calls| - 1]);
      (last.0, before.1 + [last.1])
  }

  /** Calls on address `a`, and those of them that were given a port. */
  function Asked(calls: seq<Call>, a: nat): nat {
    if calls == [] then 0
    else Asked(calls[..|calls| - 1], a) + if calls[|calls| - 1].idx == a then 1 else 0
  }

  function Granted(calls: seq<Call>, results: seq<Option<nat>>, a: nat): nat
    requires |calls| == |results|
  {
    if calls == [] then 0
    else
      var n := |calls| - 1;
      Granted(calls[..n], results[..n], a) + if calls[n].idx == a && results[n].Some? then 1 else 0
  }

  lemma {:induction false} RunKeepsPorts(lists: seq<set<nat>>, calls: seq<Call>)
    requires CallsOn(calls, |lists|) && forall a :: 0 <= a < |lists| ==> Ports(lists[a])
    ensures forall a :: 0 <= a < |lists| ==> Ports(Run(lists, calls).0[a]) && Run(lists, calls).0[a] <= lists[a]
  {
    if calls != [] {
      RunKeepsPorts(lists, calls[..|calls| - 1]);
    }
  }

  /** Conservation: whatever the random starts, an address with k free ports grants
      the first k calls on it and refuses every later one. */
  lemma {:induction false} GrantsWhatIsFree(lists: seq<set<nat>>, calls: seq<Call>, a: nat)
    requires CallsOn(calls, |lists|) && a < |lists| && forall b :: 0 <= b < |lists| ==> Ports(lists[b])
    ensures var out := Run(lists, calls);
            && |out.0[a]| + Granted(calls, out.1, a) == |lists[a]|
            && Granted(calls, out.1, a) == if Asked(calls, a) <= |lists[a]| then Asked(calls, a) else |lists[a]|
  {
    if calls != [] {
      var n := |calls| - 1;
      var c := calls[n];
      GrantsWhatIsFree(lists, calls[..n], a);
      RunKeepsPorts(lists, calls[..n]);
      var before := Run(lists, calls[..n]);
      assert Run(lists, calls).1[..n] == before.1;
      FailsOnlyWhenFull(before.0[c.idx], StartPort(c.random));
    }
  }

  /** A port that has been handed out is not free at the end of the run. */
  lemma {:induction false} GrantedIsGone(lists: seq<set<nat>>, calls: seq<Call>, i: nat)
    requires CallsOn(calls, |lists|) && i < |calls|
    ensures var out := Run(lists, calls);
            out.1[i].Some? ==> out.1[i].value !in out.0[calls[i].idx]
  {
    if i < |calls| - 1 {
      GrantedIsGone(lists, calls[..|calls| - 1], i);
    }
  }

  /** No (address, port) pair is handed out twice, over any run. */
  lemma {:induction false} NeverTwice(lists: seq<set<nat>>, calls: seq<Call>, i: nat, j: nat)
    requires CallsOn(calls, |lists|) && i < j < |calls| && calls[i].idx == calls[j].idx
    ensures var r := Run(lists, calls).1;
            r[i].Some? && r[j].Some? ==> r[i] != r[j]
  {
    var n := |calls| - 1;
    if j < n {
      NeverTwice(lists, calls[..n], i, j);
    } else {
      GrantedIsGone(lists, calls[..n], i);
    }
  }

  /** From start-up, exactly 65535 calls per address succeed. */
  lemma GrantsAllPorts(addrs: nat, calls: seq<Call>, a: nat)
    requires a < addrs && CallsOn(calls, addrs)
    ensures Granted(calls, Run(Initial(addrs), calls).1, a)
         == if Asked(calls, a) <= PORT_RANGE then Asked(calls, a) else PORT_RANGE
  {
    GrantsWhatIsFree(Initial(addrs), calls, a);
  }

  class DyNapt {
    const dstAddrs: seq<nat>
    const portLists: array2<bool>

    ghost predicate Valid() {
      portLists.Length0 == |dstAddrs| && portLists.Length1 == PORT_RANGE
    }

    ghost function Free(idx: nat): set<nat>
      requires Valid() && idx < |dstAddrs|
      reads portLists
    {
      set p | 0 <= p < PORT_RANGE && portLists[idx, p]
    }

    /** The free ports of every address. */
    ghost function View(): (v: seq<set<nat>>)
      requires Valid()
      reads portLists
      ensures |v| == |dstAddrs| && forall i :: 0 <= i < |v| ==> v[i] == Free(i) && Ports(v[i])
    {
      seq(|dstAddrs|, i requires 0 <= i < |dstAddrs| reads portLists => Free(i))
    }

    /** `configure`: every port of every address starts free. */
    constructor (addrs: seq<nat>)
      ensures Valid() && dstAddrs == addrs && fresh(portLists)
      ensures View() == Initial(|addrs|)
    {
      dstAddrs := addrs;
      portLists := new bool[|addrs|, PORT_RANGE];
      new;
      for i := 0 to |addrs|
        invariant forall a, p :: 0 <= a < i && 0 <= p < PORT_RANGE ==> portLists[a, p]
      {
        for j := 0 to PORT_RANGE
          invariant forall a, p :: 0 <= a < i && 0 <= p < PORT_RANGE ==> portLists[a, p]
          invariant forall p :: 0 <= p < j ==> portLists[i, p]
        {
          portLists[i, j] := true;
        }
      }
      forall i | 0 <= i < |addrs| ensures Free(i) == AllPorts() {
      }
    }

    /** One call, for any random number: the port handed out is `steps` ports up from the start,
        cyclically, and no free port was nearer; if none is handed out none was free. */
    method GetEndpoint(idx: nat, random: nat) returns (ok: bool, addr: nat, port: nat, ghost steps: nat)
      requires Valid() && idx < |dstAddrs|
      modifies portLists
      ensures var out := Allocate(old(View()), Call(idx, random));
              View() == out.0 &&
              (if out.1.Some? then ok && addr == dstAddrs[idx] && port == out.1.value
               else !ok && addr == 0 && port == 0)
      ensures forall a, p :: 0 <= a < |dstAddrs| && 0 <= p < PORT_RANGE && !(ok && a == idx && p == port) ==>
                portLists[a, p] == old(portLists[a, p])
      ensures ok ==> addr == dstAddrs[idx] && steps < 65535 && port == ((1 + random) % 65536 + steps) % 65535
      ensures ok ==> old(portLists[idx, port]) && !portLists[idx, port]
      ensures ok ==> forall p :: 0 <= p < 65535 && old(portLists[idx, p]) ==>
                steps <= (p + 65535 - ((1 + random) % 65536) % 65535) % 65535
      ensures !ok ==> forall p :: 0 <= p < 65535 ==> !old(portLists[idx, p])
    {
      ghost var before := Free(idx);
      ok, addr, port := Walk(idx, random);
      FailsOnlyWhenFull(before, StartPort(random));
      steps := 0;
      if ok {
        steps := FirstFreeIsNearest(before, StartPort(random));
      }
      assert forall p :: 0 <= p < 65535 ==> (p in before <==> old(portLists[idx, p]));
    }

    /** The loop. */
    method Walk(idx: nat, random: nat) returns (ok: bool, addr: nat, port: nat)
      requires Valid() && idx < |dstAddrs|
      modifies portLists
      ensures var out := Allocate(old(View()), Call(idx, random));
              View() == out.0 &&
              (if out.1.Some? then ok && addr == dstAddrs[idx] && port == out.1.value
               else !ok && addr == 0 && port == 0)
      ensures ok ==> port < PORT_RANGE && old(portLists[idx, port]) && !portLists[idx, port]
      ensures forall a, p :: 0 <= a < |dstAddrs| && 0 <= p < PORT_RANGE && !(ok && a == idx && p == port) ==>
                portLists[a, p] == old(portLists[a, p])
    {
      var startPort := StartPort(random);
      ghost var before := Free(idx);
      for i := 0 to PORT_RANGE
        invariant forall a, p :: 0 <= a < |dstAddrs| && 0 <= p < PORT_RANGE ==> portLists[a, p] == old(portLists[a, p])
        invariant FirstFree(before, startPort, 0) == FirstFree(before, startPort, i)
      {
        port := Candidate(startPort, i);
        if portLists[idx, port] {
          portLists[idx, port] := false;
          assert Free(idx) == before - {port};
          forall a | 0 <= a < |dstAddrs| && a != idx ensures Free(a) == old(Free(a)) {
          }
          assert View() == old(View())[idx := before - {port}];
          return true, dstAddrs[idx], port;
        }
      }
      forall a | 0 <= a < |dstAddrs| ensures Free(a) == old(Free(a)) {
      }
      assert View() == old(View());
      return false, 0, 0;
    }
  }
}
