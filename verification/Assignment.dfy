/** The assignment matrix and the NIC's indirection table (dyssectcontroller.cc): the
    queue the NIC picks for a packet is the working core that software believes owns
    the packet's shard. */
module Assignment {
  import opened Cyclic
  import opened ShortSolver

  const GROUP: nat := 64          // RTE_ETH_RETA_GROUP_SIZE
  const GROUPS: nat := 8          // 512 / 64

  /** The NIC's index and software's index agree on every hash exactly when the number of
      shards divides the size of the table. */
  lemma SameShardIff(retaSize: nat, shards: nat)
    requires 0 < retaSize && 0 < shards
    ensures (forall h: nat :: ShardOf(h % retaSize, shards) == ShardOf(h, shards)) <==> retaSize % shards == 0
  {
    if retaSize % shards == 0 {
      forall h: nat ensures ShardOf(h % retaSize, shards) == ShardOf(h, shards) {
        SameShard(h, retaSize, shards);
      }
    } else {
      DivModUnique(retaSize, retaSize, 1, 0);
      DivModUnique(0, shards, 0, 0);
      assert ShardOf(retaSize % retaSize, shards) != ShardOf(retaSize, shards);
    }
  }

  function ShardOf(h: nat, shards: nat): nat
    requires 0 < shards
  {
    h % shards
  }

  lemma SameShard(h: nat, retaSize: nat, shards: nat)
    requires 0 < retaSize && 0 < shards && retaSize % shards == 0
    ensures ShardOf(h % retaSize, shards) == ShardOf(h, shards)
  {
    DivMod(h, retaSize);
    DivMod(retaSize, shards);
    SameShardAt(h, h / retaSize, h % retaSize, retaSize / shards, retaSize, shards);
  }

  lemma SameShardAt(h: nat, q: nat, j: nat, d: nat, retaSize: nat, shards: nat)
    requires 0 < shards && h == retaSize * q + j && retaSize == shards * d
    ensures j % shards == h % shards
  {
    DivMod(j, shards);
    var t, r := j / shards, j % shards;
    assert h == shards * (d * q + t) + r by {
      assert (shards * d) * q == shards * (d * q);
      assert shards * (d * q + t) == shards * (d * q) + shards * t;
    }
    DivModUnique(h, shards, d * q + t, r);
  }

  /** Stepping by `shards` from an index stays on its shard and skips no index of it. */
  lemma Stride(k: nat, shards: nat)
    requires 0 < shards
    ensures ShardOf(k + shards, shards) == ShardOf(k, shards)
    ensures forall j: nat :: k < j < k + shards ==> ShardOf(j, shards) != ShardOf(k, shards)
  {
    DivMod(k, shards);
    assert shards * (k / shards + 1) == shards * (k / shards) + shards;
    DivModUnique(k + shards, shards, k / shards + 1, k % shards);
    forall j: nat | k < j < k + shards ensures ShardOf(j, shards) != ShardOf(k, shards) {
      NoPlaceTwice(k, 0, j - k, shards);
    }
  }

  class Table {
    const w: nat               // working cores
    const cores: nat           // working and offloading cores
    const shards: nat
    const retaSize: nat
    var a: Matrix              // current assignment, a[shard][core]
    var newA: Matrix           // the oracle's answer
    const conf: array2<nat>    // reta_conf, by groups of 64 entries
    var nic: seq<nat>          // the table installed in the NIC

    ghost predicate Sizes() {
      && 0 < w <= cores && 0 < shards && 0 < retaSize <= GROUP * GROUPS
      && conf.Length0 == GROUPS && conf.Length1 == GROUP
    }

    ghost function Conf(j: int): nat
      requires Sizes() && 0 <= j < retaSize
      reads conf
    {
      conf[j / GROUP, j % GROUP]
    }

    /** Entry `j` of a table names the one working core that row `j % shards` selects. */
    ghost predicate Selects(m: Matrix, j: int, core: nat)
      requires Sizes() && 0 <= j
    {
      core < w && Hot(Row(m, ShardOf(j, shards)), cores, core)
    }

    /** The table, in software and in the NIC, agrees with the matrix `m`. */
    ghost predicate Agrees(m: Matrix)
      requires Sizes()
      reads this`nic, conf
    {
      && |nic| == retaSize
      && forall j {:trigger Conf(j)} :: 0 <= j < retaSize ==> nic[j] == Conf(j) && Selects(m, j, Conf(j))
    }

    ghost predicate Valid()
      reads this, conf
    {
      Sizes() && Assigned(a) && Agrees(a)
    }

    /** A 0/1 matrix that gives every shard exactly one core, a working one. */
    ghost predicate Assigned(m: Matrix) {
      Shape(m, shards, cores) && Binary(m) && OneWorkerPerShard(m, shards, w, cores)
    }

    /** The steering property: the queue is the unique worker of the packet's shard. */
    lemma Steering(h: nat)
      requires Valid() && retaSize % shards == 0
      ensures nic[h % retaSize] < w
      ensures forall i :: 0 <= i < cores ==> (a[h % shards][i] == 1 <==> i == nic[h % retaSize])
    {
      SameShard(h, retaSize, shards);
      var j, s := h % retaSize, ShardOf(h, shards);
      assert Selects(a, j, Conf(j));
      forall i | 0 <= i < cores ensures a[s][i] == 1 <==> i == nic[j] {
        assert Row(a, s).At(i) == a[s][i];
      }
    }

    /** The strided loop over the entries of one shard. */
    method FillShard(s: nat, core: nat)
      requires Sizes() && s < shards
      modifies conf
      ensures forall j {:trigger Conf(j)} :: 0 <= j < retaSize ==>
                Conf(j) == if ShardOf(j, shards) == s then core else old(Conf(j))
    {
      DivModUnique(s, shards, 0, s);
      var k := s;
      forall j: nat | j < k ensures ShardOf(j, shards) != s {
        DivModUnique(j, shards, 0, j);
      }
      while k < retaSize
        invariant ShardOf(k, shards) == s
        invariant forall j {:trigger Conf(j)} :: 0 <= j < retaSize ==>
                    Conf(j) == if ShardOf(j, shards) == s && j < k then core else old(Conf(j))
      {
        SetConf(k, core);
        Stride(k, shards);
        k := k + shards;
      }
    }

    /** reta_conf[k / 64].reta[k % 64] = core. */
    method SetConf(k: nat, core: nat)
      requires Sizes() && k < retaSize
      modifies conf
      ensures forall j {:trigger Conf(j)} :: 0 <= j < retaSize ==>
                Conf(j) == if j == k then core else old(Conf(j))
    {
      conf[k / GROUP, k % GROUP] := core;
    }

    /** rte_eth_dev_rss_reta_update, taken to succeed. */
    method Install()
      requires Sizes()
      modifies this`nic
      ensures |nic| == retaSize && forall j {:trigger Conf(j)} :: 0 <= j < retaSize ==> nic[j] == Conf(j)
    {
      nic := seq(retaSize, j requires 0 <= j < retaSize && conf.Length0 == GROUPS && conf.Length1 == GROUP reads conf =>
        conf[j / GROUP, j % GROUP]);
    }

    /** The part of `init_dpdk` that sets up the matrix and the table: shard s starts on
        core s % W. */
    constructor (w: nat, cores: nat, shards: nat, retaSize: nat)
      requires 0 < w <= cores && 0 < shards && 0 < retaSize <= GROUP * GROUPS
      ensures Valid() && fresh(conf) && newA == a
      ensures this.w == w && this.cores == cores && this.shards == shards && this.retaSize == retaSize
      ensures a == FirstMatrix(w, shards, cores)
      ensures forall s, i :: 0 <= s < shards && 0 <= i < cores ==> a[s][i] == if i == s % w then 1 else 0
    {
      this.w, this.cores, this.shards, this.retaSize := w, cores, shards, retaSize;
      a := seq(shards, _ => seq(cores, _ => 0));
      newA := [];
      conf := new nat[GROUPS, GROUP]((g, i) => 0);
      nic := [];
      new;
      for s := 0 to shards
        invariant forall j {:trigger Conf(j)} :: 0 <= j < retaSize && ShardOf(j, shards) < s ==>
                    Conf(j) == FirstCore(ShardOf(j, shards), w)
        invariant Shape(a, shards, cores)
        invariant forall t, i :: 0 <= t < shards && 0 <= i < cores ==>
                    a[t][i] == if t < s && i == FirstCore(t, w) then 1 else 0
      {
        FillShard(s, FirstCore(s, w));
        a := a[s := a[s][FirstCore(s, w) := 1]];
      }
      newA := a;
      Install();
      FirstMatrixIs(a, w, shards, cores);
      InitialIsHot(a, w, shards, cores);
    }

    /** The oracle's answer, read from the pipe. */
    method Receive(m: Matrix)
      modifies this`newA
      ensures newA == m
    {
      newA := m;
    }

    /** One turn of the outer loop of `update_reta`: compare row `s` and point the
        entries of shard `s` at its new worker. */
    method UpdateShardEntries(s: nat, ghost h: nat) returns (differing: nat)
      requires Sizes() && s < shards && Assigned(a) && Assigned(newA)
      requires h < w && Hot(Row(newA, s), cores, h)
      modifies conf
      ensures differing == Distance(Row(a, s), Row(newA, s), cores)
      ensures forall j {:trigger Conf(j)} :: 0 <= j < retaSize ==>
                Conf(j) == if ShardOf(j, shards) == s then h else old(Conf(j))
    {
      differing := 0;
      for i := 0 to cores
        invariant differing == Distance(Row(a, s), Row(newA, s), if i < w then i else w)
        invariant forall j {:trigger Conf(j)} :: 0 <= j < retaSize ==>
                    Conf(j) == if ShardOf(j, shards) == s && h < i then h else old(Conf(j))
      {
        if i >= w {
          continue;
        }
        assert Row(a, s).At(i) == a[s][i] && Row(newA, s).At(i) == newA[s][i];
        if a[s][i] != newA[s][i] {
          differing := differing + 1;
        }
        if newA[s][i] == 1 {
          FillShard(s, i);
        }
      }
      assert HotBelow(Row(a, s), cores, w) && HotBelow(Row(newA, s), cores, w);
      SameBeyond(Row(a, s), Row(newA, s), w, cores);
    }

    /** The loops of `update_reta`: point the entries of every shard at its new worker
        and count the cells that differ. */
    method UpdateEntries() returns (differing: nat)
      requires Sizes() && Assigned(a) && Assigned(newA)
      modifies conf
      ensures differing == Cost(a, newA, shards, cores)
      ensures forall j {:trigger Conf(j)} :: 0 <= j < retaSize ==> Selects(newA, j, Conf(j))
    {
      differing := 0;
      for s := 0 to shards
        invariant differing == Cost(a, newA, s, cores)
        invariant forall j {:trigger Conf(j)} :: 0 <= j < retaSize && ShardOf(j, shards) < s ==>
                    Selects(newA, j, Conf(j))
      {
        assert HotBelow(Row(newA, s), cores, w);
        ghost var h: nat :| h < w && Hot(Row(newA, s), cores, h);
        var n := UpdateShardEntries(s, h);
        differing := differing + n;
      }
    }

    /** `update_reta`: the table follows the new matrix; the moved shards are counted, and
        the NIC is reloaded only if there are any. */
    method UpdateReta() returns (transfers: nat)
      requires Valid() && Assigned(newA)
      modifies conf, this`nic
      ensures Agrees(newA)
      ensures transfers == ShardsMoved(a, newA, shards, cores)
      ensures transfers == |set s | 0 <= s < shards && a[s] != newA[s]|
    {
      MovedAreCounted(a, newA, shards, cores);
      forall j | 0 <= j < retaSize ensures Selects(a, j, nic[j]) {
        assert nic[j] == Conf(j);
      }
      var differing := UpdateEntries();
      transfers := differing / 2;
      CostOfShards(a, newA, shards, w, cores);
      if transfers != 0 {
        Install();
      } else {
        CostZero(a, newA, shards, cores);
        assert a[..shards] == a && newA[..shards] == newA;
        UnchangedEntries(newA);
      }
    }

    /** Two selections of the same row are the same core. */
    lemma UnchangedEntries(m: Matrix)
      requires Sizes() && |nic| == retaSize
      requires forall j {:trigger Conf(j)} :: 0 <= j < retaSize ==> Selects(m, j, Conf(j))
      requires forall j :: 0 <= j < retaSize ==> Selects(m, j, nic[j])
      ensures Agrees(m)
    {
      forall j {:trigger Conf(j)} | 0 <= j < retaSize ensures nic[j] == Conf(j) {
        assert Selects(m, j, Conf(j)) && Selects(m, j, nic[j]);
      }
    }
  }

  function FirstCore(s: nat, w: nat): (c: nat)
    requires 0 < w
    ensures c < w
  {
    s % w
  }

  /** The matrix at start-up. */
  function FirstMatrix(w: nat, shards: nat, cores: nat): (a: Matrix)
    requires 0 < w <= cores
    ensures Shape(a, shards, cores)
    ensures forall s, i :: 0 <= s < shards && 0 <= i < cores ==> a[s][i] == if i == FirstCore(s, w) then 1 else 0
  {
    seq(shards, s requires 0 <= s => seq(cores, i => if i == FirstCore(s, w) then 1 else 0))
  }

  lemma FirstMatrixIs(a: Matrix, w: nat, shards: nat, cores: nat)
    requires 0 < w <= cores && Shape(a, shards, cores)
    requires forall s, i :: 0 <= s < shards && 0 <= i < cores ==> a[s][i] == if i == FirstCore(s, w) then 1 else 0
    ensures a == FirstMatrix(w, shards, cores)
  {
    var first := FirstMatrix(w, shards, cores);
    forall s | 0 <= s < shards ensures a[s] == first[s] {
    }
  }

  lemma InitialIsHot(a: Matrix, w: nat, shards: nat, cores: nat)
    requires 0 < w <= cores && Shape(a, shards, cores)
    requires forall t, i :: 0 <= t < shards && 0 <= i < cores ==> a[t][i] == if i == FirstCore(t, w) then 1 else 0
    ensures Binary(a) && OneWorkerPerShard(a, shards, w, cores)
    ensures forall s :: 0 <= s < shards ==> Hot(Row(a, s), cores, FirstCore(s, w))
  {
    forall s | 0 <= s < shards ensures Hot(Row(a, s), cores, FirstCore(s, w)) {
      forall i | 0 <= i < cores ensures Row(a, s).At(i) == a[s][i] {
      }
    }
    forall s | 0 <= s < shards ensures HotBelow(Row(a, s), cores, w) {
      assert Hot(Row(a, s), cores, FirstCore(s, w));
    }
  }

  /** One-hot lines with their 1 below `w` do not differ from `w` on. */
  lemma {:induction false} SameBeyond(l: Line, l': Line, w: nat, n: nat)
    requires w <= n && (forall k :: w <= k < n ==> l.At(k) == 0 && l'.At(k) == 0)
    ensures Distance(l, l', n) == Distance(l, l', w)
  {
    if w < n {
      SameBeyond(l, l', w, n - 1);
    }
  }
}
