/** How the controller acts on an answer of the solver: new ratios, new offloading cores,
    and a new assignment of shards, which becomes requests to the owners of the shards and
    a new indirection table. */
module Rebalance {
  import opened ShortSolver
  import opened Assignment
  import opened Handover
  import opened Cores
  import Offload
  import Safety

  /** What the first loop has done to shard `s` when it has looked at the first `n` cores. */
  ghost predicate AskedRow(c: Control, c': Control, a: Matrix, newA: Matrix, s: int, n: nat) {
    && (forall w :: 0 <= w < n && Requested(a, newA, s, w) ==> c' == Asked(c, w))
    && ((forall w :: 0 <= w < n ==> !Requested(a, newA, s, w)) ==> c' == c)
  }

  /** A row asks for one core at most. */
  lemma OneRequest(a: Matrix, newA: Matrix, shards: nat, w: nat, cores: nat, s: nat, i: nat, j: nat)
    requires OneWorkerPerShard(newA, shards, w, cores) && s < shards && i < cores && j < cores
    requires Requested(a, newA, s, i) && Requested(a, newA, s, j)
    ensures i == j
  {
    assert HotBelow(Row(newA, s), cores, w);
    assert Row(newA, s).At(i) == Cell(newA, s, i) && Row(newA, s).At(j) == Cell(newA, s, j);
  }

  /** The shard control of DyssectController. */
  class Controller {
    const table: Table
    const shared: Shared
    const offFrom: seq<nat>    // offloading_from_working: written at start-up only
    var o: Matrix
    var newO: Matrix

    constructor (table: Table, shared: Shared, offFrom: seq<nat>, o: Matrix)
      ensures this.table == table && this.shared == shared && this.offFrom == offFrom && this.o == this.newO == o
    {
      this.table, this.shared, this.offFrom, this.o, this.newO := table, shared, offFrom, o, o;
    }

    /** `migration_shard`. */
    method MigrationShard(s: nat, w: nat, sendSignal: bool)
      requires s < |shared.shards| && shared.shards[s].owner < |shared.transferShard|
      modifies shared`shards, shared`transferShard
      ensures shared.shards ==
              if sendSignal then old(shared.shards) else old(shared.shards)[s := Asked(old(shared.shards)[s], w)]
      ensures shared.transferShard ==
              if sendSignal && old(shared.shards)[s].owner != w
              then old(shared.transferShard)[old(shared.shards)[s].owner := true] else old(shared.transferShard)
    {
      if shared.shards[s].owner == w {
        return;
      }
      if !sendSignal {
        shared.shards := shared.shards[s := shared.shards[s].(ownerNew := w, pause := true)];
      } else {
        shared.transferShard := shared.transferShard[shared.shards[s].owner := true];
      }
    }

    ghost predicate Ready()
      reads table, shared
    {
      && |shared.shards| == table.shards
      && (forall s :: 0 <= s < |shared.shards| ==> shared.shards[s].owner < |shared.transferShard|)
      && Shape(table.a, table.shards, table.cores) && Shape(table.newA, table.shards, table.cores)
      && OneWorkerPerShard(table.newA, table.shards, table.w, table.cores)
    }

    /** One row of the first loop of `update_shards`. */
    method AskRow(s: nat)
      requires Ready() && s < table.shards
      modifies shared`shards, shared`transferShard
      ensures shared.transferShard == old(shared.transferShard)
      ensures Ready() && (forall i :: 0 <= i < table.shards && i != s ==> shared.shards[i] == old(shared.shards)[i])
      ensures AskedRow(old(shared.shards)[s], shared.shards[s], table.a, table.newA, s, table.cores)
    {
      ghost var before := shared.shards;
      for w := 0 to table.cores
        invariant Ready() && (forall i :: 0 <= i < table.shards && i != s ==> shared.shards[i] == before[i])
        invariant AskedRow(before[s], shared.shards[s], table.a, table.newA, s, w)
        invariant shared.transferShard == old(shared.transferShard)
      {
        assert Requested(table.a, table.newA, s, w) <==> table.newA[s][w] == 1 && table.a[s][w] == 0;
        if table.newA[s][w] == 1 && table.a[s][w] == 0 {
          forall v: nat | v < w ensures !Requested(table.a, table.newA, s, v) {
            if Requested(table.a, table.newA, s, v) {
              OneRequest(table.a, table.newA, table.shards, table.w, table.cores, s, v, w);
            }
          }
          MigrationShard(s, w, false);
        }
      }
    }

    method AskAll()
      requires Ready()
      modifies shared`shards, shared`transferShard
      ensures shared.transferShard == old(shared.transferShard)
      ensures Ready() && ControlsAsked(old(shared.shards), shared.shards, table.a, table.newA, table.cores)
      ensures forall s :: 0 <= s < |shared.shards| ==> shared.shards[s].owner == old(shared.shards)[s].owner
    {
      ghost var before := shared.shards;
      for s := 0 to table.shards
        invariant Ready() && shared.transferShard == old(shared.transferShard)
        invariant forall i :: 0 <= i < s ==> AskedRow(before[i], shared.shards[i], table.a, table.newA, i, table.cores)
        invariant forall i :: s <= i < table.shards ==> shared.shards[i] == before[i]
      {
        AskRow(s);
      }
      forall s | 0 <= s < table.shards ensures shared.shards[s].owner == before[s].owner {
        assert AskedRow(before[s], shared.shards[s], table.a, table.newA, s, table.cores);
      }
    }

    /** One row of the last loop. */
    method SignalRow(s: nat)
      requires Ready() && s < table.shards
      modifies shared`shards, shared`transferShard
      ensures shared.shards == old(shared.shards)
      ensures Ready() && |shared.transferShard| == |old(shared.transferShard)|
      ensures forall o :: 0 <= o < |shared.transferShard| ==>
                (shared.transferShard[o] <==>
                 old(shared.transferShard)[o] || Leaves(shared.shards, table.a, table.newA, s, o, table.cores))
    {
      for w := 0 to table.cores
        invariant Ready() && |shared.transferShard| == |old(shared.transferShard)|
        invariant shared.shards == old(shared.shards)
        invariant forall o :: 0 <= o < |shared.transferShard| ==>
                    (shared.transferShard[o] <==>
                     old(shared.transferShard)[o] || Leaves(shared.shards, table.a, table.newA, s, o, w))
      {
        assert Requested(table.a, table.newA, s, w) <==> table.newA[s][w] == 1 && table.a[s][w] == 0;
        if table.newA[s][w] == 1 && table.a[s][w] == 0 {
          MigrationShard(s, w, true);
        }
      }
    }

    method SignalAll()
      requires Ready()
      modifies shared`shards, shared`transferShard
      ensures shared.shards == old(shared.shards)
      ensures OwnersSignalled(old(shared.transferShard), shared.transferShard, shared.shards, table.a, table.newA,
                              table.cores)
    {
      for s := 0 to table.shards
        invariant Ready() && |shared.transferShard| == |old(shared.transferShard)|
        invariant shared.shards == old(shared.shards)
        invariant forall o :: 0 <= o < |shared.transferShard| ==>
                    (shared.transferShard[o] <==>
                     old(shared.transferShard)[o]
                     || exists i :: 0 <= i < s && Leaves(shared.shards, table.a, table.newA, i, o, table.cores))
      {
        SignalRow(s);
      }
    }

    /** `update_shards`: every moved shard is requested and its owner signalled; the table
        and the matrix follow the answer, so that steering stays correct. */
    method UpdateShards() returns (changed: bool)
      requires Ready() && table.Valid() && table.Assigned(table.newA)
      modifies shared`shards, shared`transferShard, table`a, table`nic, table.conf
      ensures table.Valid() && table.a == table.newA
      ensures ControlsAsked(old(shared.shards), shared.shards, old(table.a), table.newA, table.cores)
      ensures OwnersSignalled(old(shared.transferShard), shared.transferShard, old(shared.shards), old(table.a),
                              table.newA, table.cores)
      ensures changed <==> old(table.a) != table.newA
    {
      if table.a == table.newA {
        return false;
      }
      ghost var before := shared.shards;
      AskAll();
      var transfers := table.UpdateReta();
      SignalAll();
      SameLeavers(before, shared.shards, table.a, table.newA, table.cores);
      table.a := table.newA;
      changed := true;
    }

    /** The ratios of an answer, already rounded: what `update_ratio` leaves in `r_new`, and
        the owners it tells. */
    method TakeRatios(wanted: seq<real>) returns (changed: bool, ghost notify: set<nat>)
      requires |wanted| == |shared.shards|
      requires forall s :: 0 <= s < |wanted| ==> shared.shards[s].owner < |shared.transferR|
      modifies shared`shards, shared`transferR
      ensures shared.shards == Wanted(old(shared.shards), wanted)
      ensures shared.transferR == Notified(old(shared.transferR), notify)
      ensures OwnersTold(notify, old(shared.shards), wanted)
      ensures changed <==> notify != {}
      ensures |shared.shards| == |wanted|
      ensures forall s :: 0 <= s < |wanted| ==> shared.shards[s] == old(shared.shards)[s].(rNew := wanted[s])
      ensures NonNegative(old(shared.shards), wanted) ==>
                RightOwnersTold(old(shared.transferR), shared.transferR, old(shared.shards), wanted)
    {
      ghost var before := shared.shards;
      changed, notify := false, {};
      for s := 0 to |wanted|
        invariant |shared.shards| == |wanted| && |shared.transferR| == |old(shared.transferR)|
        invariant forall i :: 0 <= i < |wanted| ==>
                    shared.shards[i] == if i < s then before[i].(rNew := wanted[i]) else before[i]
        invariant forall w :: 0 <= w < |shared.transferR| ==>
                    (shared.transferR[w] <==> old(shared.transferR)[w] || w in notify)
        invariant forall w :: w in notify <==> exists i :: 0 <= i < s && Differs(before[i], wanted[i], w)
        invariant changed <==> notify != {}
      {
        shared.shards := shared.shards[s := shared.shards[s].(rNew := wanted[s])];
        if !Offload.IsEqualThan(shared.shards[s].r, shared.shards[s].rNew) {
          shared.transferR := shared.transferR[shared.shards[s].owner := true];
          changed, notify := true, notify + {shared.shards[s].owner};
        }
      }
      if NonNegative(before, wanted) {
        ToldInFigures(old(shared.transferR), notify, before, wanted);
      }
    }

    ghost predicate Linkable(cfg: Config)
      reads this, shared
    {
      && FlagsOk(shared.Value(), cfg) && |offFrom| == cfg.w + cfg.e
      && Shape(o, cfg.w + cfg.e, cfg.w + cfg.e) && Shape(newO, cfg.w + cfg.e, cfg.w + cfg.e)
      && OneOffloaderPerWorker(o, cfg.w, cfg.e, cfg.w + cfg.e)
      && OneOffloaderPerWorker(newO, cfg.w, cfg.e, cfg.w + cfg.e)
    }

    /** The body of the loops of `update_relationship`. */
    method RelinkOne(w: nat, e: nat, ghost cfg: Config) returns (ghost links: seq<Relink>)
      requires Linkable(cfg) && w < cfg.w + cfg.e && e < cfg.w + cfg.e
      modifies shared`newOff, shared`transferOff, shared`toRemove
      ensures links == LinkAt(o, newO, offFrom, w, e)
      ensures LinksOk(links, cfg) && shared.Value() == Relinked(old(shared.Value()), links)
    {
      links := [];
      if o[e][w] == 0 && newO[e][w] == 1 {
        ServesWorker(newO, w, e, cfg);
        if offFrom[w] != NONE {
          if offFrom[w] == e {
            return;
          }
          shared.newOff := shared.newOff[w := e];
          shared.transferOff := shared.transferOff[w := true];
          links := [Switch(w, e)];
          assert links[..0] == [];
        }
      }
      if o[e][w] == 1 && newO[e][w] == 0 {
        ServesWorker(o, w, e, cfg);
        shared.toRemove := Push(shared.toRemove, e, shared.queues[w]);
        links := [Stop(w, e)];
        assert links[..0] == [];
      }
    }

    /** `update_relationship`: exactly the changes that follow from the two matrices, core by
        core; all of them are changes that the protocol allows. */
    method UpdateRelationship(ghost cfg: Config) returns (changed: bool, ghost links: seq<Relink>)
      requires Linkable(cfg) && forall w :: 0 <= w < cfg.w ==> shared.queues[w] < 2 * cfg.w
      modifies this`o, shared`newOff, shared`transferOff, shared`toRemove
      ensures links == LinksOf(old(o), newO, offFrom, cfg.w + cfg.e, cfg.w + cfg.e)
      ensures o == newO && LinksOk(links, cfg) && shared.Value() == Relinked(old(shared.Value()), links)
      ensures changed <==> old(o) != newO
    {
      links := [];
      if newO == o {
        NoLinks(o, offFrom, |o|, |o|);
        return false, links;
      }
      links := RelinkAll(cfg);
      o := newO;
      changed := true;
    }

    method RelinkAll(ghost cfg: Config) returns (ghost links: seq<Relink>)
      requires Linkable(cfg) && forall w :: 0 <= w < cfg.w ==> shared.queues[w] < 2 * cfg.w
      modifies shared`newOff, shared`transferOff, shared`toRemove
      ensures links == LinksOf(o, newO, offFrom, cfg.w + cfg.e, cfg.w + cfg.e)
      ensures LinksOk(links, cfg) && shared.Value() == Relinked(old(shared.Value()), links)
    {
      links := [];
      ghost var fl := shared.Value();
      var cores := |o|;
      ghost var from, to, off := o, newO, offFrom;
      for w := 0 to cores
        invariant Relinking(fl, links, cfg) && links == LinksOf(from, to, off, cores, w)
      {
        links := RelinkCore(w, fl, links, cfg);
      }
    }

    /** The changes `links` have been made to `fl`. */
    ghost predicate Relinking(fl: Flags, links: seq<Relink>, cfg: Config)
      reads this, shared
    {
      && Linkable(cfg) && FlagsOk(fl, cfg) && (forall w :: 0 <= w < cfg.w ==> fl.queues[w] < 2 * cfg.w)
      && LinksOk(links, cfg) && shared.Value() == Relinked(fl, links)
    }

    /** The inner loop. */
    method RelinkCore(w: nat, ghost fl: Flags, ghost before: seq<Relink>, ghost cfg: Config)
      returns (ghost links: seq<Relink>)
      requires Relinking(fl, before, cfg) && w < |o|
      modifies shared`newOff, shared`transferOff, shared`toRemove
      ensures Relinking(fl, links, cfg) && links == before + LinksOfCore(o, newO, offFrom, w, |o|)
    {
      links := before;
      var cores := |o|;
      ghost var from, to, off := o, newO, offFrom;
      for e := 0 to cores
        invariant Relinking(fl, links, cfg) && links == LinksAfter(before, from, to, off, w, e)
      {
        links := RelinkMore(w, e, fl, before, links, cfg);
      }
      LinksAfterAre(before, from, to, off, w, cores);
    }

    /** A turn of the inner loop. */
    method RelinkMore(w: nat, e: nat, ghost fl: Flags, ghost before: seq<Relink>, ghost done: seq<Relink>,
                      ghost cfg: Config)
      returns (ghost links: seq<Relink>)
      requires Relinking(fl, done, cfg) && w < |o| && e < |o| && done == LinksAfter(before, o, newO, offFrom, w, e)
      modifies shared`newOff, shared`transferOff, shared`toRemove
      ensures Relinking(fl, links, cfg) && links == LinksAfter(before, o, newO, offFrom, w, e + 1)
    {
      ghost var more := RelinkOne(w, e, cfg);
      RelinkedMore(fl, done, more);
      links := done + more;
      RelinkedOk(fl, links, cfg);
    }

    ghost predicate Matched(cfg: Config)
      reads this, table, table.conf, shared
    {
      && ConfigOk(cfg) && table.Valid() && table.w == cfg.w && table.cores == cfg.w + cfg.e
      && table.shards == cfg.shards
      && Linkable(cfg) && (forall w :: 0 <= w < cfg.w ==> shared.queues[w] < 2 * cfg.w)
    }

    method Signal(n: nat)
      requires n == |shared.signal|
      modifies shared`signal
      ensures shared.signal == seq(n, _ => true)
    {
      for i := 0 to n
        invariant |shared.signal| == n && forall w :: 0 <= w < i ==> shared.signal[w]
      {
        shared.signal := shared.signal[i := true];
      }
    }

    /** What the controller does with an answer: the ratios are those wanted, exactly the owners
        of shards whose ratio is to change are told, the links are those that follow from
        the matrices, and all cores are signalled exactly if anything is to change. */
    ghost predicate Follows(ans: Answer, shards: seq<Control>, wanted: seq<real>, o: Matrix, newO: Matrix, a: Matrix,
                            newA: Matrix,
                            cfg: Config)
      requires |wanted| == |shards| && cfg.w + cfg.e <= |offFrom|
    {
      && ans.newA == newA && ans.wanted == wanted
      && OwnersTold(ans.notify, shards, wanted)
      && ans.links == LinksOf(o, newO, offFrom, cfg.w + cfg.e, cfg.w + cfg.e)
      && (ans.signal <==> ans.notify != {} || o != newO || a != newA)
    }

    /** Ratios and offloading cores. */
    method ActOnOffloading(wanted: seq<real>, ghost cfg: Config)
      returns (changed: bool, ghost fl1: Flags, ghost notify: set<nat>, ghost links: seq<Relink>)
      requires Matched(cfg) && |wanted| == cfg.shards
      modifies this`o, shared`shards, shared`transferR, shared`newOff, shared`transferOff, shared`toRemove
      ensures var fl := old(shared.Value());
              fl1 == fl.(shards := Wanted(fl.shards, wanted), transferR := Notified(fl.transferR, notify))
      ensures FlagsOk(fl1, cfg) && LinksOk(links, cfg) && shared.Value() == Relinked(fl1, links) && o == newO
      ensures OwnersTold(notify, old(shared.shards), wanted)
      ensures links == LinksOf(old(o), newO, offFrom, cfg.w + cfg.e, cfg.w + cfg.e)
      ensures changed <==> notify != {} || old(o) != newO
    {
      ghost var fl := shared.Value();
      var changedR, changedO;
      changedR, notify := TakeRatios(wanted);
      fl1 := shared.Value();
      WantedOk(fl, wanted, notify, cfg);
      assert fl1 == fl.(shards := Wanted(fl.shards, wanted), transferR := Notified(fl.transferR, notify));
      changedO, links := UpdateRelationship(cfg);
      changed := changedR || changedO;
    }

    /** Shards and signals. */
    method ActOnShards(changed: bool, ghost cfg: Config) returns (signalled: bool)
      requires Ready() && table.Valid() && table.Assigned(table.newA) && |shared.signal| == cfg.w
      requires table.cores == cfg.w + cfg.e
      modifies shared`shards, shared`transferShard, shared`signal, table`a, table`nic, table.conf
      ensures table.Valid() && table.a == table.newA
      ensures ShardsTold(old(shared.Value()), shared.Value(), old(table.a), table.newA, signalled, cfg)
      ensures signalled <==> changed || old(table.a) != table.newA
    {
      var changedA := UpdateShards();
      signalled := changed || changedA;
      if signalled {
        Signal(|shared.signal|);
      }
    }

    /** Ratios, offloading cores, shards and signals, in this order. */
    method Act(wanted: seq<real>, ghost cfg: Config) returns (ghost ans: Answer)
      requires Matched(cfg) && OneHot(table.newA, cfg) && |wanted| == cfg.shards
      modifies this`o, table`a, table`nic, table.conf, shared
      ensures table.Valid() && table.a == table.newA && o == newO
      ensures AnswerOk(ans, cfg)
      ensures Follows(ans, old(shared.shards), wanted, old(o), newO, old(table.a), table.newA, cfg)
      ensures ControlStep(old(shared.Value()), shared.Value(), old(table.a), ans, cfg)
    {
      ghost var fl, a := shared.Value(), table.a;
      ghost var fl1, notify, links;
      var changed;
      changed, fl1, notify, links := ActOnOffloading(wanted, cfg);
      assert Ready();
      var signalled := ActOnShards(changed, cfg);
      ans := Answer(table.newA, wanted, notify, links, signalled);
      Assembled(fl, fl1, shared.Value(), a, ans, cfg);
    }

    /** The part of `update_short_epoch` that acts on an answer: it is one of the steps that
        the protocol allows the controller. */
    method Apply(newA: Matrix, newO: Matrix, wanted: seq<real>, ghost cfg: Config) returns (ghost ans: Answer)
      requires Matched(cfg) && OneHot(newA, cfg) && |wanted| == cfg.shards
      requires Shape(newO, cfg.w + cfg.e, cfg.w + cfg.e) && OneOffloaderPerWorker(newO, cfg.w, cfg.e, cfg.w + cfg.e)
      modifies this`o, this`newO, table`a, table`newA, table`nic, table.conf, shared
      ensures Matched(cfg) && table.a == newA && o == newO
      ensures AnswerOk(ans, cfg) && Follows(ans, old(shared.shards), wanted, old(o), newO, old(table.a), newA, cfg)
      ensures |shared.shards| == |wanted|
      ensures forall s :: 0 <= s < |wanted| ==>
                var c, c' := old(shared.shards)[s], shared.shards[s];
                c'.rNew == wanted[s] && c'.r == c.r && c'.owner == c.owner
      ensures NonNegative(old(shared.shards), wanted) ==>
                RightOwnersTold(old(shared.transferR), shared.transferR, old(shared.shards), wanted)
      ensures ControlStep(old(shared.Value()), shared.Value(), old(table.a), ans, cfg)
    {
      ghost var fl, a := shared.Value(), table.a;
      table.Receive(newA);
      this.newO := newO;
      ans := Act(wanted, cfg);
      ghost var fl' := shared.Value();
      Safety.ControlKeeps(fl, fl', a, ans, cfg);
      ActsInFigures(fl, fl', a, ans, cfg);
    }
  }

  /** What the two matrices ask for offloading core `e` and working core `w`.  A core that has
      no offloading core is not given one, and one that started with `e` is not switched
      to it. */
  function LinkAt(o: Matrix, newO: Matrix, offFrom: seq<nat>, w: nat, e: nat): (links: seq<Relink>)
    requires w < |offFrom|
    ensures |links| <= 1
  {
    if Cell(o, e, w) == 0 && Cell(newO, e, w) == 1 then
      if offFrom[w] != NONE && offFrom[w] != e then [Switch(w, e)] else []
    else if Cell(o, e, w) == 1 && Cell(newO, e, w) == 0 then [Stop(w, e)]
    else []
  }

  /** The same for the first `n` offloading cores, in order. */
  function LinksOfCore(o: Matrix, newO: Matrix, offFrom: seq<nat>, w: nat, n: nat): seq<Relink>
    requires w < |offFrom|
  {
    if n == 0 then [] else LinksOfCore(o, newO, offFrom, w, n - 1) + LinkAt(o, newO, offFrom, w, n - 1)
  }

  /** The changes `before`, and then these. */
  function LinksAfter(before: seq<Relink>, o: Matrix, newO: Matrix, offFrom: seq<nat>, w: nat, n: nat): seq<Relink>
    requires w < |offFrom|
  {
    if n == 0 then before else LinksAfter(before, o, newO, offFrom, w, n - 1) + LinkAt(o, newO, offFrom, w, n - 1)
  }

  lemma {:induction false} LinksAfterAre(before: seq<Relink>, o: Matrix, newO: Matrix, offFrom: seq<nat>, w: nat,
                                         n: nat)
    requires w < |offFrom|
    ensures LinksAfter(before, o, newO, offFrom, w, n) == before + LinksOfCore(o, newO, offFrom, w, n)
  {
    if n != 0 {
      LinksAfterAre(before, o, newO, offFrom, w, n - 1);
    }
  }

  /** The same for the first `n` working cores. */
  function LinksOf(o: Matrix, newO: Matrix, offFrom: seq<nat>, cores: nat, n: nat): seq<Relink>
    requires n <= |offFrom|
  {
    if n == 0 then [] else LinksOf(o, newO, offFrom, cores, n - 1) + LinksOfCore(o, newO, offFrom, n - 1, cores)
  }

  lemma {:induction false} NoLinksOfCore(o: Matrix, offFrom: seq<nat>, w: nat, n: nat)
    requires w < |offFrom|
    ensures LinksOfCore(o, o, offFrom, w, n) == []
  {
    if n != 0 {
      NoLinksOfCore(o, offFrom, w, n - 1);
    }
  }

  /** The same matrix asks for nothing. */
  lemma {:induction false} NoLinks(o: Matrix, offFrom: seq<nat>, cores: nat, n: nat)
    requires n <= |offFrom|
    ensures LinksOf(o, o, offFrom, cores, n) == []
  {
    if n != 0 {
      NoLinks(o, offFrom, cores, n - 1);
      NoLinksOfCore(o, offFrom, n - 1, cores);
    }
  }

  lemma {:induction false} LinksOfCoreAre(o: Matrix, newO: Matrix, offFrom: seq<nat>, w: nat, n: nat, r: Relink)
    requires w < |offFrom|
    ensures r in LinksOfCore(o, newO, offFrom, w, n) <==> r.w == w && r.e < n && r in LinkAt(o, newO, offFrom, w, r.e)
  {
    if n != 0 {
      LinksOfCoreAre(o, newO, offFrom, w, n - 1, r);
    }
  }

  lemma InEither(first: seq<Relink>, last: seq<Relink>, r: Relink)
    ensures r in first + last <==> r in first || r in last
  {
  }

  lemma {:induction false} LinksOfAre(o: Matrix, newO: Matrix, offFrom: seq<nat>, cores: nat, n: nat, r: Relink)
    requires n <= |offFrom|
    ensures r in LinksOf(o, newO, offFrom, cores, n) <==>
              r.w < n && r.e < cores && r in LinkAt(o, newO, offFrom, r.w, r.e)
  {
    if n != 0 {
      var first, last := LinksOf(o, newO, offFrom, cores, n - 1), LinksOfCore(o, newO, offFrom, n - 1, cores);
      LinksOfAre(o, newO, offFrom, cores, n - 1, r);
      LinksOfCoreAre(o, newO, offFrom, n - 1, cores, r);
      InEither(first, last, r);
    }
  }

  /** A working core is told to switch exactly if the new matrix adds an offloading core other
      than the one it started with; a ring is to be dropped exactly if the new matrix
      removes its offloading core. */
  lemma LinksAre(o: Matrix, newO: Matrix, offFrom: seq<nat>, cores: nat, n: nat, w: nat, e: nat)
    requires n <= |offFrom|
    ensures Switch(w, e) in LinksOf(o, newO, offFrom, cores, n) <==>
              w < n && e < cores && Cell(o, e, w) == 0 && Cell(newO, e, w) == 1 && offFrom[w] != NONE && offFrom[w] != e
    ensures Stop(w, e) in LinksOf(o, newO, offFrom, cores, n) <==>
              w < n && e < cores && Cell(o, e, w) == 1 && Cell(newO, e, w) == 0
  {
    LinksOfAre(o, newO, offFrom, cores, n, Switch(w, e));
    LinksOfAre(o, newO, offFrom, cores, n, Stop(w, e));
  }

  ghost predicate LinksOk(links: seq<Relink>, cfg: Config) {
    forall k :: 0 <= k < |links| ==> links[k].w < cfg.w && links[k].e < cfg.e
  }

  /** The shard is owned by `w` and its ratio is to change. */
  predicate Differs(c: Control, wanted: real, w: nat) {
    c.owner == w && !Offload.IsEqualThan(c.r, wanted)
  }

  /** Exactly the owners of the shards whose ratio is to change. */
  ghost predicate OwnersTold(notify: set<nat>, shards: seq<Control>, wanted: seq<real>) {
    && |wanted| == |shards|
    && forall w :: w in notify <==> exists s :: 0 <= s < |wanted| && Differs(shards[s], wanted[s], w)
  }

  /** The same in figures: the flags raised are those of the owners of shards whose ratio in force
      and whose wanted ratio are apart by more than the margin. */
  ghost predicate RightOwnersTold(flags: seq<bool>, flags': seq<bool>, shards: seq<Control>, wanted: seq<real>) {
    && |flags'| == |flags| && |wanted| == |shards|
    && forall w :: 0 <= w < |flags| ==>
         (flags'[w] <==>
            flags[w]
            || exists s :: 0 <= s < |shards| && shards[s].owner == w
                           && (shards[s].r < wanted[s] * 0.9999999999 || wanted[s] < shards[s].r * 0.9999999999))
  }

  ghost predicate NonNegative(shards: seq<Control>, wanted: seq<real>) {
    |wanted| == |shards| && forall s :: 0 <= s < |shards| ==> 0.0 <= shards[s].r && 0.0 <= wanted[s]
  }

  lemma ToldInFigures(flags: seq<bool>, notify: set<nat>, shards: seq<Control>, wanted: seq<real>)
    requires OwnersTold(notify, shards, wanted) && NonNegative(shards, wanted)
    ensures RightOwnersTold(flags, Notified(flags, notify), shards, wanted)
  {
    forall s | 0 <= s < |shards|
      ensures Offload.IsEqualThan(shards[s].r, wanted[s]) <==>
                !(shards[s].r < wanted[s] * 0.9999999999 || wanted[s] < shards[s].r * 0.9999999999)
    {
      Offload.EqualIff(shards[s].r, wanted[s]);
    }
  }

  /** A 1 in the matrix stands for an offloading core that serves a working core. */
  lemma ServesWorker(m: Matrix, w: nat, e: nat, cfg: Config)
    requires OneOffloaderPerWorker(m, cfg.w, cfg.e, cfg.w + cfg.e)
    requires w < cfg.w + cfg.e && e < cfg.w + cfg.e && Cell(m, e, w) == 1
    ensures w < cfg.w && e < cfg.e
  {
    assert Col(m, w).At(e) == 1;
  }

  /** Switching offloading cores does not depend on ratios and their flags. */
  lemma {:induction false} RelinkedSame(fl: Flags, fl1: Flags, links: seq<Relink>)
    requires fl1 == fl.(shards := fl1.shards, transferR := fl1.transferR)
    requires |fl.queues| == |fl.newOff| == |fl.transferOff|
    requires forall k :: 0 <= k < |links| ==> links[k].w < |fl.queues| && links[k].e < |fl.toRemove|
    ensures Relinked(fl1, links) == Relinked(fl, links).(shards := fl1.shards, transferR := fl1.transferR)
  {
    if links != [] {
      RelinkedSame(fl, fl1, links[..|links| - 1]);
    }
  }

  lemma WantedOk(fl: Flags, wanted: seq<real>, notify: set<nat>, cfg: Config)
    requires FlagsOk(fl, cfg) && |wanted| == |fl.shards|
    ensures FlagsOk(fl.(shards := Wanted(fl.shards, wanted), transferR := Notified(fl.transferR, notify)), cfg)
  {
  }

  /** What becomes of shards and signals. */
  ghost predicate ShardsTold(fl: Flags, fl': Flags, a: Matrix, newA: Matrix, signalled: bool, cfg: Config) {
    && ControlsAsked(fl.shards, fl'.shards, a, newA, cfg.w + cfg.e)
    && OwnersSignalled(fl.transferShard, fl'.transferShard, fl.shards, a, newA, cfg.w + cfg.e)
    && fl' == fl.(shards := fl'.shards, transferShard := fl'.transferShard,
                  signal := if signalled then seq(cfg.w, _ => true) else fl.signal)
  }

  /** The parts make up one step of the controller. */
  lemma Assembled(fl: Flags, fl1: Flags, fl': Flags, a: Matrix, ans: Answer, cfg: Config)
    requires FlagsOk(fl, cfg) && AnswerOk(ans, cfg)
    requires fl1 == fl.(shards := Wanted(fl.shards, ans.wanted), transferR := Notified(fl.transferR, ans.notify))
    requires ShardsTold(Relinked(fl1, ans.links), fl', a, ans.newA, ans.signal, cfg)
    ensures ControlStep(fl, fl', a, ans, cfg)
  {
    RelinkedSame(fl, fl1, ans.links);
  }

  /** What a step of the controller does to ratios and their flags. */
  lemma ActsInFigures(fl: Flags, fl': Flags, a: Matrix, ans: Answer, cfg: Config)
    requires FlagsOk(fl, cfg) && AnswerOk(ans, cfg) && ControlStep(fl, fl', a, ans, cfg)
    ensures |fl'.shards| == |ans.wanted| == |fl.shards|
    ensures forall s :: 0 <= s < |ans.wanted| ==>
              var c, c' := fl.shards[s], fl'.shards[s];
              c'.rNew == ans.wanted[s] && c'.r == c.r && c'.owner == c.owner
    ensures OwnersTold(ans.notify, fl.shards, ans.wanted) && NonNegative(fl.shards, ans.wanted) ==>
              RightOwnersTold(fl.transferR, fl'.transferR, fl.shards, ans.wanted)
  {
    var shards := Wanted(fl.shards, ans.wanted);
    forall s | 0 <= s < |fl.shards|
      ensures fl'.shards[s] == shards[s].(ownerNew := fl'.shards[s].ownerNew, pause := fl'.shards[s].pause)
    {
      Safety.AskedKeeps(shards, fl'.shards, a, ans.newA, cfg, s);
    }
    if OwnersTold(ans.notify, fl.shards, ans.wanted) && NonNegative(fl.shards, ans.wanted) {
      ToldInFigures(fl.transferR, ans.notify, fl.shards, ans.wanted);
    }
  }

  lemma RelinkedMore(fl: Flags, links: seq<Relink>, more: seq<Relink>)
    requires |fl.queues| == |fl.newOff| == |fl.transferOff| && |more| <= 1
    requires forall k :: 0 <= k < |links| ==> links[k].w < |fl.queues| && links[k].e < |fl.toRemove|
    requires forall k :: 0 <= k < |more| ==> more[k].w < |fl.queues| && more[k].e < |fl.toRemove|
    ensures Relinked(fl, links + more) == Relinked(Relinked(fl, links), more)
  {
    if more == [] {
      assert links + more == links;
    } else {
      assert (links + more)[..|links|] == links && more[..0] == [];
    }
  }

  /** Asking does not change owners, so it does not matter to whom shards are compared. */
  lemma SameLeavers(shards: seq<Control>, shards': seq<Control>, a: Matrix, newA: Matrix, cores: nat)
    requires |shards'| == |shards| && forall s :: 0 <= s < |shards| ==> shards'[s].owner == shards[s].owner
    ensures forall s, o: nat :: 0 <= s < |shards| ==>
              (Leaves(shards', a, newA, s, o, cores) <==> Leaves(shards, a, newA, s, o, cores))
  {
  }

  // ---------------------------------------------------------------------
  // What a change of offloading cores does to the shared arrays

  ghost predicate LinksFit(fl: Flags, links: seq<Relink>) {
    && |fl.queues| == |fl.newOff| == |fl.transferOff|
    && forall k :: 0 <= k < |links| ==> links[k].w < |fl.queues| && links[k].e < |fl.toRemove|
  }

  /** A working core with one switch is to go there; one with none is not concerned. */
  lemma {:induction false} SwitchTells(fl: Flags, links: seq<Relink>, w: nat, e: nat)
    requires LinksFit(fl, links) && w < |fl.newOff|
    ensures var fl' := Relinked(fl, links);
            && (Switch(w, e) in links && (forall d :: Switch(w, d) in links ==> d == e) ==>
                  fl'.newOff[w] == e && fl'.transferOff[w])
            && ((forall d :: Switch(w, d) !in links) ==>
                  fl'.newOff[w] == fl.newOff[w] && fl'.transferOff[w] == fl.transferOff[w])
  {
    if links != [] {
      var init, last := links[..|links| - 1], links[|links| - 1];
      assert links == init + [last];
      SwitchTells(fl, init, w, e);
      assert forall d :: Switch(w, d) in links <==> Switch(w, d) in init || last == Switch(w, d);
    }
  }

  /** The list of an offloading core, if it has room, grows by the rings of exactly the working
      cores that it is to stop serving. */
  lemma {:induction false} StopTells(fl: Flags, links: seq<Relink>, e: nat) returns (more: seq<nat>)
    requires LinksFit(fl, links) && e < |fl.toRemove| && |fl.toRemove[e]| + |links| <= 4095
    ensures Relinked(fl, links).toRemove[e] == fl.toRemove[e] + more && |more| <= |links|
    ensures forall ring :: ring in more <==> exists w: nat :: Stop(w, e) in links && fl.queues[w] == ring
  {
    more := [];
    if links != [] {
      var init, last := links[..|links| - 1], links[|links| - 1];
      assert links == init + [last];
      more := StopTells(fl, init, e);
      assert forall w: nat :: Stop(w, e) in links <==> Stop(w, e) in init || last == Stop(w, e);
      if last.Stop? && last.e == e {
        more := more + [fl.queues[last.w]];
      }
    }
  }

  /** `update_relationship` in figures: a working core that the new matrix gives another offloading
      core than the one it started with is told to go there; if the matrices agree on the
      core, nothing is told. */
  lemma SwitchInFigures(fl: Flags, o: Matrix, newO: Matrix, offFrom: seq<nat>, cfg: Config, w: nat, e: nat)
    requires OneOffloaderPerWorker(newO, cfg.w, cfg.e, cfg.w + cfg.e) && |offFrom| == cfg.w + cfg.e && w < cfg.w
    requires LinksFit(fl, LinksOf(o, newO, offFrom, cfg.w + cfg.e, cfg.w + cfg.e)) && w < |fl.newOff|
    ensures var fl' := Relinked(fl, LinksOf(o, newO, offFrom, cfg.w + cfg.e, cfg.w + cfg.e));
            && (e < cfg.w + cfg.e && Cell(o, e, w) == 0 && Cell(newO, e, w) == 1 ==>
                  offFrom[w] != NONE && offFrom[w] != e ==> fl'.newOff[w] == e && fl'.transferOff[w])
            && ((forall d :: 0 <= d < cfg.w + cfg.e ==> Cell(o, d, w) == Cell(newO, d, w)) ==>
                  fl'.newOff[w] == fl.newOff[w] && fl'.transferOff[w] == fl.transferOff[w])
  {
    var cores := cfg.w + cfg.e;
    var links := LinksOf(o, newO, offFrom, cores, cores);
    SwitchTells(fl, links, w, e);
    forall d: nat ensures Switch(w, d) in links <==>
              d < cores && Cell(o, d, w) == 0 && Cell(newO, d, w) == 1 && offFrom[w] != NONE && offFrom[w] != d
    {
      LinksAre(o, newO, offFrom, cores, cores, w, d);
    }
    forall d: nat | e < cores && Cell(newO, e, w) == 1 && d < cores && Cell(newO, d, w) == 1 ensures d == e {
      OneCellPerColumn(newO, w, d, e, cfg);
    }
  }

  lemma OneCellPerColumn(m: Matrix, w: nat, d: nat, e: nat, cfg: Config)
    requires OneOffloaderPerWorker(m, cfg.w, cfg.e, cfg.w + cfg.e) && w < cfg.w
    requires d < cfg.w + cfg.e && e < cfg.w + cfg.e && Cell(m, d, w) == 1 && Cell(m, e, w) == 1
    ensures d == e
  {
    assert Col(m, w).At(d) == 1 && Col(m, w).At(e) == 1;
  }
}
