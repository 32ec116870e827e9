/** What every run of the handover protocol keeps: no packet is lost or doubled, every core
    keeps its own two rings, and a shard changes hands only as requested, from a drained
    owner. */
module Safety {
  import opened Device
  import opened Handover
  import opened Assignment
  import SS = ShortSolver

  // ---------------------------------------------------------------------
  // A task of a working core touches its own rings and queue only

  ghost predicate Framed(l: Local, l': Local, me: nat) {
    && |l'.fl.queues| == |l.fl.queues| && |l'.fl.rings| == |l.fl.rings|
    && (forall w :: 0 <= w < |l.fl.queues| && w != me ==> l'.fl.queues[w] == l.fl.queues[w])
    && (forall w :: 0 <= w < |l.fl.rings| && w != me ==> l'.fl.rings[w] == l.fl.rings[w])
    && |l'.pk.rings| == |l.pk.rings| && |l'.pk.nic| == |l.pk.nic|
    && (forall r :: 0 <= r < |l.pk.rings| && r != 2 * me && r != 2 * me + 1 ==> l'.pk.rings[r] == l.pk.rings[r])
    && (forall w :: 0 <= w < |l.pk.nic| && w != me ==> l'.pk.nic[w] == l.pk.nic[w])
  }

  lemma TransferRKeeps(l: Local, me: nat, cfg: Config)
    requires LocalOk(l, me, cfg)
    ensures var l' := AfterTransferR(l, me, cfg); Framed(l, l', me) && l'.pk == l.pk
  {
  }

  lemma TransferOffFrames(l: Local, me: nat, cfg: Config)
    requires LocalOk(l, me, cfg)
    ensures Framed(l, AfterTransferOff(l, me, cfg), me)
  {
  }

  lemma TransferOffKeeps(l: Local, me: nat, cfg: Config, x: Buf)
    requires LocalOk(l, me, cfg)
    ensures var l' := AfterTransferOff(l, me, cfg); Framed(l, l', me) && Copies(l'.pk, x) == Copies(l.pk, x)
  {
    TransferOffFrames(l, me, cfg);
    assert AfterTransferOff(l, me, cfg).pk == Drained(l.pk, l.wk.q, l.wk.myring);
    DrainedConserves(l.pk, l.wk.q, l.wk.myring, x);
  }

  lemma TransferShardFrames(l: Local, me: nat, cfg: Config)
    requires LocalOk(l, me, cfg)
    ensures Framed(l, AfterTransferShard(l, me, cfg), me)
  {
  }

  lemma TransferShardKeeps(l: Local, me: nat, cfg: Config, x: Buf)
    requires LocalOk(l, me, cfg)
    ensures var l' := AfterTransferShard(l, me, cfg); Framed(l, l', me) && Copies(l'.pk, x) == Copies(l.pk, x)
  {
    TransferShardFrames(l, me, cfg);
    var n := Drainable(|l.pk.nic[me]|, cfg.burst);
    var pk1 := Received(l.pk, me, n, l.wk.myring);
    assert AfterTransferShard(l, me, cfg).pk == Drained(pk1, l.wk.q, l.wk.myring);
    ReceivedConserves(l.pk, me, n, l.wk.myring, x);
    DrainedConserves(pk1, l.wk.q, l.wk.myring, x);
  }

  lemma SignalKeeps(l: Local, me: nat, cfg: Config, x: Buf)
    requires LocalOk(l, me, cfg)
    ensures var l' := AfterSignal(l, me, cfg); Framed(l, l', me) && Copies(l'.pk, x) == Copies(l.pk, x)
  {
    if l.fl.signal[me] {
      var l1 := IfR(l, me, cfg);
      var l2 := IfOff(l1, me, cfg);
      if l.fl.transferR[me] {
        TransferRKeeps(l, me, cfg);
      }
      if l1.fl.transferOff[me] {
        TransferOffKeeps(l1, me, cfg, x);
      }
      if l2.fl.transferShard[me] {
        TransferShardKeeps(l2, me, cfg, x);
      }
      FramedTwice(l, l1, l2, me);
      FramedTwice(l, l2, IfShard(l2, me, cfg), me);
    }
  }

  lemma FramedTwice(l: Local, l': Local, l'': Local, me: nat)
    requires Framed(l, l', me) && Framed(l', l'', me)
    ensures Framed(l, l'', me)
  {
  }

  lemma ChangesKeep(l: Local, me: nat, cfg: Config)
    requires LocalOk(l, me, cfg)
    ensures var l' := AfterChanges(l, me, cfg); Framed(l, l', me) && l'.pk == l.pk
  {
  }

  lemma BatchKeeps(l: Local, me: nat, diverts: Buf -> bool, cfg: Config, x: Buf)
    requires LocalOk(l, me, cfg) && (cfg.e == 0 ==> forall y :: !diverts(y))
    ensures var l' := AfterBatch(l, me, diverts, cfg); Framed(l, l', me) && Copies(l'.pk, x) == Copies(l.pk, x)
  {
    SplitConserves(l.pk, me, Min(|l.pk.nic[me]|, cfg.burst), l.wk.q, diverts, x);
  }

  /** One run of a working core's task moves packets without losing or doubling any, and
      leaves the other cores' rings and queues alone. */
  lemma WorkKeeps(l: Local, me: nat, diverts: Buf -> bool, cfg: Config, x: Buf)
    requires LocalOk(l, me, cfg) && (cfg.e == 0 ==> forall y :: !diverts(y))
    ensures var l' := AfterWork(l, me, diverts, cfg); Framed(l, l', me) && Copies(l'.pk, x) == Copies(l.pk, x)
  {
    if l.wk.myown {
      if |l.pk.rings[l.wk.myring]| != 0 {
        EmittedConserves(l.pk, l.wk.myring, Min(|l.pk.rings[l.wk.myring]|, cfg.burst), x);
      }
    } else {
      var l1 := AfterSignal(l, me, cfg);
      SignalKeeps(l, me, cfg, x);
      ChangesKeep(l1, me, cfg);
      var l2 := AfterChanges(l1, me, cfg);
      if !l2.wk.myown {
        BatchKeeps(l2, me, diverts, cfg, x);
      }
    }
  }

  // ---------------------------------------------------------------------
  // The invariant

  lemma OtherWorkers(st: State, me: nat, l: Local, l': Local, workers: seq<Worker>, cfg: Config)
    requires Inv(st, cfg) && me < cfg.w && l == LocalOf(st, me) && Framed(l, l', me) && LocalOk(l', me, cfg)
    requires workers == st.workers[me := l'.wk]
    ensures forall w :: 0 <= w < cfg.w ==> WorkerOk(workers[w], w, l'.fl, l'.pk, cfg)
    ensures forall e :: 0 <= e < cfg.e ==> OffLocalOk(OffLocal(l'.pk, l'.fl, st.offs[e]), e, cfg)
  {
    forall w | 0 <= w < cfg.w ensures WorkerOk(workers[w], w, l'.fl, l'.pk, cfg) {
      assert WorkerOk(st.workers[w], w, st.fl, st.pk, cfg);
    }
    forall e | 0 <= e < cfg.e ensures OffLocalOk(OffLocal(l'.pk, l'.fl, st.offs[e]), e, cfg) {
      assert OffLocalOk(OffLocal(st.pk, st.fl, st.offs[e]), e, cfg);
    }
  }

  lemma InvWork(st: State, me: nat, diverts: Buf -> bool, st': State, cfg: Config)
    requires Inv(st, cfg) && Step(st, Work(me, diverts), st', cfg)
    ensures Inv(st', cfg)
  {
    var l := LocalOf(st, me);
    var l' := AfterWork(l, me, diverts, cfg);
    forall x ensures Copies(st'.pk, x) == st'.entered[x] {
      WorkKeeps(l, me, diverts, cfg, x);
    }
    WorkKeeps(l, me, diverts, cfg, 0);
    OtherWorkers(st, me, l, l', st'.workers, cfg);
  }

  lemma InvArrive(st: State, w: nat, x: Buf, st': State, cfg: Config)
    requires Inv(st, cfg) && Step(st, Arrive(w, x), st', cfg)
    ensures Inv(st', cfg)
  {
    forall y ensures Copies(st'.pk, y) == st'.entered[y] {
      LoadUpdate(st.pk.nic, w, st.pk.nic[w] + [x], y);
      CountSnoc(st.pk.nic[w], x, y);
    }
    forall v | 0 <= v < cfg.w ensures WorkerOk(st'.workers[v], v, st'.fl, st'.pk, cfg) {
      assert WorkerOk(st.workers[v], v, st.fl, st.pk, cfg);
    }
    forall e | 0 <= e < cfg.e ensures OffLocalOk(OffLocal(st'.pk, st'.fl, st'.offs[e]), e, cfg) {
      assert OffLocalOk(OffLocal(st.pk, st.fl, st.offs[e]), e, cfg);
    }
  }

  lemma InvOffload(st: State, e: nat, st': State, cfg: Config)
    requires Inv(st, cfg) && Step(st, Offload(e), st', cfg)
    ensures Inv(st', cfg)
  {
    var l := OffLocal(st.pk, st.fl, st.offs[e]);
    var l' := AfterOffload(l, e, cfg);
    var served := Served(l.off, l.fl, e);
    forall x ensures Copies(st'.pk, x) == st'.entered[x] {
      if served != [] {
        var ring := served[l.off.count % |served|];
        EmittedConserves(l.pk, ring, Min(|l.pk.rings[ring]|, cfg.burst), x);
      }
    }
    forall v | 0 <= v < cfg.w ensures WorkerOk(st'.workers[v], v, st'.fl, st'.pk, cfg) {
      assert WorkerOk(st.workers[v], v, st.fl, st.pk, cfg);
    }
    forall k | 0 <= k < cfg.e ensures OffLocalOk(OffLocal(st'.pk, st'.fl, st'.offs[k]), k, cfg) {
      assert OffLocalOk(OffLocal(st.pk, st.fl, st.offs[k]), k, cfg);
    }
  }

  lemma InvDecide(st: State, ans: Answer, st': State, cfg: Config)
    requires Inv(st, cfg) && Step(st, Decide(ans), st', cfg)
    ensures Inv(st', cfg)
  {
    forall w | 0 <= w < cfg.w ensures st.fl.queues[w] < 2 * cfg.w {
      assert WorkerOk(st.workers[w], w, st.fl, st.pk, cfg);
    }
    ControlKeeps(st.fl, st'.fl, st.a, ans, cfg);
    forall v | 0 <= v < cfg.w ensures WorkerOk(st'.workers[v], v, st'.fl, st'.pk, cfg) {
      assert WorkerOk(st.workers[v], v, st.fl, st.pk, cfg);
    }
    forall k | 0 <= k < cfg.e ensures OffLocalOk(OffLocal(st'.pk, st'.fl, st'.offs[k]), k, cfg) {
      assert OffLocalOk(OffLocal(st.pk, st.fl, st.offs[k]), k, cfg);
    }
  }

  /** Acting on an answer keeps the shared arrays in range. */
  lemma ControlKeeps(fl: Flags, fl': Flags, a: SS.Matrix, ans: Answer, cfg: Config)
    requires FlagsOk(fl, cfg) && AnswerOk(ans, cfg) && ControlStep(fl, fl', a, ans, cfg)
    requires forall w :: 0 <= w < cfg.w ==> fl.queues[w] < 2 * cfg.w
    ensures FlagsOk(fl', cfg) && fl'.queues == fl.queues
  {
    RelinkedOk(fl, ans.links, cfg);
    AskedOk(Wanted(fl.shards, ans.wanted), fl'.shards, a, ans.newA, cfg);
  }

  /** A request changes nothing but the target and the pause of a shard. */
  lemma AskedKeeps(shards: seq<Control>, shards': seq<Control>, a: SS.Matrix, newA: SS.Matrix, cfg: Config, s: nat)
    requires ControlsAsked(shards, shards', a, newA, cfg.w + cfg.e) && s < |shards|
    ensures shards'[s] == shards[s].(ownerNew := shards'[s].ownerNew, pause := shards'[s].pause)
  {
    if w :| 0 <= w < cfg.w + cfg.e && Requested(a, newA, s, w) {
      assert shards'[s] == Asked(shards[s], w);
    }
  }

  /** Requests name working cores. */
  lemma AskedOk(shards: seq<Control>, shards': seq<Control>, a: SS.Matrix, newA: SS.Matrix, cfg: Config)
    requires ControlsOk(shards, cfg) && OneHot(newA, cfg) && ControlsAsked(shards, shards', a, newA, cfg.w + cfg.e)
    ensures ControlsOk(shards', cfg)
  {
    forall s | 0 <= s < |shards|
      ensures shards'[s].owner < cfg.w && (shards'[s].ownerNew < cfg.w || shards'[s].ownerNew == NONE)
    {
      if w :| 0 <= w < cfg.w + cfg.e && Requested(a, newA, s, w) {
        RequestedIsWorker(a, newA, s, w, cfg);
      }
    }
  }

  lemma RequestedIsWorker(a: SS.Matrix, newA: SS.Matrix, s: nat, w: nat, cfg: Config)
    requires OneHot(newA, cfg) && s < cfg.shards && w < cfg.w + cfg.e && Requested(a, newA, s, w)
    ensures w < cfg.w
    ensures forall v: nat :: v < cfg.w + cfg.e && Requested(a, newA, s, v) ==> v == w
  {
    assert SS.HotBelow(SS.Row(newA, s), cfg.w + cfg.e, cfg.w);
    var h: nat :| h < cfg.w && SS.Hot(SS.Row(newA, s), cfg.w + cfg.e, h);
    assert SS.Row(newA, s).At(w) == SS.Cell(newA, s, w);
    forall v: nat | v < cfg.w + cfg.e && Requested(a, newA, s, v) ensures v == w {
      assert SS.Row(newA, s).At(v) == SS.Cell(newA, s, v);
    }
  }

  /** Whatever the solver answers within its constraints is an answer that the steps above
      allow. */
  lemma SolverAnswersOk(p: SS.Problem, x: SS.Point, ans: Answer, cfg: Config)
    requires SS.Feasible(p, x) && p.w == cfg.w && p.e == cfg.e && p.shards == cfg.shards
    requires ans.newA == x.a && |ans.wanted| == cfg.shards
    requires forall k :: 0 <= k < |ans.links| ==> ans.links[k].w < cfg.w && ans.links[k].e < cfg.e
    ensures AnswerOk(ans, cfg)
  {
    SS.AssignmentIsOneHot(x.a, p.shards, p.w, p.Cores());
  }

  /** Every step keeps the invariant. */
  lemma InvStep(st: State, ev: Event, st': State, cfg: Config)
    requires Inv(st, cfg) && Step(st, ev, st', cfg)
    ensures Inv(st', cfg)
  {
    match ev
    case Arrive(w, x) => InvArrive(st, w, x, st', cfg);
    case Work(me, diverts) => InvWork(st, me, diverts, st', cfg);
    case Offload(e) => InvOffload(st, e, st', cfg);
    case Decide(ans) => InvDecide(st, ans, st', cfg);
  }

  // ---------------------------------------------------------------------
  // Runs

  /** `init_queues` deals the rings of the first `n` working cores to the offloading cores. */
  function Dealt(cfg: Config, n: nat): (lists: seq<seq<nat>>)
    requires 0 < cfg.e
    ensures |lists| == cfg.e
  {
    if n == 0 then seq(cfg.e, _ => [])
    else
      var lists := Dealt(cfg, n - 1);
      Push(lists, FirstCore(n - 1, cfg.e), 2 * (n - 1))
  }

  /** Shards start with the owner s % W, in the matrix too, and with target 0: the memory is
      zeroed, and no code writes another target before the first request. */
  ghost predicate Initial(st: State, cfg: Config) {
    && ConfigOk(cfg) && st.a == FirstMatrix(cfg.w, cfg.shards, cfg.w + cfg.e)
    && st.pk == Packets(seq(cfg.w, _ => []), seq(2 * cfg.w, _ => []), [], [], [], [], [])
    && st.entered == multiset{}
    && |st.fl.shards| == cfg.shards
    && (forall s :: 0 <= s < cfg.shards ==> st.fl.shards[s] == Control(FirstCore(s, cfg.w), 0, false, 0.0, 0.0))
    && st.fl.hadChanges == st.fl.transferR == st.fl.transferShard == st.fl.transferOff == st.fl.signal
       == seq(cfg.w, _ => false)
    && st.fl.newOff == seq(cfg.w, _ => NONE)
    && st.fl.queues == seq(cfg.w, w requires 0 <= w => 2 * w)
    && st.fl.rings == seq(cfg.w, w requires 0 <= w => 2 * w + 1)
    && st.fl.toRemove == seq(cfg.e, _ => []) && st.fl.toAdd == (if cfg.e == 0 then [] else Dealt(cfg, cfg.w))
    && |st.workers| == cfg.w
    && (forall w :: 0 <= w < cfg.w ==>
          st.workers[w] == Worker(2 * w, 2 * w + 1, false, if cfg.e == 0 then NONE else FirstCore(w, cfg.e)))
    && st.offs == seq(cfg.e, _ => Offloader([], 0))
  }

  lemma {:induction false} DealtOk(cfg: Config, n: nat)
    requires 0 < cfg.e && n <= cfg.w
    ensures RingLists(Dealt(cfg, n), cfg)
  {
    if n != 0 {
      DealtOk(cfg, n - 1);
    }
  }

  lemma {:induction false} NothingLoaded(qs: seq<seq<Buf>>, x: Buf)
    requires forall i :: 0 <= i < |qs| ==> qs[i] == []
    ensures Load(qs, x) == 0
  {
    if qs != [] {
      NothingLoaded(qs[..|qs| - 1], x);
    }
  }

  lemma InvInitial(st: State, cfg: Config)
    requires Initial(st, cfg)
    ensures Inv(st, cfg)
  {
    InitialIsHot(st.a, cfg.w, cfg.shards, cfg.w + cfg.e);
    if cfg.e != 0 {
      DealtOk(cfg, cfg.w);
    }
    forall x ensures Copies(st.pk, x) == st.entered[x] {
      NothingLoaded(st.pk.nic, x);
      NothingLoaded(st.pk.rings, x);
    }
  }

  /** Steps are defined in states that satisfy the invariant; RunInv shows that a run never
      leaves them. */
  ghost predicate IsRun(states: seq<State>, evs: seq<Event>, cfg: Config) {
    && |states| == |evs| + 1 && Initial(states[0], cfg)
    && forall i :: 0 <= i < |evs| ==> GoesOn(states[i], evs[i], states[i + 1], cfg)
  }

  ghost predicate GoesOn(st: State, ev: Event, st': State, cfg: Config) {
    Inv(st, cfg) ==> Step(st, ev, st', cfg)
  }

  /** A run goes on with one more step. */
  lemma RunSnoc(states: seq<State>, evs: seq<Event>, ev: Event, st': State, cfg: Config)
    requires IsRun(states, evs, cfg) && GoesOn(states[|evs|], ev, st', cfg)
    ensures IsRun(states + [st'], evs + [ev], cfg)
  {
    var states', evs', n := states + [st'], evs + [ev], |evs|;
    assert states'[0] == states[0] && states'[n] == states[n] && states'[n + 1] == st' && evs'[n] == ev;
    forall i | 0 <= i < n ensures GoesOn(states'[i], evs'[i], states'[i + 1], cfg) {
      SameStep(states, evs, st', ev, i);
      assert GoesOn(states[i], evs[i], states[i + 1], cfg);
    }
  }

  lemma SameStep(states: seq<State>, evs: seq<Event>, st': State, ev: Event, i: nat)
    requires |states| == |evs| + 1 && i < |evs|
    ensures (states + [st'])[i] == states[i] && (evs + [ev])[i] == evs[i] && (states + [st'])[i + 1] == states[i + 1]
  {
  }

  /** Every state of every run satisfies the invariant: sizes and indices are in range,
      `owner` is a working core, and the packets are conserved. */
  lemma {:induction false} RunInv(states: seq<State>, evs: seq<Event>, i: nat, cfg: Config)
    requires IsRun(states, evs, cfg) && i <= |evs|
    ensures Inv(states[i], cfg)
    decreases i
  {
    if i == 0 {
      InvInitial(states[0], cfg);
    } else {
      RunInv(states, evs, i - 1, cfg);
      assert GoesOn(states[i - 1], evs[i - 1], states[i], cfg);
      InvStep(states[i - 1], evs[i - 1], states[i], cfg);
    }
  }

  lemma RunStep(states: seq<State>, evs: seq<Event>, i: nat, cfg: Config)
    requires IsRun(states, evs, cfg) && i < |evs|
    ensures Inv(states[i], cfg) && Inv(states[i + 1], cfg) && Step(states[i], evs[i], states[i + 1], cfg)
  {
    RunInv(states, evs, i, cfg);
    RunInv(states, evs, i + 1, cfg);
    assert GoesOn(states[i], evs[i], states[i + 1], cfg);
  }

  /** Packet conservation, in the words of the cores: whatever entered a receive queue is in
      exactly one of the receive queues, the q and myring of a working core, or out, or
      was refused by a full ring. */
  lemma PacketsConserved(states: seq<State>, evs: seq<Event>, i: nat, cfg: Config, x: Buf)
    requires IsRun(states, evs, cfg) && i <= |evs|
    ensures var st := states[i];
            && |st.workers| == cfg.w && |st.pk.rings| == 2 * cfg.w
            && (forall w :: 0 <= w < cfg.w ==> st.workers[w].q < 2 * cfg.w && st.workers[w].myring < 2 * cfg.w)
            && Load(st.pk.nic, x) + HeldBy(st.workers, st.pk.rings, cfg.w, x)
               + Count(st.pk.emitted, x) + Count(st.pk.offEmitted, x) + Count(st.pk.refused, x) == st.entered[x]
  {
    RunInv(states, evs, i, cfg);
    var st := states[i];
    forall w | 0 <= w < cfg.w ensures st.workers[w].q < 2 * cfg.w && st.workers[w].myring < 2 * cfg.w {
      assert WorkerOk(st.workers[w], w, st.fl, st.pk, cfg);
    }
    forall w | 0 <= w < cfg.w ensures OwnRings(st.workers[w], w) {
      assert WorkerOk(st.workers[w], w, st.fl, st.pk, cfg);
    }
    HeldIsLoad(st.workers, st.pk.rings, cfg.w, x);
    assert st.pk.rings[..2 * cfg.w] == st.pk.rings;
  }

  /** How often a packet is in the rings of the first `n` working cores. */
  function HeldBy(workers: seq<Worker>, rings: seq<seq<Buf>>, n: nat, x: Buf): nat
    requires n <= |workers|
    requires forall w :: 0 <= w < n ==> workers[w].q < |rings| && workers[w].myring < |rings|
  {
    if n == 0 then 0
    else HeldBy(workers, rings, n - 1, x) + Count(rings[workers[n - 1].q], x) + Count(rings[workers[n - 1].myring], x)
  }

  lemma {:induction false} HeldIsLoad(workers: seq<Worker>, rings: seq<seq<Buf>>, n: nat, x: Buf)
    requires n <= |workers| && 2 * n <= |rings|
    requires forall w :: 0 <= w < n ==> OwnRings(workers[w], w) && workers[w].q < |rings| && workers[w].myring < |rings|
    ensures HeldBy(workers, rings, n, x) == Load(rings[..2 * n], x)
  {
    if n != 0 {
      HeldIsLoad(workers, rings, n - 1, x);
      assert rings[..2 * n][..2 * n - 1] == rings[..2 * n - 1];
      assert rings[..2 * n - 1][..2 * n - 2] == rings[..2 * (n - 1)];
      assert OwnRings(workers[n - 1], n - 1);
    }
  }

  /** No ring belongs to two cores, or to one core twice; and the shared arrays name the
      rings the cores use. */
  lemma RingsDistinct(states: seq<State>, evs: seq<Event>, i: nat, cfg: Config, v: nat, w: nat)
    requires IsRun(states, evs, cfg) && i <= |evs| && v < cfg.w && w < cfg.w
    ensures var st := states[i];
            && |st.workers| == |st.fl.queues| == |st.fl.rings| == cfg.w
            && st.workers[v].q != st.workers[w].myring
            && (v != w ==> st.workers[v].q != st.workers[w].q && st.workers[v].myring != st.workers[w].myring)
            && st.fl.queues[w] == st.workers[w].q && st.fl.rings[w] == st.workers[w].myring
  {
    RunInv(states, evs, i, cfg);
    var st := states[i];
    assert WorkerOk(st.workers[v], v, st.fl, st.pk, cfg) && WorkerOk(st.workers[w], w, st.fl, st.pk, cfg);
  }
}
