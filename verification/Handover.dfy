/** The protocol by which the controller, the working cores and the offloading cores hand
    shards and rings over: what each task does, as functions on values.  One run of a task
    is one step. */
module Handover {
  import opened Machine
  import opened Device
  import opened ShortSolver

  const NONE: nat := 0xFFFF_FFFF        // UINT32_MAX: no target, no offloading core
  const QSIZE: nat := 256

  /** The control part of ShardInfo. */
  datatype Control = Control(owner: nat, ownerNew: nat, pause: bool, r: real, rNew: real)

  /** What the controller shares with the cores: its static arrays. */
  datatype Flags = Flags(shards: seq<Control>, hadChanges: seq<bool>, transferR: seq<bool>, transferShard: seq<bool>,
                         transferOff: seq<bool>, signal: seq<bool>, newOff: seq<nat>,
                         queues: seq<nat>, rings: seq<nat>, toAdd: seq<seq<nat>>, toRemove: seq<seq<nat>>)

  /** A working core; `q` and `myring` name rings. */
  datatype Worker = Worker(q: nat, myring: nat, myown: bool, offIdx: nat)

  /** An offloading core: the rings it polls, and its 32-bit poll counter. */
  datatype Offloader = Offloader(served: seq<nat>, count: nat)

  /** What a working core reads and writes. */
  datatype Local = Local(pk: Packets, fl: Flags, wk: Worker)

  datatype Config = Config(w: nat, e: nat, shards: nat, burst: nat)

  // ---------------------------------------------------------------------
  // Invariants that the tasks rely on

  ghost predicate ControlsOk(shards: seq<Control>, cfg: Config) {
    && |shards| == cfg.shards
    && forall s :: 0 <= s < |shards| ==>
         shards[s].owner < cfg.w && (shards[s].ownerNew < cfg.w || shards[s].ownerNew == NONE)
  }

  ghost predicate RingLists(lists: seq<seq<nat>>, cfg: Config) {
    && |lists| == cfg.e
    && forall i, k :: 0 <= i < |lists| && 0 <= k < |lists[i]| ==> lists[i][k] < 2 * cfg.w
  }

  ghost predicate OffOk(off: nat, cfg: Config) {
    off < cfg.e || off == NONE
  }

  ghost predicate FlagsOk(fl: Flags, cfg: Config) {
    && ControlsOk(fl.shards, cfg)
    && |fl.hadChanges| == |fl.transferR| == |fl.transferShard| == |fl.transferOff| == |fl.signal| == cfg.w
    && |fl.newOff| == |fl.queues| == |fl.rings| == cfg.w
    && (forall w :: 0 <= w < cfg.w ==> OffOk(fl.newOff[w], cfg))
    && RingLists(fl.toAdd, cfg) && RingLists(fl.toRemove, cfg)
  }

  ghost predicate PacketsOk(pk: Packets, cfg: Config) {
    && |pk.nic| == cfg.w && |pk.rings| == 2 * cfg.w
    && (forall w :: 0 <= w < cfg.w ==> |pk.nic[w]| <= NIC_LIMIT)
    && (forall r :: 0 <= r < 2 * cfg.w ==> |pk.rings[r]| <= RING_SIZE)
  }

  predicate OwnRings(wk: Worker, w: nat) {
    (wk.q == 2 * w && wk.myring == 2 * w + 1) || (wk.q == 2 * w + 1 && wk.myring == 2 * w)
  }

  /** Each working core keeps its own two rings, and the shared arrays name them. */
  ghost predicate WorkerOk(wk: Worker, me: nat, fl: Flags, pk: Packets, cfg: Config)
    requires FlagsOk(fl, cfg) && PacketsOk(pk, cfg)
  {
    && me < cfg.w
    && OwnRings(wk, me)
    && fl.queues[me] == wk.q && fl.rings[me] == wk.myring
    && OffOk(wk.offIdx, cfg)
    && (cfg.e == 0 ==> pk.rings[wk.q] == [])
    && (0 < cfg.e ==> wk.offIdx != NONE)
  }

  ghost predicate ConfigOk(cfg: Config) {
    0 < cfg.w <= NONE && cfg.e <= NONE && 0 < cfg.burst <= 128
  }

  ghost predicate LocalOk(l: Local, me: nat, cfg: Config) {
    ConfigOk(cfg) && FlagsOk(l.fl, cfg) && PacketsOk(l.pk, cfg) && WorkerOk(l.wk, me, l.fl, l.pk, cfg)
  }

  // ---------------------------------------------------------------------
  // The tasks of a working core

  /** rte_ring_enqueue on one of the rings of ring pointers; fails silently when full. */
  function Push(lists: seq<seq<nat>>, i: nat, ring: nat): seq<seq<nat>>
    requires i < |lists|
  {
    if |lists[i]| < RING_SIZE then lists[i := lists[i] + [ring]] else lists
  }

  /** Shards that core `me` releases when it is drained: it owns them and they have a target. */
  predicate Releases(c: Control, me: nat, mustPause: bool) {
    c.owner == me && c.ownerNew != NONE && (mustPause ==> c.pause)
  }

  function Cleared(c: Control, me: nat, mustPause: bool): Control {
    if Releases(c, me, mustPause) then c.(pause := false) else c
  }

  /** Core `me` takes a released shard that is meant for it. */
  function Taken(c: Control, me: nat): Control {
    if !c.pause && c.ownerNew == me then c.(ownerNew := NONE, owner := me) else c
  }

  /** The flags raised by the releases among the first `n` shards. */
  ghost function Raised(had: seq<bool>, shards: seq<Control>, n: nat, me: nat, mustPause: bool): (had': seq<bool>)
    requires n <= |shards|
    ensures |had'| == |had|
    ensures forall w :: 0 <= w < |had| ==>
              (had'[w] <==>
                 had[w] || exists s :: 0 <= s < n && Releases(shards[s], me, mustPause) && shards[s].ownerNew == w)
  {
    seq(|had|, w requires 0 <= w < |had| =>
      had[w] || exists s :: 0 <= s < n && Releases(shards[s], me, mustPause) && shards[s].ownerNew == w)
  }

  /** The scan of `run_task` when the private ring has run empty. */
  ghost function Settled(fl: Flags, me: nat): (fl': Flags) {
    var shards := fl.shards;
    fl.(shards := seq(|shards|, s requires 0 <= s < |shards| => Taken(Cleared(shards[s], me, true), me)),
        hadChanges := Raised(fl.hadChanges, shards, |shards|, me, true))
  }

  /** The scan at the end of `transfer_shard`. */
  ghost function Released(fl: Flags, me: nat): (fl': Flags) {
    var shards := fl.shards;
    fl.(shards := seq(|shards|, s requires 0 <= s < |shards| => Cleared(shards[s], me, false)),
        hadChanges := Raised(fl.hadChanges, shards, |shards|, me, false))
  }

  /** `transfer_r` gives the owned shards their new ratio. */
  function RatiosTaken(shards: seq<Control>, me: nat): (shards': seq<Control>)
    ensures |shards'| == |shards|
  {
    seq(|shards|, s requires 0 <= s < |shards| =>
      if shards[s].owner == me then shards[s].(r := shards[s].rNew) else shards[s])
  }

  ghost function AfterTransferR(l: Local, me: nat, cfg: Config): (l': Local)
    requires LocalOk(l, me, cfg)
    ensures LocalOk(l', me, cfg)
  {
    var l1 :=
      if |l.pk.rings[l.wk.q]| == 0 then l
      else
        l.(wk := l.wk.(q := l.wk.myring, myring := l.wk.q, myown := true),
           fl := l.fl.(queues := l.fl.queues[me := l.wk.myring], rings := l.fl.rings[me := l.wk.q],
                       toRemove := Push(l.fl.toRemove, l.wk.offIdx, l.wk.q),
                       toAdd := Push(l.fl.toAdd, l.wk.offIdx, l.wk.myring)));
    l1.(fl := l1.fl.(shards := RatiosTaken(l1.fl.shards, me), transferR := l1.fl.transferR[me := false]))
  }

  /** The offloading core is told to stop polling the offload ring, */
  function Unlinked(fl: Flags, wk: Worker): Flags
    requires wk.offIdx < |fl.toRemove| || wk.offIdx == NONE
  {
    if wk.offIdx != NONE then fl.(toRemove := Push(fl.toRemove, wk.offIdx, wk.q)) else fl
  }

  /** or to poll it again, */
  function Linked(fl: Flags, wk: Worker): Flags
    requires wk.offIdx < |fl.toAdd| || wk.offIdx == NONE
  {
    if wk.offIdx != NONE then fl.(toAdd := Push(fl.toAdd, wk.offIdx, wk.q)) else fl
  }

  /** or another one is told to. */
  function LinkedAnew(fl: Flags, wk: Worker, me: nat): Flags
    requires me < |fl.newOff| && (fl.newOff[me] < |fl.toAdd| || fl.newOff[me] == NONE)
  {
    var off := fl.newOff[me];
    if off != NONE then fl.(toAdd := Push(fl.toAdd, off, wk.q), newOff := fl.newOff[me := NONE]) else fl
  }

  lemma UnlinkedOk(fl: Flags, wk: Worker, cfg: Config)
    requires FlagsOk(fl, cfg) && OffOk(wk.offIdx, cfg) && wk.q < 2 * cfg.w
    ensures FlagsOk(Unlinked(fl, wk), cfg) && FlagsOk(Linked(fl, wk), cfg)
  {
  }

  lemma LinkedAnewOk(fl: Flags, wk: Worker, me: nat, cfg: Config)
    requires FlagsOk(fl, cfg) && me < cfg.w && wk.q < 2 * cfg.w
    ensures FlagsOk(LinkedAnew(fl, wk, me), cfg)
  {
  }

  lemma DrainedOk(pk: Packets, from: nat, to: nat, cfg: Config)
    requires PacketsOk(pk, cfg) && from < 2 * cfg.w && to < 2 * cfg.w && from != to
    ensures PacketsOk(Drained(pk, from, to), cfg) && Drained(pk, from, to).rings[from] == []
  {
  }

  lemma ReceivedOk(pk: Packets, w: nat, n: nat, ring: nat, cfg: Config)
    requires PacketsOk(pk, cfg) && w < cfg.w && n <= |pk.nic[w]| && ring < 2 * cfg.w
    ensures PacketsOk(Received(pk, w, n, ring), cfg)
  {
  }

  ghost function AfterTransferOff(l: Local, me: nat, cfg: Config): (l': Local)
    requires LocalOk(l, me, cfg)
    ensures LocalOk(l', me, cfg)
  {
    var wk, off := l.wk, l.fl.newOff[me];
    var own := wk.myown || |l.pk.rings[wk.q]| != 0;
    var pk1 := Drained(l.pk, wk.q, wk.myring);
    UnlinkedOk(l.fl, wk, cfg);
    var fl2 := LinkedAnew(Unlinked(l.fl, wk), wk, me);
    LinkedAnewOk(Unlinked(l.fl, wk), wk, me, cfg);
    DrainedOk(l.pk, wk.q, wk.myring, cfg);
    Local(pk1, fl2.(transferOff := fl2.transferOff[me := false]),
          wk.(myown := own, offIdx := if off != NONE then off else wk.offIdx))
  }

  /** What the drain loop of `transfer_shard` takes from a receive queue of `n` packets, when
      every burst is as large as it can be: the counter that should stop at 256 packets is
      stepped past 0 unless the burst divides 256. */
  function Drainable(n: nat, burst: nat): (t: nat)
    requires 0 < burst
    ensures t <= n
  {
    if QSIZE % burst == 0 then Min(n, QSIZE) else n
  }

  lemma ReleasedOk(fl: Flags, me: nat, cfg: Config)
    requires FlagsOk(fl, cfg)
    ensures FlagsOk(Released(fl, me), cfg)
  {
  }

  ghost function AfterTransferShard(l: Local, me: nat, cfg: Config): (l': Local)
    requires LocalOk(l, me, cfg)
    ensures LocalOk(l', me, cfg)
  {
    var wk := l.wk;
    var fl1 := Unlinked(l.fl, wk);
    UnlinkedOk(l.fl, wk, cfg);
    var own := wk.myown || |l.pk.nic[me]| != 0 || |l.pk.rings[wk.q]| != 0;
    var pk1 := Received(l.pk, me, Drainable(|l.pk.nic[me]|, cfg.burst), wk.myring);
    ReceivedOk(l.pk, me, Drainable(|l.pk.nic[me]|, cfg.burst), wk.myring, cfg);
    var pk2 := Drained(pk1, wk.q, wk.myring);
    DrainedOk(pk1, wk.q, wk.myring, cfg);
    var fl2 := Linked(fl1, wk);
    UnlinkedOk(fl1, wk, cfg);
    ReleasedOk(fl2, me, cfg);
    var fl3 := if own then fl2 else Released(fl2, me);
    Local(pk2, fl3.(transferShard := fl3.transferShard[me := false]), wk.(myown := own))
  }

  ghost function IfR(l: Local, me: nat, cfg: Config): (l': Local)
    requires LocalOk(l, me, cfg)
    ensures LocalOk(l', me, cfg)
  {
    if l.fl.transferR[me] then AfterTransferR(l, me, cfg) else l
  }

  ghost function IfOff(l: Local, me: nat, cfg: Config): (l': Local)
    requires LocalOk(l, me, cfg)
    ensures LocalOk(l', me, cfg)
  {
    if l.fl.transferOff[me] then AfterTransferOff(l, me, cfg) else l
  }

  ghost function IfShard(l: Local, me: nat, cfg: Config): (l': Local)
    requires LocalOk(l, me, cfg)
    ensures LocalOk(l', me, cfg)
  {
    if l.fl.transferShard[me] then AfterTransferShard(l, me, cfg) else l
  }

  ghost function SignalCleared(l: Local, me: nat, cfg: Config): (l': Local)
    requires LocalOk(l, me, cfg)
    ensures LocalOk(l', me, cfg)
  {
    l.(fl := l.fl.(signal := l.fl.signal[me := false]))
  }

  /** The signalled part of `run_task`. */
  ghost function AfterSignal(l: Local, me: nat, cfg: Config): (l': Local)
    requires LocalOk(l, me, cfg)
    ensures LocalOk(l', me, cfg)
  {
    if !l.fl.signal[me] then l
    else SignalCleared(IfShard(IfOff(IfR(l, me, cfg), me, cfg), me, cfg), me, cfg)
  }

  /** A released shard is meant for core `me`. */
  predicate Awaited(shards: seq<Control>, me: nat) {
    exists s :: 0 <= s < |shards| && shards[s].ownerNew == me && !shards[s].pause
  }

  ghost function AfterChanges(l: Local, me: nat, cfg: Config): (l': Local)
    requires LocalOk(l, me, cfg)
    ensures LocalOk(l', me, cfg)
  {
    if !l.fl.hadChanges[me] then l
    else
      l.(wk := if Awaited(l.fl.shards, me) then l.wk.(myown := false) else l.wk,
         fl := l.fl.(hadChanges := l.fl.hadChanges[me := false]))
  }

  /** One run of the task of working core `me`.  `diverts` tells which packets `run` sends
      to the offloading side. */
  ghost function AfterWork(l: Local, me: nat, diverts: Buf -> bool, cfg: Config): (l': Local)
    requires LocalOk(l, me, cfg) && (cfg.e == 0 ==> forall x :: !diverts(x))
    ensures LocalOk(l', me, cfg)
  {
    if l.wk.myown then
      if |l.pk.rings[l.wk.myring]| == 0 then l.(wk := l.wk.(myown := false), fl := Settled(l.fl, me))
      else l.(pk := Emitted(l.pk, l.wk.myring, Min(|l.pk.rings[l.wk.myring]|, cfg.burst)))
    else
      var l1 := AfterChanges(AfterSignal(l, me, cfg), me, cfg);
      if l1.wk.myown then l1
      else AfterBatch(l1, me, diverts, cfg)
  }

  /** Receive a burst; emit what is not diverted, queue the rest for offloading. */
  ghost function AfterBatch(l: Local, me: nat, diverts: Buf -> bool, cfg: Config): (l': Local)
    requires LocalOk(l, me, cfg) && (cfg.e == 0 ==> forall x :: !diverts(x))
    ensures LocalOk(l', me, cfg)
  {
    var n := Min(|l.pk.nic[me]|, cfg.burst);
    if cfg.e == 0 then
      PickNone(l.pk.nic[me][..n], diverts);
      l.(pk := Split(l.pk, me, n, l.wk.q, diverts))
    else l.(pk := Split(l.pk, me, n, l.wk.q, diverts))
  }

  // ---------------------------------------------------------------------
  // The task of an offloading core

  /** Q.erase(std::remove(..., ring), ...). */
  function Without(served: seq<nat>, ring: nat): (left: seq<nat>)
    ensures forall k :: 0 <= k < |left| ==> left[k] in served && left[k] != ring
  {
    if served == [] then []
    else
      var n := |served| - 1;
      Without(served[..n], ring) + if served[n] == ring then [] else [served[n]]
  }

  function WithoutAll(served: seq<nat>, gone: seq<nat>): (left: seq<nat>)
    ensures forall k :: 0 <= k < |left| ==> left[k] in served
  {
    if gone == [] then served else Without(WithoutAll(served, gone[..|gone| - 1]), gone[|gone| - 1])
  }

  /** The rings an offloading core polls after it has read its two lists. */
  function Served(off: Offloader, fl: Flags, e: nat): (served: seq<nat>)
    requires e < |fl.toAdd| && e < |fl.toRemove|
  {
    WithoutAll(off.served, fl.toRemove[e]) + fl.toAdd[e]
  }

  datatype OffLocal = OffLocal(pk: Packets, fl: Flags, off: Offloader)

  ghost predicate OffLocalOk(l: OffLocal, e: nat, cfg: Config) {
    && ConfigOk(cfg) && FlagsOk(l.fl, cfg) && PacketsOk(l.pk, cfg) && e < cfg.e
    && (forall k :: 0 <= k < |l.off.served| ==> l.off.served[k] < 2 * cfg.w)
    && l.off.count < TWO32
  }

  ghost function AfterOffload(l: OffLocal, e: nat, cfg: Config): (l': OffLocal)
    requires OffLocalOk(l, e, cfg)
    ensures OffLocalOk(l', e, cfg)
  {
    var served := Served(l.off, l.fl, e);
    assert FlagsOk(l.fl.(toRemove := l.fl.toRemove[e := []], toAdd := l.fl.toAdd[e := []]), cfg);
    var fl := l.fl.(toRemove := l.fl.toRemove[e := []], toAdd := l.fl.toAdd[e := []]);
    assert forall k :: 0 <= k < |served| ==> served[k] < 2 * cfg.w;
    if served == [] then OffLocal(l.pk, fl, l.off.(served := []))
    else
      var ring := served[l.off.count % |served|];
      OffLocal(OffEmitted(l.pk, ring, Min(|l.pk.rings[ring]|, cfg.burst)), fl,
               Offloader(served, (l.off.count + 1) % TWO32))
  }

  // ---------------------------------------------------------------------
  // The controller

  /** Exactly one working core per shard. */
  ghost predicate OneHot(a: Matrix, cfg: Config) {
    Shape(a, cfg.shards, cfg.w + cfg.e) && Binary(a) && OneWorkerPerShard(a, cfg.shards, cfg.w, cfg.w + cfg.e)
  }

  /** The new matrix gives shard `s` to core `w`, the old one did not. */
  predicate Requested(a: Matrix, newA: Matrix, s: int, w: int) {
    Cell(newA, s, w) == 1 && Cell(a, s, w) == 0
  }

  /** `migration_shard`, first call. */
  function Asked(c: Control, w: nat): Control {
    if c.owner == w then c else c.(ownerNew := w, pause := true)
  }

  /** The first loop of `update_shards`. */
  ghost predicate ControlsAsked(shards: seq<Control>, shards': seq<Control>, a: Matrix, newA: Matrix, cores: nat) {
    && |shards'| == |shards|
    && forall s :: 0 <= s < |shards| ==>
         && (forall w :: 0 <= w < cores && Requested(a, newA, s, w) ==> shards'[s] == Asked(shards[s], w))
         && ((forall w :: 0 <= w < cores ==> !Requested(a, newA, s, w)) ==> shards'[s] == shards[s])
  }

  /** Shard `s` moves away from core `o`. */
  ghost predicate Leaves(shards: seq<Control>, a: Matrix, newA: Matrix, s: int, o: nat, cores: nat) {
    && 0 <= s < |shards| && shards[s].owner == o
    && exists w :: 0 <= w < cores && w != o && Requested(a, newA, s, w)
  }

  /** The last loop of `update_shards`. */
  ghost predicate OwnersSignalled(flags: seq<bool>, flags': seq<bool>, shards: seq<Control>, a: Matrix, newA: Matrix,
                                  cores: nat) {
    && |flags'| == |flags|
    && forall o :: 0 <= o < |flags| ==>
         (flags'[o] <==> flags[o] || exists s :: 0 <= s < |shards| && Leaves(shards, a, newA, s, o, cores))
  }

  /** A change of `update_relationship`: a working core is to switch to an offloading core,
      or an offloading core is to stop serving a ring. */
  datatype Relink = Switch(w: nat, e: nat) | Stop(w: nat, e: nat)

  function Relinked(fl: Flags, links: seq<Relink>): (fl': Flags)
    requires |fl.queues| == |fl.newOff| == |fl.transferOff|
    requires forall k :: 0 <= k < |links| ==> links[k].w < |fl.queues| && links[k].e < |fl.toRemove|
    ensures fl' == fl.(newOff := fl'.newOff, transferOff := fl'.transferOff, toRemove := fl'.toRemove)
    ensures |fl'.newOff| == |fl.newOff| && |fl'.transferOff| == |fl.transferOff| && |fl'.toRemove| == |fl.toRemove|
  {
    if links == [] then fl
    else
      var n := |links| - 1;
      var fl1 := Relinked(fl, links[..n]);
      match links[n]
      case Switch(w, e) => fl1.(newOff := fl1.newOff[w := e], transferOff := fl1.transferOff[w := true])
      case Stop(w, e) => fl1.(toRemove := Push(fl1.toRemove, e, fl1.queues[w]))
  }

  lemma {:induction false} RelinkedOk(fl: Flags, links: seq<Relink>, cfg: Config)
    requires FlagsOk(fl, cfg)
    requires forall k :: 0 <= k < |links| ==> links[k].w < cfg.w && links[k].e < cfg.e
    requires forall w :: 0 <= w < cfg.w ==> fl.queues[w] < 2 * cfg.w
    ensures FlagsOk(Relinked(fl, links), cfg)
  {
    if links != [] {
      RelinkedOk(fl, links[..|links| - 1], cfg);
    }
  }

  /** What the solver's answer and the decisions derived from it are. */
  datatype Answer = Answer(newA: Matrix, wanted: seq<real>, notify: set<nat>, links: seq<Relink>, signal: bool)

  ghost predicate AnswerOk(ans: Answer, cfg: Config) {
    && OneHot(ans.newA, cfg) && |ans.wanted| == cfg.shards
    && forall k :: 0 <= k < |ans.links| ==> ans.links[k].w < cfg.w && ans.links[k].e < cfg.e
  }

  function Wanted(shards: seq<Control>, wanted: seq<real>): (shards': seq<Control>)
    requires |wanted| == |shards|
    ensures |shards'| == |shards|
  {
    seq(|shards|, s requires 0 <= s < |shards| => shards[s].(rNew := wanted[s]))
  }

  ghost function Notified(flags: seq<bool>, ws: set<nat>): (flags': seq<bool>)
    ensures |flags'| == |flags|
  {
    seq(|flags|, w requires 0 <= w < |flags| => flags[w] || w in ws)
  }

  /** The controller's reaction to an answer. */
  ghost predicate ControlStep(fl: Flags, fl': Flags, a: Matrix, ans: Answer, cfg: Config)
    requires FlagsOk(fl, cfg) && AnswerOk(ans, cfg)
  {
    var fl1 := Relinked(fl, ans.links);
    var shards := Wanted(fl.shards, ans.wanted);
    && ControlsAsked(shards, fl'.shards, a, ans.newA, cfg.w + cfg.e)
    && OwnersSignalled(fl.transferShard, fl'.transferShard, shards, a, ans.newA, cfg.w + cfg.e)
    && fl' == fl1.(shards := fl'.shards, transferShard := fl'.transferShard,
                   transferR := Notified(fl.transferR, ans.notify),
                   signal := if ans.signal then seq(cfg.w, _ => true) else fl.signal)
  }

  // ---------------------------------------------------------------------
  // The whole system

  datatype State = State(pk: Packets, fl: Flags, workers: seq<Worker>, offs: seq<Offloader>, a: Matrix,
                         entered: multiset<Buf>)

  datatype Event =
    | Arrive(w: nat, x: Buf)
    | Work(me: nat, diverts: Buf -> bool)
    | Offload(e: nat)
    | Decide(ans: Answer)

  function LocalOf(st: State, me: nat): Local
    requires me < |st.workers|
  {
    Local(st.pk, st.fl, st.workers[me])
  }

  ghost predicate Inv(st: State, cfg: Config) {
    && ConfigOk(cfg) && FlagsOk(st.fl, cfg) && PacketsOk(st.pk, cfg) && OneHot(st.a, cfg)
    && |st.workers| == cfg.w && (forall w :: 0 <= w < cfg.w ==> WorkerOk(st.workers[w], w, st.fl, st.pk, cfg))
    && |st.offs| == cfg.e && (forall e :: 0 <= e < cfg.e ==> OffLocalOk(OffLocal(st.pk, st.fl, st.offs[e]), e, cfg))
    && Conserved(st)
  }

  /** Every packet that entered is in exactly one place. */
  ghost predicate Conserved(st: State) {
    forall x :: Copies(st.pk, x) == st.entered[x]
  }

  /** One step, from a state that satisfies the invariant. */
  ghost predicate Step(st: State, ev: Event, st': State, cfg: Config)
    requires Inv(st, cfg)
  {
    match ev
    case Arrive(w, x) =>
      && w < cfg.w && |st.pk.nic[w]| < NIC_LIMIT
      && st' == st.(pk := st.pk.(nic := st.pk.nic[w := st.pk.nic[w] + [x]]), entered := st.entered + multiset{x})
    case Work(me, diverts) =>
      && me < cfg.w && (cfg.e == 0 ==> forall x :: !diverts(x))
      && var l := AfterWork(LocalOf(st, me), me, diverts, cfg);
         st' == st.(pk := l.pk, fl := l.fl, workers := st.workers[me := l.wk])
    case Offload(e) =>
      && e < cfg.e
      && var l := AfterOffload(OffLocal(st.pk, st.fl, st.offs[e]), e, cfg);
         st' == st.(pk := l.pk, fl := l.fl, offs := st.offs[e := l.off])
    case Decide(ans) =>
      && AnswerOk(ans, cfg) && ControlStep(st.fl, st'.fl, st.a, ans, cfg)
      && st' == st.(fl := st'.fl, a := ans.newA)
  }
}
