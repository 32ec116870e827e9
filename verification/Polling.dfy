/** Round-robin polling by an offloading core, along any run: while its list of rings stays the
    same, does it reach every ring once in as many polls as there are rings? */
module Polling {
  import opened Cyclic
  import opened Machine
  import opened Device
  import opened Handover
  import opened Safety

  // ---------------------------------------------------------------------
  // A counter of 32 bits modulo the number of rings

  /** The place that the i-th poll from counter `c` on picks. */
  function Pick(c: nat, i: nat, n: nat): nat
    requires 0 < n
  {
    Round(c + i, n)
  }

  /** `n` polls from counter `c` on never pick a place twice. */
  ghost predicate Distinct(c: nat, n: nat)
    requires 0 < n
  {
    forall i: nat, j: nat :: i < j < n ==> Pick(c, i, n) != Pick(c, j, n)
  }

  lemma RoundNear(c: nat, j: nat, n: nat)
    requires j < n && (c + n <= TWO32 || TWO32 % n == 0)
    ensures Round(c + j, n) == (c + j) % n
  {
    RoundIs(c + j, n);
  }

  /** Where the counter wraps, the places that come up twice: `p` is what 2^32 leaves over, `a`
      the number of polls before the wrap. */
  lemma WrapMeets(c: nat, n: nat) returns (i: nat, j: nat)
    requires c < TWO32 < c + n && TWO32 % n != 0
    ensures i < j < n && Pick(c, i, n) == Pick(c, j, n)
  {
    var q, p, a := TWO32 / n, TWO32 % n, TWO32 - c;
    DivMod(TWO32, n);
    var r := if p + a <= n then p - 1 else n - a - 1;
    i, j := if p + a <= n then a - 1 else n - 1 - p, a + r;
    MeetsAt(c, n, q, p, a, r, i);
  }

  lemma MeetsAt(c: nat, n: nat, q: nat, p: nat, a: nat, r: nat, i: nat)
    requires r < n && r < TWO32 && c + a == TWO32 && TWO32 == n * q + p && c + i < TWO32 && p + i == a + r
    ensures Pick(c, i, n) == Pick(c, a + r, n)
  {
    RoundBefore(c + i, n, q, r);
    RoundAfter(c + (a + r), n, r);
  }

  lemma RoundBefore(x: nat, n: nat, q: nat, r: nat)
    requires r < n && x < TWO32 && x == n * q + r
    ensures Round(x, n) == r
  {
    DivModUnique(x, TWO32, 0, x);
    DivModUnique(x, n, q, r);
  }

  lemma RoundAfter(x: nat, n: nat, r: nat)
    requires r < n && r < TWO32 && x == TWO32 + r
    ensures Round(x, n) == r
  {
    DivModUnique(x, TWO32, 1, r);
    DivModUnique(r, n, 0, r);
  }

  /** `n` polls in a row reach different places exactly if the counter does not wrap between
      them or `n` divides 2^32. */
  lemma DistinctIff(c: nat, n: nat)
    requires 0 < n && c < TWO32
    ensures Distinct(c, n) <==> c + n <= TWO32 || TWO32 % n == 0
  {
    if c + n <= TWO32 || TWO32 % n == 0 {
      forall i: nat, j: nat | i < j < n ensures Pick(c, i, n) != Pick(c, j, n) {
        RoundNear(c, i, n);
        RoundNear(c, j, n);
        NoPlaceTwice(c, i, j, n);
      }
    } else {
      var i, j := WrapMeets(c, n);
    }
  }

  /** For all values of the counter exactly if `n` divides 2^32. */
  lemma AlwaysDistinctIff(n: nat)
    requires 0 < n
    ensures (forall c: nat :: c < TWO32 ==> Distinct(c, n)) <==> TWO32 % n == 0
  {
    if TWO32 % n == 0 {
      forall c: nat | c < TWO32 ensures Distinct(c, n) {
        DistinctIff(c, n);
      }
    } else {
      DivModUnique(TWO32, 1, TWO32, 0);
      DistinctIff(TWO32 - 1, n);
    }
  }

  // ---------------------------------------------------------------------
  // Runs

  /** The step is a poll of core `e`. */
  predicate IsPoll(ev: Event, e: nat) {
    ev.Offload? && ev.e == e
  }

  /** The polls of core `e` among the steps i .. m - 1. */
  function PollsBefore(evs: seq<Event>, i: nat, m: nat, e: nat): (k: nat)
    requires i <= m <= |evs|
    decreases m
  {
    if m == i then 0 else PollsBefore(evs, i, m - 1, e) + if IsPoll(evs[m - 1], e) then 1 else 0
  }

  /** Core `e` polls the rings `served` when its next task runs. */
  ghost predicate PollsFrom(st: State, e: nat, served: seq<nat>) {
    && e < |st.offs| && e < |st.fl.toAdd| && e < |st.fl.toRemove|
    && Served(st.offs[e], st.fl, e) == served
  }

  /** In every poll of core `e` from step `i` to step `j` its list is `served`. */
  ghost predicate Steady(states: seq<State>, evs: seq<Event>, i: nat, j: nat, e: nat, served: seq<nat>, cfg: Config) {
    && IsRun(states, evs, cfg) && i <= j <= |evs| && e < cfg.e && served != []
    && forall m :: i <= m < j && IsPoll(evs[m], e) ==> PollsFrom(states[m], e, served)
  }

  function CountAt(st: State, e: nat): nat {
    if e < |st.offs| then st.offs[e].count else 0
  }

  /** A burst of the ring is emitted. */
  ghost predicate Polled(st: State, st': State, ring: nat, cfg: Config) {
    ring < |st.pk.rings| && st'.pk == OffEmitted(st.pk, ring, Min(|st.pk.rings[ring]|, cfg.burst))
  }

  /** The counter after `k` polls. */
  function Counted(c: nat, k: nat): nat {
    (c + k) % TWO32
  }

  lemma CountedNone(c: nat)
    requires c < TWO32
    ensures Counted(c, 0) == c
  {
  }

  lemma CountedMore(c: nat, k: nat)
    ensures Counted(Counted(c, k), 1) == Counted(c, k + 1)
  {
    AddMod(c + k, 1);
  }

  lemma PollStep(st: State, ev: Event, st': State, e: nat, served: seq<nat>, cfg: Config)
    requires Inv(st, cfg) && Step(st, ev, st', cfg) && e < cfg.e && served != []
    requires IsPoll(ev, e) ==> PollsFrom(st, e, served)
    ensures CountAt(st, e) < TWO32
    ensures CountAt(st', e) == if IsPoll(ev, e) then Counted(CountAt(st, e), 1) else CountAt(st, e)
    ensures IsPoll(ev, e) ==> Polled(st, st', served[CountAt(st, e) % |served|], cfg)
  {
    assert OffLocalOk(OffLocal(st.pk, st.fl, st.offs[e]), e, cfg);
  }

  lemma CountNext(states: seq<State>, evs: seq<Event>, i: nat, j: nat, m: nat, e: nat, served: seq<nat>, cfg: Config)
    requires Steady(states, evs, i, j, e, served, cfg) && i <= m < j
    ensures var c := CountAt(states[m], e);
            && c < TWO32
            && CountAt(states[m + 1], e) == (if IsPoll(evs[m], e) then Counted(c, 1) else c)
            && (IsPoll(evs[m], e) ==> Polled(states[m], states[m + 1], served[c % |served|], cfg))
  {
    RunStep(states, evs, m, cfg);
    PollStep(states[m], evs[m], states[m + 1], e, served, cfg);
  }

  lemma CountInRange(states: seq<State>, evs: seq<Event>, i: nat, e: nat, cfg: Config)
    requires IsRun(states, evs, cfg) && i <= |evs| && e < cfg.e
    ensures CountAt(states[i], e) < TWO32
  {
    RunInv(states, evs, i, cfg);
    assert OffLocalOk(OffLocal(states[i].pk, states[i].fl, states[i].offs[e]), e, cfg);
  }

  lemma {:induction false} CountAfter(states: seq<State>, evs: seq<Event>, i: nat, j: nat, m: nat, e: nat,
                                      served: seq<nat>, cfg: Config)
    requires Steady(states, evs, i, j, e, served, cfg) && i <= m <= j
    ensures CountAt(states[m], e) == Counted(CountAt(states[i], e), PollsBefore(evs, i, m, e))
    decreases m
  {
    if m == i {
      CountInRange(states, evs, i, e, cfg);
      CountedNone(CountAt(states[i], e));
    } else {
      CountAfter(states, evs, i, j, m - 1, e, served, cfg);
      CountNext(states, evs, i, j, m - 1, e, served, cfg);
      CountedMore(CountAt(states[i], e), PollsBefore(evs, i, m - 1, e));
    }
  }

  /** The k-th poll. */
  lemma {:induction false} NthPoll(evs: seq<Event>, i: nat, j: nat, e: nat, k: nat) returns (m: nat)
    requires i <= j <= |evs| && k < PollsBefore(evs, i, j, e)
    ensures i <= m < j && IsPoll(evs[m], e) && PollsBefore(evs, i, m, e) == k
    decreases j
  {
    if k < PollsBefore(evs, i, j - 1, e) {
      m := NthPoll(evs, i, j - 1, e, k);
    } else {
      m := j - 1;
    }
  }

  lemma {:induction false} PollsGrow(evs: seq<Event>, i: nat, m: nat, j: nat, e: nat)
    requires i <= m < j <= |evs| && IsPoll(evs[m], e)
    ensures PollsBefore(evs, i, m, e) < PollsBefore(evs, i, j, e)
    decreases j
  {
    if m + 1 < j {
      PollsGrow(evs, i, m, j - 1, e);
    }
  }

  /** The place in a list of `n` rings that core `e` polls in this state. */
  function PlaceAt(st: State, e: nat, n: nat): nat
    requires 0 < n
  {
    CountAt(st, e) % n
  }

  lemma PlaceIsPick(states: seq<State>, evs: seq<Event>, i: nat, j: nat, m: nat, e: nat, served: seq<nat>, cfg: Config)
    requires Steady(states, evs, i, j, e, served, cfg) && i <= m <= j
    ensures PlaceAt(states[m], e, |served|) == Pick(CountAt(states[i], e), PollsBefore(evs, i, m, e), |served|)
  {
    CountAfter(states, evs, i, j, m, e, served, cfg);
  }

  /** Both steps are polls of core `e`. */
  predicate BothPoll(evs: seq<Event>, m: nat, m': nat, e: nat) {
    m < |evs| && m' < |evs| && IsPoll(evs[m], e) && IsPoll(evs[m'], e)
  }

  /** No two polls of core `e` from step `i` to step `j` pick the same place. */
  ghost predicate NoneTwice(states: seq<State>, evs: seq<Event>, i: nat, j: nat, e: nat, n: nat)
    requires 0 < n && j <= |states|
  {
    forall m: nat, m': nat :: i <= m < m' < j && BothPoll(evs, m, m', e) ==>
      PlaceAt(states[m], e, n) != PlaceAt(states[m'], e, n)
  }

  lemma DistinctPlaces(states: seq<State>, evs: seq<Event>, i: nat, j: nat, m: nat, m': nat, e: nat, served: seq<nat>,
                       cfg: Config)
    requires Steady(states, evs, i, j, e, served, cfg) && PollsBefore(evs, i, j, e) == |served|
    requires i <= m < m' < j && BothPoll(evs, m, m', e) && Distinct(CountAt(states[i], e), |served|)
    ensures PlaceAt(states[m], e, |served|) != PlaceAt(states[m'], e, |served|)
  {
    PlaceIsPick(states, evs, i, j, m, e, served, cfg);
    PlaceIsPick(states, evs, i, j, m', e, served, cfg);
    PollsGrow(evs, i, m, m', e);
    PollsGrow(evs, i, m', j, e);
  }

  lemma SamePlace(states: seq<State>, evs: seq<Event>, i: nat, j: nat, a: nat, b: nat, e: nat, served: seq<nat>,
                  cfg: Config)
    returns (m: nat, m': nat)
    requires Steady(states, evs, i, j, e, served, cfg) && PollsBefore(evs, i, j, e) == |served|
    requires a < b < |served| && Pick(CountAt(states[i], e), a, |served|) == Pick(CountAt(states[i], e), b, |served|)
    ensures i <= m < m' < j && BothPoll(evs, m, m', e)
    ensures PlaceAt(states[m], e, |served|) == PlaceAt(states[m'], e, |served|)
  {
    m := NthPoll(evs, i, j, e, a);
    m' := NthPoll(evs, i, j, e, b);
    PlaceIsPick(states, evs, i, j, m, e, served, cfg);
    PlaceIsPick(states, evs, i, j, m', e, served, cfg);
    if m' < m {
      PollsGrow(evs, i, m', m, e);
    }
  }

  /** In a stretch of a run in which the list of core `e` stays the same and the core polls as
      often as the list is long, no place is polled twice exactly if the 32-bit counter does not
      wrap in between or the length divides 2^32. */
  lemma PollsDistinctIff(states: seq<State>, evs: seq<Event>, i: nat, j: nat, e: nat, served: seq<nat>, cfg: Config)
    requires Steady(states, evs, i, j, e, served, cfg) && PollsBefore(evs, i, j, e) == |served|
    ensures NoneTwice(states, evs, i, j, e, |served|) <==>
              CountAt(states[i], e) + |served| <= TWO32 || TWO32 % |served| == 0
  {
    var c, n := CountAt(states[i], e), |served|;
    CountInRange(states, evs, i, e, cfg);
    DistinctIff(c, n);
    if Distinct(c, n) {
      forall m: nat, m': nat | i <= m < m' < j && BothPoll(evs, m, m', e)
        ensures PlaceAt(states[m], e, n) != PlaceAt(states[m'], e, n)
      {
        DistinctPlaces(states, evs, i, j, m, m', e, served, cfg);
      }
    } else {
      var a: nat, b: nat :| a < b < n && Pick(c, a, n) == Pick(c, b, n);
      var m, m' := SamePlace(states, evs, i, j, a, b, e, served, cfg);
    }
  }

  /** Then every place of the list is polled once: in exactly one of the steps a burst of the
      ring at that place is emitted. */
  lemma PollsEachOnce(states: seq<State>, evs: seq<Event>, i: nat, j: nat, e: nat, served: seq<nat>, cfg: Config,
                      k: nat)
    returns (m: nat)
    requires Steady(states, evs, i, j, e, served, cfg) && PollsBefore(evs, i, j, e) == |served| && k < |served|
    requires CountAt(states[i], e) + |served| <= TWO32 || TWO32 % |served| == 0
    ensures i <= m < j && IsPoll(evs[m], e) && PlaceAt(states[m], e, |served|) == k
    ensures Polled(states[m], states[m + 1], served[k], cfg)
    ensures NoneTwice(states, evs, i, j, e, |served|)
  {
    var c, n := CountAt(states[i], e), |served|;
    var t := StepsTo(c, k, n);
    m := NthPoll(evs, i, j, e, t);
    PlaceIsPick(states, evs, i, j, m, e, served, cfg);
    CountNext(states, evs, i, j, m, e, served, cfg);
    RoundNear(c, t, n);
    PollsDistinctIff(states, evs, i, j, e, served, cfg);
  }
}
