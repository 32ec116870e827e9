/** The intrusion detector of dyids.cc: the generated scanner `lex` and the two
    circular logs it feeds.

    The scanner is a goto machine that remembers a restart point (YYMARKER) and
    whether it has already seen a complete signature (yyaccept).  It is modelled
    as a loop over its labels and proved against a one-line specification. */
module Ids {
  import opened Machine
  import opened Selection

  newtype byte = x: int | 0 <= x < 0x100

  const ENTRIES: nat := 1024

  // ---------------------------------------------------------------------
  // What the scanner is for

  /** `n` is the position of the first NUL of `b` at or after `from`. */
  ghost predicate FirstNul(b: seq<byte>, from: nat, n: nat) {
    from <= n < |b| && b[n] == 0 && forall k :: from <= k < n ==> b[k] != 0
  }

  /** The bytes 0x01 0x03 stand at position `i`. */
  ghost predicate PairAt(b: seq<byte>, i: nat, n: nat)
    requires n <= |b|
  {
    i + 1 < n && b[i] == 1 && b[i + 1] == 3
  }

  /** The byte 0x0b occurs in `b[lo..n]`. */
  ghost predicate TailIn(b: seq<byte>, lo: nat, n: nat)
    requires n <= |b|
  {
    exists j :: lo <= j < n && b[j] == 0x0b
  }

  /** A complete signature starts at `i`. */
  ghost predicate HitAt(b: seq<byte>, i: nat, n: nat)
    requires n <= |b|
  {
    PairAt(b, i, n) && TailIn(b, i + 2, n)
  }

  /** The signature: 0x01 0x03 and, at any later position, 0x0b. */
  ghost predicate Signature(b: seq<byte>, from: nat, n: nat)
    requires n <= |b|
  {
    exists i :: from <= i && HitAt(b, i, n)
  }

  /** It is enough to look at the first 0x01 0x03 pair. */
  lemma SignatureAtFirstPair(b: seq<byte>, from: nat, n: nat, first: nat)
    requires n <= |b| && from <= first && PairAt(b, first, n)
    requires forall i :: from <= i < first ==> !PairAt(b, i, n)
    ensures Signature(b, from, n) <==> TailIn(b, first + 2, n)
  {
    if Signature(b, from, n) {
      var i :| from <= i && HitAt(b, i, n);
      var j :| i + 2 <= j < n && b[j] == 0x0b;
      assert first <= i;
    } else {
      assert !HitAt(b, first, n);
    }
  }

  // ---------------------------------------------------------------------
  // The goto machine

  datatype Label = YY2 | YY4 | YY5 | YY6 | YY7 | YY8 | YY9 | YY10 | YY12 | YY13 | YY15

  /** Number of byte reads that the attempts started at positions from..p-1 may
      make when each attempt reads every position up to `n` at most once. */
  ghost function ReadsBefore(from: nat, p: nat, n: nat): nat
    requires from <= p <= n + 1
    decreases p
  {
    if p == from then 0 else ReadsBefore(from, p - 1, n) + (n + 1 - (p - 1))
  }

  lemma {:induction false} ReadsBeforeClosed(from: nat, p: nat, n: nat)
    requires from <= p <= n + 1
    ensures 2 * ReadsBefore(from, p, n) == (p - from) * (2 * (n + 1) - from - p + 1)
    decreases p
  {
    if p != from {
      ReadsBeforeClosed(from, p - 1, n);
      var m, q := 2 * (n + 1) - from + 1, p - 1;
      assert (p - from) * (m - p) == (q - from) * (m - q) + 2 * (n + 1 - q) by {
        assert (q + 1 - from) * (m - q - 1) == (q - from) * (m - q) - (q - from) + (m - q) - 1;
      }
    }
  }

  /** Inside one attempt these labels never repeat. */
  ghost function Stage(l: Label): nat {
    match l
    case YY4 | YY6 => 5
    case YY7 | YY9 => 4
    case YY12 => 3
    case YY10 | YY13 => 2
    case YY8 => 1
    case YY2 | YY5 | YY15 => 0
  }

  /** What is known when the attempt started at `p` is about to execute one of the
      labels that read forward without looping, or one of the exits. */
  ghost predicate AtLabel(b: seq<byte>, n: nat, p: nat, l: Label, cursor: nat, marker: nat, accept: bool, pair: nat)
    requires p <= n < |b|
  {
    match l
    case YY2 => cursor == p == n
    case YY4 => cursor == p < n && b[p] == 1
    case YY6 => cursor == p < n && b[p] != 1
    case YY5 => cursor == marker == p + 1 <= n && !HitAt(b, p, n)
    case YY7 => marker == cursor == p + 1 < n && b[cursor] == 1
    case YY9 => marker == cursor == p + 1 < n && b[cursor] != 1 && !PairAt(b, p, n)
    case YY12 => marker == p + 1 && cursor == p + 2 < n && b[cursor] == 1 && !PairAt(b, p, n)
    case YY10 => marker == p + 1 && Pending(b, p, n, pair, cursor)
    case YY13 => false
    case YY8 => if accept then p <= pair && HitAt(b, pair, n) else marker == p + 1 <= n && !HitAt(b, p, n)
    case YY15 => p <= pair && HitAt(b, pair, n)
  }

  /** A pair at `i`, within the reach of the attempt at `p`, has been followed by
      no 0x0b up to the cursor. */
  ghost predicate Pending(b: seq<byte>, p: nat, n: nat, i: nat, cursor: nat)
    requires n <= |b|
  {
    && p <= i <= p + 2 && PairAt(b, i, n) && i < cursor < n
    && forall k :: i + 2 <= k <= cursor ==> b[k] != 0x0b
  }

  /** A pending pair that meets the NUL rules out a signature at the start of the attempt. */
  lemma PendingAtNul(b: seq<byte>, p: nat, n: nat, i: nat)
    requires n <= |b| && 0 < n && Pending(b, p, n, i, n - 1)
    ensures !HitAt(b, p, n)
  {
    forall j | p + 2 <= j < n ensures b[j] != 0x0b || !PairAt(b, p, n) {
    }
  }

  /** The loop of yy10 and yy13, entered at yy10 after a pair at `pair`: it runs to the
      NUL, remembering in yyaccept and the marker that a 0x0b has gone by.  It leaves
      through yy15, or through yy8 with yyaccept as returned. */
  method SeekTail(b: seq<byte>, ghost p: nat, start: nat, marker0: nat, ghost n: nat, ghost pair: nat)
    returns (label_: Label, marker: nat, yyaccept: bool, ghost readCount: nat)
    requires p <= n < |b| && b[n] == 0 && (forall k :: p <= k < n ==> b[k] != 0)
    requires Pending(b, p, n, pair, start)
    ensures label_ == YY8 || label_ == YY15
    ensures label_ == YY15 ==> yyaccept
    ensures yyaccept ==> HitAt(b, pair, n)
    ensures !yyaccept ==> marker == marker0 && Pending(b, p, n, pair, n - 1)
    ensures readCount <= n - start
  {
    var cursor := start;
    label_, marker, yyaccept, readCount := YY10, marker0, false, 0;
    while label_ != YY8 && label_ != YY15
      invariant start <= cursor <= n && readCount == cursor - start
      invariant label_ in [YY10, YY13] ==> cursor < n
      invariant label_ in [YY10, YY13, YY8, YY15]
      invariant label_ in [YY13, YY15] || yyaccept ==> HitAt(b, pair, n)
      invariant label_ == YY15 ==> yyaccept
      invariant label_ != YY13 && !yyaccept ==>
        marker == marker0 && Pending(b, p, n, pair, if label_ == YY10 then cursor else n - 1)
      decreases n - cursor
    {
      if label_ == YY10 {
        cursor, readCount := cursor + 1, readCount + 1;
        var yych := b[cursor];
        label_ := if yych == 0 then YY8 else if yych == 0x0b then YY13 else YY10;
      } else {
        yyaccept := true;
        cursor, readCount := cursor + 1, readCount + 1;
        marker := cursor;
        var yych := b[cursor];
        label_ := if yych == 0 then YY15 else if yych == 0x0b then YY13 else YY10;
      }
    }
  }

  datatype Outcome = Reject | Accept | Again

  /** The block under `first_group`, entered with the cursor at `p`.  It returns 0 at
      the NUL, returns 1 on a signature, or goes back to `first_group` one byte further.
      It reads each position from `p` to `n` at most once and nothing beyond. */
  method Attempt(b: seq<byte>, p: nat, ghost n: nat)
    returns (outcome: Outcome, next: nat, ghost readCount: nat)
    requires FirstNul(b, p, n)
    ensures outcome == Reject ==> p == n
    ensures outcome == Accept ==> Signature(b, p, n)
    ensures outcome == Again ==> next == p + 1 <= n && !HitAt(b, p, n)
    ensures readCount <= n + 1 - p
  {
    var cursor: nat, marker: nat, yyaccept := p, p, false;
    ghost var pair := p;          // the 0x01 0x03 pair found so far
    readCount := 1;
    var label_ := if b[cursor] == 0 then YY2 else if b[cursor] == 1 then YY4 else YY6;
    while label_ != YY2 && label_ != YY15 && label_ != YY5
      invariant AtLabel(b, n, p, label_, cursor, marker, yyaccept, pair)
      invariant label_ != YY8 && label_ != YY15 ==> !yyaccept
      invariant readCount <= n + 1 - p
      invariant Stage(label_) > 1 ==> readCount == cursor + 1 - p
      decreases Stage(label_)
    {
      match label_
      case YY4 =>
        yyaccept, cursor, pair, readCount := false, cursor + 1, p, readCount + 1;
        marker := cursor;
        var yych := b[cursor];
        label_ := if yych == 0 then YY5 else if yych == 1 then YY7 else if yych == 3 then YY10 else YY9;
      case YY6 =>
        yyaccept, cursor, readCount := false, cursor + 1, readCount + 1;
        marker := cursor;
        var yych := b[cursor];
        label_ := if yych == 0 then YY5 else if yych == 1 then YY7 else YY9;
      case YY7 =>
        cursor, pair, readCount := cursor + 1, p + 1, readCount + 1;
        var yych := b[cursor];
        label_ := if yych == 1 then YY12 else if yych == 3 then YY10 else YY8;
      case YY9 =>
        cursor, readCount := cursor + 1, readCount + 1;
        var yych := b[cursor];
        label_ := if yych == 1 then YY12 else YY8;
      case YY12 =>
        cursor, pair, readCount := cursor + 1, p + 2, readCount + 1;
        var yych := b[cursor];
        label_ := if yych == 3 then YY10 else YY8;
      case YY10 =>
        ghost var r;
        label_, marker, yyaccept, r := SeekTail(b, p, cursor, marker, n, pair);
        readCount := readCount + r;
        if !yyaccept {
          PendingAtNul(b, p, n, pair);
        }
      case YY8 =>
        cursor := marker;
        label_ := if !yyaccept then YY5 else YY15;
    }
    next := cursor;
    outcome := if label_ == YY2 then Reject else if label_ == YY15 then Accept else Again;
  }

  /** `DyIDS::lex` started at position `from` of memory `b`.  Reading past the NUL
      would be undefined, so a NUL must follow; nothing else is asked of the caller.
      `ret` decides the signature, and the machine stops after at most (m+1)(m+2)/2
      reads for m bytes before the NUL. */
  method Lex(b: seq<byte>, from: nat, ghost n: nat) returns (ret: nat, ghost readCount: nat)
    requires FirstNul(b, from, n)
    ensures ret == if Signature(b, from, n) then 1 else 0
    ensures 2 * readCount <= (n - from + 1) * (n - from + 2)
  {
    var p := from;
    readCount := 0;
    while true
      invariant from <= p <= n
      invariant forall i :: from <= i < p ==> !HitAt(b, i, n)
      invariant readCount <= ReadsBefore(from, p, n)
      decreases n - p
    {
      var outcome, next, r := Attempt(b, p, n);
      readCount := readCount + r;
      if outcome != Again {
        ReadsTotal(from, p, n);
        return if outcome == Reject then 0 else 1, readCount;
      }
      p := next;
    }
  }

  /** However far the attempts got, their reads fit in the triangle of all attempts. */
  lemma {:induction false} ReadsTotal(from: nat, p: nat, n: nat)
    requires from <= p <= n
    ensures 2 * (ReadsBefore(from, p, n) + (n + 1 - p)) <= (n - from + 1) * (n - from + 2)
    decreases n - p
  {
    assert ReadsBefore(from, p + 1, n) == ReadsBefore(from, p, n) + (n + 1 - p);
    if p < n {
      ReadsTotal(from, p + 1, n);
    } else {
      ReadsBeforeClosed(from, n + 1, n);
    }
  }

  // ---------------------------------------------------------------------
  // The circular logs

  /** A packet: the memory it lies in, where its TCP payload starts, its sequence number. */
  datatype Packet = Packet(mem: seq<byte>, payload: nat, seqNo: nat)

  /** The bytes the scanner is run on, for an element configured with `offset`. */
  ghost function Scanned(p: Packet, offset: nat): seq<byte> {
    if p.payload + offset <= |p.mem| then p.mem[p.payload + offset..] else []
  }

  /** The scanner may be run on `b`: a NUL follows its start. */
  ghost predicate Scannable(b: seq<byte>) {
    exists n: nat :: FirstNul(b, 0, n)
  }

  /** `b` holds a signature before its first NUL. */
  ghost predicate Matches(b: seq<byte>) {
    exists n: nat :: FirstNul(b, 0, n) && Signature(b, 0, n)
  }

  /** `log` followed by the sequence numbers of the packets of `batch` that match
      (or that do not), in order. */
  ghost function Logged(log: seq<nat>, batch: seq<Packet>, offset: nat, hit: bool): seq<nat> {
    if batch == [] then log
    else
      var last := batch[|batch| - 1];
      var earlier := Logged(log, batch[..|batch| - 1], offset, hit);
      if Matches(Scanned(last, offset)) == hit then earlier + [last.seqNo] else earlier
  }

  lemma LoggedSnoc(log: seq<nat>, batch: seq<Packet>, i: nat, offset: nat, hit: bool)
    requires i < |batch|
    ensures Logged(log, batch[..i + 1], offset, hit)
         == Logged(Logged(log, batch[..i], offset, hit), [batch[i]], offset, hit)
  {
    assert batch[..i + 1][..i] == batch[..i];
    assert [batch[i]][..0] == [];
  }

  /** Every packet ends up in exactly one of the two logs. */
  lemma {:induction false} LoggedOnce(log: seq<nat>, other: seq<nat>, batch: seq<Packet>, offset: nat)
    ensures |Logged(log, batch, offset, true)| + |Logged(other, batch, offset, false)| == |log| + |other| + |batch|
  {
    if batch != [] {
      LoggedOnce(log, other, batch[..|batch| - 1], offset);
    }
  }

  /** `slots` with the 32-bit counter `count` is a circular log of `log`: every one of
      the last 1024 entries is in the slot its position maps to. */
  ghost predicate Logs(slots: seq<nat>, count: nat, log: seq<nat>) {
    && |slots| == ENTRIES
    && count == |log| % TWO32
    && forall i {:trigger log[i]} :: 0 <= i < |log| && |log| - ENTRIES <= i ==> slots[i % ENTRIES] == log[i]
  }

  /** The counter may wrap: 1024 divides 2^32, so it still names the next slot. */
  lemma CounterNamesSlot(n: nat)
    ensures (n % TWO32) % ENTRIES == n % ENTRIES
  {
    assert n == TWO32 * (n / TWO32) + n % TWO32;
    assert TWO32 == ENTRIES * 0x40_0000;
  }

  /** Writing one entry at the counter's slot and bumping the counter keeps the log. */
  lemma LogsAppend(slots: seq<nat>, count: nat, log: seq<nat>, x: nat)
    requires Logs(slots, count, log)
    ensures Logs(slots[count % ENTRIES := x], (count + 1) % TWO32, log + [x])
  {
    CounterNamesSlot(|log|);
    var slots', log' := slots[count % ENTRIES := x], log + [x];
    forall i {:trigger log'[i]} | 0 <= i < |log'| && |log'| - ENTRIES <= i
      ensures slots'[i % ENTRIES] == log'[i]
    {
      if i < |log| {
        assert log'[i] == log[i];
        SlotsDiffer(i, |log|);
      }
    }
    assert (count + 1) % TWO32 == (|log| + 1) % TWO32;
  }

  lemma SlotsDiffer(i: nat, n: nat)
    requires i < n < i + ENTRIES
    ensures i % ENTRIES != n % ENTRIES
  {
  }

  /** Reading the slots back from the counter's position gives exactly the most recent
      1024 sequence numbers, oldest first. */
  lemma ReadBack(slots: seq<nat>, count: nat, log: seq<nat>)
    requires Logs(slots, count, log) && ENTRIES <= |log|
    ensures slots[count % ENTRIES..] + slots[..count % ENTRIES] == log[|log| - ENTRIES..]
  {
    CounterNamesSlot(|log|);
    var c, base := |log| % ENTRIES, |log| - ENTRIES;
    var window := slots[c..] + slots[..c];
    forall k | 0 <= k < ENTRIES ensures window[k] == log[base..][k] {
      assert log[base..][k] == log[base + k] == slots[(base + k) % ENTRIES];
      SlotOf(|log|, k);
    }
  }

  lemma SlotOf(n: nat, k: nat)
    requires ENTRIES <= n && k < ENTRIES
    ensures (n - ENTRIES + k) % ENTRIES ==
              if n % ENTRIES + k < ENTRIES then n % ENTRIES + k else n % ENTRIES + k - ENTRIES
  {
  }

  /** Before the slots first wrap, they hold the whole log. */
  lemma ReadBackShort(slots: seq<nat>, count: nat, log: seq<nat>)
    requires Logs(slots, count, log) && |log| < ENTRIES
    ensures count == |log| && slots[..count] == log
  {
    forall i | 0 <= i < |log| ensures slots[i] == log[i] {
      assert log[i] == slots[i % ENTRIES];
    }
  }

  /** The scanner does not depend on what precedes its start. */
  lemma SignatureFrom(b: seq<byte>, from: nat, n: nat)
    requires FirstNul(b, from, n)
    ensures FirstNul(b[from..], 0, n - from)
    ensures Matches(b[from..]) <==> Signature(b, from, n)
  {
    var c, m := b[from..], n - from;
    assert forall k :: 0 <= k <= m ==> c[k] == b[k + from];
    assert FirstNul(c, 0, m);
    if Signature(b, from, n) {
      var i :| from <= i && HitAt(b, i, n);
      var j :| i + 2 <= j < n && b[j] == 0x0b;
      assert c[j - from] == 0x0b;
      assert HitAt(c, i - from, m);
    }
    if Matches(c) {
      var k: nat :| FirstNul(c, 0, k) && Signature(c, 0, k);
      assert !(k < m) && !(m < k);
      var i :| 0 <= i && HitAt(c, i, m);
      var j :| i + 2 <= j < m && c[j] == 0x0b;
      assert b[j + from] == 0x0b;
      assert HitAt(b, i + from, n);
    }
  }

  /** The per-flow state of the detector (IDSState). */
  class IdsState {
    var found: nat
    var notFound: nat
    const matched: array<nat>
    const unmatched: array<nat>
    ghost var hits: seq<nat>
    ghost var misses: seq<nat>

    ghost predicate Valid()
      reads this, matched, unmatched
    {
      && matched != unmatched
      && Logs(matched[..], found, hits)
      && Logs(unmatched[..], notFound, misses)
    }

    ghost function Repr(): set<object> {
      {this, matched, unmatched}
    }

    constructor ()
      ensures Valid() && fresh(Repr())
      ensures hits == [] && misses == []
    {
      found, notFound := 0, 0;
      matched, unmatched := new nat[ENTRIES], new nat[ENTRIES];
      hits, misses := [], [];
    }

    /** `DyIDS::UpdateState`: scan the payload and log the sequence number. */
    method Update(p: Packet, offset: nat)
      requires Valid() && Scannable(Scanned(p, offset))
      modifies this, matched, unmatched
      ensures Valid()
      ensures hits == Logged(old(hits), [p], offset, true)
      ensures misses == Logged(old(misses), [p], offset, false)
      ensures forall from: nat, n: nat :: from == p.payload + offset && FirstNul(p.mem, from, n) ==>
                if Signature(p.mem, from, n) then hits == old(hits) + [p.seqNo] && misses == old(misses)
                else hits == old(hits) && misses == old(misses) + [p.seqNo]
    {
      var ret := Scan(p, offset);
      if ret != 0 {
        LogsAppend(matched[..], found, hits, p.seqNo);
        matched[found % ENTRIES] := p.seqNo;
        found := (found + 1) % TWO32;
        hits := hits + [p.seqNo];
      } else {
        LogsAppend(unmatched[..], notFound, misses, p.seqNo);
        unmatched[notFound % ENTRIES] := p.seqNo;
        notFound := (notFound + 1) % TWO32;
        misses := misses + [p.seqNo];
      }
    }
  }

  lemma NulFrom(p: Packet, offset: nat, n: nat)
    requires FirstNul(Scanned(p, offset), 0, n)
    ensures FirstNul(p.mem, p.payload + offset, p.payload + offset + n)
    ensures forall from: nat, m: nat :: from == p.payload + offset && FirstNul(p.mem, from, m) ==> m == from + n
  {
    var start := p.payload + offset;
    forall k | start <= k < start + n ensures p.mem[k] != 0 {
      assert Scanned(p, offset)[k - start] != 0;
    }
    assert p.mem[start + n] == 0;
  }

  /** A packet matches if the bytes from where it is scanned up to the first NUL hold the
      signature. */
  lemma MatchesIs(p: Packet, offset: nat, n: nat)
    requires FirstNul(p.mem, p.payload + offset, n)
    ensures Matches(Scanned(p, offset)) <==> Signature(p.mem, p.payload + offset, n)
  {
    SignatureFrom(p.mem, p.payload + offset, n);
  }

  function Numbers(batch: seq<Packet>): (numbers: seq<nat>)
    ensures |numbers| == |batch| && forall i :: 0 <= i < |batch| ==> numbers[i] == batch[i].seqNo
  {
    seq(|batch|, i requires 0 <= i < |batch| => batch[i].seqNo)
  }

  /** What a batch adds to a log keeps its order: the sequence numbers of exactly the packets
      that belong there. */
  lemma {:induction false} LoggedInOrder(log: seq<nat>, batch: seq<Packet>, offset: nat, hit: bool)
    returns (added: seq<nat>, at: seq<nat>)
    ensures Logged(log, batch, offset, hit) == log + added && Places(Numbers(batch), added, at)
    ensures forall i: nat, from: nat, n: nat ::
              i < |batch| && from == batch[i].payload + offset && FirstNul(batch[i].mem, from, n) ==>
                (i in at <==> Signature(batch[i].mem, from, n) == hit)
  {
    if batch == [] {
      added, at := [], [];
    } else {
      var init, last := batch[..|batch| - 1], batch[|batch| - 1];
      var before, places := LoggedInOrder(log, init, offset, hit);
      assert Numbers(batch) == Numbers(init) + [last.seqNo];
      if Matches(Scanned(last, offset)) == hit {
        PlacesTaken(Numbers(init), before, places, last.seqNo);
        added, at := before + [last.seqNo], places + [|init|];
        assert log + added == (log + before) + [last.seqNo];
      } else {
        PlacesLeft(Numbers(init), before, places, last.seqNo);
        added, at := before, places;
      }
      forall i: nat, from: nat, n: nat
        | i < |batch| && from == batch[i].payload + offset && FirstNul(batch[i].mem, from, n)
        ensures i in at <==> Signature(batch[i].mem, from, n) == hit
      {
        if i < |init| {
          assert batch[i] == init[i];
        } else {
          assert batch[i] == last;
          assert |init| !in places by {
            assert forall k :: 0 <= k < |places| ==> places[k] < |init|;
          }
          MatchesIs(last, offset, n);
        }
      }
    }
  }

  /** The call of the scanner on a packet. */
  method Scan(p: Packet, offset: nat) returns (ret: nat)
    requires Scannable(Scanned(p, offset))
    ensures ret != 0 <==> Matches(Scanned(p, offset))
    ensures forall from: nat, n: nat :: from == p.payload + offset && FirstNul(p.mem, from, n) ==>
              (ret != 0 <==> Signature(p.mem, from, n))
  {
    var start := p.payload + offset;
    ghost var n: nat :| FirstNul(Scanned(p, offset), 0, n);
    NulFrom(p, offset, n);
    SignatureFrom(p.mem, start, start + n);
    ghost var readCount;
    ret, readCount := Lex(p.mem, start, start + n);
  }

  /** The element, seen from one flow: `state` is the flow's slot in `global_state`,
      null until the flow's first packet. */
  class DyIds {
    const offset: nat
    var state: IdsState?

    constructor (offset: nat)
      ensures Valid() && this.offset == offset && Log(true) == Log(false) == []
    {
      this.offset := offset;
      state := null;
    }

    ghost function Objects(): set<object>
      reads this
    {
      if state == null then {} else state.Repr()
    }

    ghost predicate Valid()
      reads this, Objects()
    {
      state != null ==> state.Valid()
    }

    ghost function Log(hit: bool): seq<nat>
      reads this, Objects()
    {
      if state == null then [] else if hit then state.hits else state.misses
    }

    method SimpleAction(p: Packet)
      requires Valid() && Scannable(Scanned(p, offset))
      modifies this, Objects()
      ensures Valid() && state != null && fresh(Objects() - old(Objects()))
      ensures Log(true) == Logged(old(Log(true)), [p], offset, true)
      ensures Log(false) == Logged(old(Log(false)), [p], offset, false)
      ensures forall from: nat, n: nat :: from == p.payload + offset && FirstNul(p.mem, from, n) ==>
                if Signature(p.mem, from, n)
                then Log(true) == old(Log(true)) + [p.seqNo] && Log(false) == old(Log(false))
                else Log(true) == old(Log(true)) && Log(false) == old(Log(false)) + [p.seqNo]
    {
      if state == null {
        state := new IdsState();
      }
      state.Update(p, offset);
    }

    /** Any packets of the flow, over any number of batches: the logs have grown by
        exactly these packets, split by the signature, in the order they came; `Valid`
        and `ReadBack` then say what the arrays hold. */
    method PushBatch(batch: seq<Packet>)
      returns (ghost found: seq<nat>, ghost missed: seq<nat>, ghost foundAt: seq<nat>, ghost missedAt: seq<nat>)
      requires Valid() && forall i :: 0 <= i < |batch| ==> Scannable(Scanned(batch[i], offset))
      modifies this, Objects()
      ensures Valid() && fresh(Objects() - old(Objects()))
      ensures Log(true) == Logged(old(Log(true)), batch, offset, true)
      ensures Log(false) == Logged(old(Log(false)), batch, offset, false)
      ensures Log(true) == old(Log(true)) + found && Log(false) == old(Log(false)) + missed
      ensures Places(Numbers(batch), found, foundAt) && Places(Numbers(batch), missed, missedAt)
      ensures forall i: nat, from: nat, n: nat ::
                i < |batch| && from == batch[i].payload + offset && FirstNul(batch[i].mem, from, n) ==>
                  if Signature(batch[i].mem, from, n) then i in foundAt && i !in missedAt
                  else i !in foundAt && i in missedAt
    {
      ghost var hits0, misses0 := Log(true), Log(false);
      LogAll(batch);
      found, foundAt := LoggedInOrder(hits0, batch, offset, true);
      missed, missedAt := LoggedInOrder(misses0, batch, offset, false);
    }

    /** The loop. */
    method LogAll(batch: seq<Packet>)
      requires Valid() && forall i :: 0 <= i < |batch| ==> Scannable(Scanned(batch[i], offset))
      modifies this, Objects()
      ensures Valid() && fresh(Objects() - old(Objects()))
      ensures Log(true) == Logged(old(Log(true)), batch, offset, true)
      ensures Log(false) == Logged(old(Log(false)), batch, offset, false)
    {
      ghost var hits0, misses0 := Log(true), Log(false);
      for i := 0 to |batch|
        invariant Valid() && fresh(Objects() - old(Objects()))
        invariant Log(true) == Logged(hits0, batch[..i], offset, true)
        invariant Log(false) == Logged(misses0, batch[..i], offset, false)
      {
        SimpleAction(batch[i]);
        LoggedSnoc(hits0, batch, i, offset, true);
        LoggedSnoc(misses0, batch, i, offset, false);
      }
      assert batch[..|batch|] == batch;
    }
  }
}
