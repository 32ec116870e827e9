/** The optimisation problem of solver.cpp (`short_solver`): its constraints as a predicate
    over candidate points, and its objective.  The optimiser is an oracle: all that is
    used of an answer is that it satisfies the constraints. */
module ShortSolver {

  /** A table of 0/1 cells: m[row][column]. */
  type Matrix = seq<seq<nat>>

  function Cell(m: Matrix, i: int, j: int): nat {
    if 0 <= i < |m| && 0 <= j < |m[i]| then m[i][j] else 0
  }

  ghost predicate Shape(m: Matrix, rows: nat, cols: nat) {
    |m| == rows && forall i :: 0 <= i < rows ==> |m[i]| == cols
  }

  ghost predicate Binary(m: Matrix) {
    forall i, j :: 0 <= i < |m| && 0 <= j < |m[i]| ==> m[i][j] == 0 || m[i][j] == 1
  }

  // ---------------------------------------------------------------------
  // Lines of a matrix

  datatype Line = Row(m: Matrix, i: nat) | Col(m: Matrix, j: nat) {
    function At(k: int): nat {
      match this
      case Row(m, i) => Cell(m, i, k)
      case Col(m, j) => Cell(m, k, j)
    }
  }

  function Total(l: Line, n: nat): nat {
    if n == 0 then 0 else Total(l, n - 1) + l.At(n - 1)
  }

  /** The sum of l[lo..n]. */
  function TotalFrom(l: Line, lo: nat, n: nat): nat {
    if n <= lo then 0 else TotalFrom(l, lo, n - 1) + l.At(n - 1)
  }

  function Abs(x: int): nat {
    if x < 0 then -x else x
  }

  /** The number of units by which two lines differ in their first `n` cells. */
  function Distance(l: Line, l': Line, n: nat): nat {
    if n == 0 then 0 else Distance(l, l', n - 1) + Abs(l.At(n - 1) - l'.At(n - 1))
  }

  /** The line holds 1 at `h` and 0 elsewhere. */
  ghost predicate Hot(l: Line, n: nat, h: nat) {
    h < n && l.At(h) == 1 && forall k :: 0 <= k < n && k != h ==> l.At(k) == 0
  }

  /** The line is one-hot and its 1 is among its first `w` cells. */
  ghost predicate HotBelow(l: Line, n: nat, w: nat) {
    exists h: nat :: h < w && Hot(l, n, h)
  }

  ghost predicate Blank(l: Line, n: nat) {
    forall k :: 0 <= k < n ==> l.At(k) == 0
  }

  lemma {:induction false} TotalZero(l: Line, n: nat)
    ensures Total(l, n) == 0 <==> Blank(l, n)
  {
    if n != 0 {
      TotalZero(l, n - 1);
    }
  }

  lemma {:induction false} TotalFromZero(l: Line, lo: nat, n: nat)
    ensures TotalFrom(l, lo, n) == 0 <==> forall k :: lo <= k < n ==> l.At(k) == 0
  {
    if lo < n {
      TotalFromZero(l, lo, n - 1);
    }
  }

  /** A line of 0/1 cells that sums to 1 is one-hot. */
  lemma {:induction false} HotFromTotal(l: Line, n: nat) returns (h: nat)
    requires (forall k :: 0 <= k < n ==> l.At(k) <= 1) && Total(l, n) == 1
    ensures Hot(l, n, h)
  {
    if l.At(n - 1) == 1 {
      h := n - 1;
      TotalZero(l, n - 1);
    } else {
      h := HotFromTotal(l, n - 1);
    }
  }

  lemma {:induction false} DistanceZero(l: Line, l': Line, n: nat)
    ensures Distance(l, l', n) == 0 <==> forall k :: 0 <= k < n ==> l.At(k) == l'.At(k)
  {
    if n != 0 {
      DistanceZero(l, l', n - 1);
    }
  }

  lemma {:induction false} DistanceToBlank(l: Line, l': Line, n: nat, h: nat)
    requires Hot(l, n, h) && Blank(l', n)
    ensures Distance(l, l', n) == Distance(l', l, n) == 1
  {
    if h == n - 1 {
      DistanceZero(l, l', n - 1);
      DistanceZero(l', l, n - 1);
    } else {
      DistanceToBlank(l, l', n - 1, h);
    }
  }

  /** Two one-hot lines differ in no cell or in exactly two. */
  lemma {:induction false} HotDistance(l: Line, l': Line, n: nat, h: nat, h': nat)
    requires Hot(l, n, h) && Hot(l', n, h')
    ensures Distance(l, l', n) == if h == h' then 0 else 2
    decreases n
  {
    if h < n - 1 && h' < n - 1 {
      HotDistance(l, l', n - 1, h, h');
    } else if h < n - 1 {
      DistanceToBlank(l, l', n - 1, h);
    } else if h' < n - 1 {
      DistanceToBlank(l', l, n - 1, h');
    } else {
      DistanceZero(l, l', n - 1);
    }
  }

  // ---------------------------------------------------------------------
  // Cost of moving from one matrix to another

  /** Over all cells, row by row: what the objective adds up for one matrix. */
  function Cost(m: Matrix, m': Matrix, rows: nat, cols: nat): nat {
    if rows == 0 then 0 else Cost(m, m', rows - 1, cols) + Distance(Row(m, rows - 1), Row(m', rows - 1), cols)
  }

  function CostByColumns(m: Matrix, m': Matrix, rows: nat, cols: nat): nat {
    if cols == 0 then 0 else CostByColumns(m, m', rows, cols - 1) + Distance(Col(m, cols - 1), Col(m', cols - 1), rows)
  }

  lemma {:induction false} CostEitherWay(m: Matrix, m': Matrix, rows: nat, cols: nat)
    ensures Cost(m, m', rows, cols) == CostByColumns(m, m', rows, cols)
  {
    if rows == 0 {
      NoRows(m, m', cols);
    } else {
      CostEitherWay(m, m', rows - 1, cols);
      OneMoreRow(m, m', rows, cols);
    }
  }

  lemma {:induction false} NoRows(m: Matrix, m': Matrix, cols: nat)
    ensures CostByColumns(m, m', 0, cols) == 0
  {
    if cols != 0 {
      NoRows(m, m', cols - 1);
    }
  }

  lemma {:induction false} OneMoreRow(m: Matrix, m': Matrix, rows: nat, cols: nat)
    requires 0 < rows
    ensures CostByColumns(m, m', rows, cols)
         == CostByColumns(m, m', rows - 1, cols) + Distance(Row(m, rows - 1), Row(m', rows - 1), cols)
  {
    if cols != 0 {
      OneMoreRow(m, m', rows, cols - 1);
    }
  }

  /** The objective as solver.cpp builds it: one absolute difference per cell of A and of O. */
  method Objective(a: Matrix, aOld: Matrix, o: Matrix, oOld: Matrix, shards: nat, cores: nat) returns (obj: nat)
    requires Shape(a, shards, cores) && Shape(aOld, shards, cores)
    requires Shape(o, cores, cores) && Shape(oOld, cores, cores)
    ensures obj == Cost(a, aOld, shards, cores) + Cost(o, oOld, cores, cores)
  {
    obj := 0;
    for s := 0 to shards
      invariant obj == Cost(a, aOld, s, cores)
    {
      for i := 0 to cores
        invariant obj == Cost(a, aOld, s, cores) + Distance(Row(a, s), Row(aOld, s), i)
      {
        obj := obj + Abs(a[s][i] as int - aOld[s][i] as int);
      }
    }
    for j := 0 to cores
      invariant obj == Cost(a, aOld, shards, cores) + Cost(o, oOld, j, cores)
    {
      for i := 0 to cores
        invariant obj == Cost(a, aOld, shards, cores) + Cost(o, oOld, j, cores) + Distance(Row(o, j), Row(oOld, j), i)
      {
        obj := obj + Abs(o[j][i] as int - oOld[j][i] as int);
      }
    }
  }

  // ---------------------------------------------------------------------
  // The constraints

  /** Constraints on A: every shard has one core, it is a working core, every working
      core has a shard, and cores are loaded in non-increasing shard counts. */
  ghost predicate AssignmentOk(a: Matrix, shards: nat, w: nat, cores: nat) {
    && Shape(a, shards, cores) && Binary(a)
    && (forall s :: 0 <= s < shards ==> Total(Row(a, s), cores) == 1)
    && (forall i :: 0 <= i < w ==> 1 <= Total(Col(a, i), shards))
    && (forall i :: w <= i < cores ==> Total(Col(a, i), shards) == 0)
    && (forall i :: 0 <= i < cores - 1 ==> Total(Col(a, i + 1), shards) <= Total(Col(a, i), shards))
  }

  /** Constraints on O, with O[j][i] telling that offloader j serves working core i. */
  ghost predicate OffloadingOk(o: Matrix, w: nat, e: nat, cores: nat) {
    && Shape(o, cores, cores) && Binary(o)
    && if e == 0 then forall i :: 0 <= i < cores ==> Total(Col(o, i), cores) == 0
       else
         && (forall i :: 0 <= i < w ==> TotalFrom(Col(o, i), 0, e) == 1 && TotalFrom(Col(o, i), e, cores) == 0)
         && (forall i :: w <= i < cores ==> Total(Col(o, i), cores) == 0)
         && (forall j :: 0 <= j < e ==> 1 <= Total(Row(o, j), cores))
  }

  /** The data of one problem.  `kw` and `ke` are the constant factors of the waiting
      times, ((Ca^2 + Cs^2) / 2) * T of the working and of the offloading side. */
  datatype Problem = Problem(w: nat, e: nat, shards: nat, v: seq<real>, kw: real, ke: real, sloP: real, sloR: real) {
    function Cores(): nat {
      w + e
    }
  }

  datatype Point = Point(a: Matrix, o: Matrix, r: seq<real>,
                         loadW: seq<real>, loadE: seq<real>, loadWE: seq<real>,
                         varsW: seq<real>, varsE: seq<real>)

  const LOAD_CAP: real := 0.9

  /** Of the volume of the first `n` shards, what core `i` keeps and what it offloads. */
  function Kept(p: Problem, x: Point, i: nat, n: nat): real
    requires n <= |p.v| && n <= |x.r|
  {
    if n == 0 then 0.0
    else Kept(p, x, i, n - 1) + Cell(x.a, n - 1, i) as real * p.v[n - 1] * (1.0 - x.r[n - 1])
  }

  function Offloaded(p: Problem, x: Point, i: nat, n: nat): real
    requires n <= |p.v| && n <= |x.r|
  {
    if n == 0 then 0.0
    else Offloaded(p, x, i, n - 1) + Cell(x.a, n - 1, i) as real * p.v[n - 1] * x.r[n - 1]
  }

  ghost predicate Sizes(p: Problem, x: Point) {
    && |p.v| == p.shards && |x.r| == p.shards
    && |x.loadW| == p.Cores() && |x.loadE| == p.Cores() && |x.loadWE| == p.Cores()
    && |x.varsW| == p.Cores() && |x.varsE| == p.Cores()
  }

  /** The M/G/1-style waiting constraint of one core. */
  ghost predicate Queue(load: real, vars: real, k: real, slo: real) {
    && 0.0 <= load <= LOAD_CAP && 0.0 <= vars
    && vars * (1.0 - load) == load
    && vars * k <= slo
  }

  /** A point the optimiser may return.  The offloaded load carries the factor SCALE, a
      32-bit unsigned variable that is 0, so it vanishes. */
  ghost predicate Feasible(p: Problem, x: Point) {
    && Sizes(p, x)
    && AssignmentOk(x.a, p.shards, p.w, p.Cores())
    && OffloadingOk(x.o, p.w, p.e, p.Cores())
    && (forall s :: 0 <= s < p.shards ==> 0.0 <= x.r[s] <= 1.0 && (p.e == 0 ==> x.r[s] == 0.0))
    && (forall i :: 0 <= i < p.Cores() ==>
          && x.loadW[i] == Kept(p, x, i, p.shards)
          && x.loadWE[i] == Offloaded(p, x, i, p.shards)
          && 0.0 <= x.loadWE[i] <= LOAD_CAP
          && Queue(x.loadW[i], x.varsW[i], p.kw, p.sloP))
    && (forall j :: 0 <= j < p.Cores() ==>
          && x.loadE[j] == 0.0
          && Queue(x.loadE[j], x.varsE[j], p.ke, p.sloR))
  }

  // ---------------------------------------------------------------------
  // What the constraints say about assignments

  /** Every shard has exactly one core, and it is a working core. */
  ghost predicate OneWorkerPerShard(a: Matrix, shards: nat, w: nat, cores: nat) {
    forall s :: 0 <= s < shards ==> HotBelow(Row(a, s), cores, w)
  }

  lemma AssignmentIsOneHot(a: Matrix, shards: nat, w: nat, cores: nat)
    requires AssignmentOk(a, shards, w, cores)
    ensures OneWorkerPerShard(a, shards, w, cores)
  {
    forall s | 0 <= s < shards ensures HotBelow(Row(a, s), cores, w) {
      var h := HotFromTotal(Row(a, s), cores);
      assert Col(a, h).At(s) == Row(a, s).At(h) == 1;
      TotalZero(Col(a, h), shards);
    }
  }

  /** Every working core is served by exactly one offloading core if there is any;
      columns of other cores are blank. */
  ghost predicate OneOffloaderPerWorker(o: Matrix, w: nat, e: nat, cores: nat) {
    forall i :: 0 <= i < cores ==>
      if i < w && 0 < e then HotBelow(Col(o, i), cores, e)
      else Blank(Col(o, i), cores)
  }

  lemma {:induction false} TotalFromStart(l: Line, n: nat)
    ensures TotalFrom(l, 0, n) == Total(l, n)
  {
    if n != 0 {
      TotalFromStart(l, n - 1);
    }
  }

  lemma OffloadingIsOneHot(o: Matrix, w: nat, e: nat, cores: nat)
    requires OffloadingOk(o, w, e, cores) && e <= cores && w <= cores
    ensures OneOffloaderPerWorker(o, w, e, cores)
  {
    forall i | 0 <= i < cores
      ensures if i < w && 0 < e then HotBelow(Col(o, i), cores, e)
              else Blank(Col(o, i), cores)
    {
      TotalZero(Col(o, i), cores);
      if i < w && 0 < e {
        TotalFromStart(Col(o, i), e);
        TotalFromZero(Col(o, i), e, cores);
        var h := HotFromTotal(Col(o, i), e);
        assert Hot(Col(o, i), cores, h);
      }
    }
  }

  /** The places of the 1s. */
  function Ones(l: Line, n: nat): set<nat> {
    set k: nat | k < n && l.At(k) == 1
  }

  lemma OneMorePlace(l: Line, n: nat)
    ensures |Ones(l, n + 1)| == |Ones(l, n)| + if l.At(n) == 1 then 1 else 0
  {
    if l.At(n) == 1 {
      assert Ones(l, n + 1) == Ones(l, n) + {n};
    } else {
      assert Ones(l, n + 1) == Ones(l, n);
    }
  }

  lemma {:induction false} TotalIsCount(l: Line, n: nat)
    requires forall k :: 0 <= k < n ==> l.At(k) <= 1
    ensures Total(l, n) == |Ones(l, n)|
  {
    if n != 0 {
      TotalIsCount(l, n - 1);
      OneMorePlace(l, n - 1);
    }
  }

  ghost function ShardsWith(a: Matrix, i: nat, shards: nat): set<nat> {
    set s: nat | s < shards && Cell(a, s, i) == 1
  }

  lemma ShardsWithTotal(a: Matrix, i: nat, shards: nat)
    requires Binary(a)
    ensures Total(Col(a, i), shards) == |ShardsWith(a, i, shards)|
  {
    TotalIsCount(Col(a, i), shards);
    assert Ones(Col(a, i), shards) == ShardsWith(a, i, shards);
  }

  /** The working cores are exactly the cores with shards, and no core has more shards than one
      before it. */
  lemma {:induction false} CoresWithShards(a: Matrix, shards: nat, w: nat, cores: nat, i: nat, j: nat)
    requires AssignmentOk(a, shards, w, cores) && i <= j < cores
    ensures j < w <==> ShardsWith(a, j, shards) != {}
    ensures |ShardsWith(a, j, shards)| <= |ShardsWith(a, i, shards)|
    decreases j
  {
    ShardsWithTotal(a, j, shards);
    if i < j {
      CoresWithShards(a, shards, w, cores, i, j - 1);
      ShardsWithTotal(a, j - 1, shards);
      assert Total(Col(a, (j - 1) + 1), shards) <= Total(Col(a, j - 1), shards);
    }
  }

  /** Every offloading core serves a working core. */
  lemma OffloadersServe(o: Matrix, w: nat, e: nat, j: nat) returns (i: nat)
    requires OffloadingOk(o, w, e, w + e) && j < e
    ensures i < w && Cell(o, j, i) == 1
  {
    TotalZero(Row(o, j), w + e);
    i :| i < w + e && Row(o, j).At(i) != 0;
    TotalZero(Col(o, i), w + e);
    assert Col(o, i).At(j) == Row(o, j).At(i);
  }

  // ---------------------------------------------------------------------
  // The objective counts moves, twice

  /** Among the first `n` shards, those whose core differs. */
  function ShardsMoved(a: Matrix, a': Matrix, n: nat, cores: nat): nat {
    if n == 0 then 0
    else ShardsMoved(a, a', n - 1, cores) + if Differ(Row(a, n - 1), Row(a', n - 1), cores) then 1 else 0
  }

  /** Among the first `n` working cores, those whose offloading core differs. */
  function WorkersMoved(o: Matrix, o': Matrix, n: nat, cores: nat): nat {
    if n == 0 then 0
    else WorkersMoved(o, o', n - 1, cores) + if Differ(Col(o, n - 1), Col(o', n - 1), cores) then 1 else 0
  }

  predicate Differ(l: Line, l': Line, n: nat) {
    exists k :: 0 <= k < n && l.At(k) != l'.At(k)
  }

  lemma HotLinesDistance(l: Line, l': Line, n: nat, h: nat, h': nat)
    requires Hot(l, n, h) && Hot(l', n, h')
    ensures Distance(l, l', n) == if Differ(l, l', n) then 2 else 0
  {
    HotDistance(l, l', n, h, h');
    DistanceZero(l, l', n);
  }

  lemma {:induction false} CostOfShards(a: Matrix, a': Matrix, n: nat, w: nat, cores: nat)
    requires OneWorkerPerShard(a, n, w, cores) && OneWorkerPerShard(a', n, w, cores)
    ensures Cost(a, a', n, cores) == 2 * ShardsMoved(a, a', n, cores)
  {
    if n != 0 {
      CostOfShards(a, a', n - 1, w, cores);
      var h: nat :| h < w && Hot(Row(a, n - 1), cores, h);
      var h': nat :| h' < w && Hot(Row(a', n - 1), cores, h');
      HotLinesDistance(Row(a, n - 1), Row(a', n - 1), cores, h, h');
    }
  }

  lemma {:induction false} CostOfWorkers(o: Matrix, o': Matrix, n: nat, w: nat, e: nat, cores: nat)
    requires n <= cores
    requires OneOffloaderPerWorker(o, w, e, cores) && OneOffloaderPerWorker(o', w, e, cores)
    ensures CostByColumns(o, o', cores, n) == 2 * WorkersMoved(o, o', if n < w then n else w, cores)
  {
    if n != 0 {
      CostOfWorkers(o, o', n - 1, w, e, cores);
      var l, l' := Col(o, n - 1), Col(o', n - 1);
      if n - 1 < w && 0 < e {
        var h: nat :| h < e && Hot(l, cores, h);
        var h': nat :| h' < e && Hot(l', cores, h');
        HotLinesDistance(l, l', cores, h, h');
      } else {
        assert Blank(l, cores) && Blank(l', cores);
        DistanceZero(l, l', cores);
      }
    }
  }

  /** The moved shards are those whose rows differ. */
  lemma {:induction false} MovedAreCounted(a: Matrix, newA: Matrix, n: nat, cores: nat)
    requires n <= |a| && n <= |newA| && forall s :: 0 <= s < n ==> |a[s]| == |newA[s]| == cores
    ensures ShardsMoved(a, newA, n, cores) == |set s | 0 <= s < n && a[s] != newA[s]|
  {
    var moved := set s | 0 <= s < n && a[s] != newA[s];
    if n == 0 {
      assert moved == {};
    } else {
      MovedAreCounted(a, newA, n - 1, cores);
      var before := set s | 0 <= s < n - 1 && a[s] != newA[s];
      RowsDiffer(a, newA, n - 1, cores);
      assert moved == before + (if a[n - 1] != newA[n - 1] then {n - 1} else {});
    }
  }

  lemma RowsDiffer(a: Matrix, newA: Matrix, s: nat, cores: nat)
    requires s < |a| && s < |newA| && |a[s]| == |newA[s]| == cores
    ensures Differ(Row(a, s), Row(newA, s), cores) <==> a[s] != newA[s]
  {
    if a[s] != newA[s] {
      var k :| 0 <= k < cores && a[s][k] != newA[s][k];
      assert Row(a, s).At(k) == a[s][k] && Row(newA, s).At(k) == newA[s][k];
    }
  }

  /** Column `i` of O has changed. */
  ghost predicate ServedElsewhere(o: Matrix, o': Matrix, i: nat, cores: nat) {
    exists j :: 0 <= j < cores && Cell(o, j, i) != Cell(o', j, i)
  }

  ghost function Switched(o: Matrix, o': Matrix, n: nat, cores: nat): set<nat> {
    set i: nat | i < n && ServedElsewhere(o, o', i, cores)
  }

  lemma OneMoreSwitched(o: Matrix, o': Matrix, n: nat, cores: nat)
    ensures |Switched(o, o', n + 1, cores)| ==
            |Switched(o, o', n, cores)| + if ServedElsewhere(o, o', n, cores) then 1 else 0
  {
    if ServedElsewhere(o, o', n, cores) {
      assert Switched(o, o', n + 1, cores) == Switched(o, o', n, cores) + {n};
    } else {
      assert Switched(o, o', n + 1, cores) == Switched(o, o', n, cores);
    }
  }

  lemma {:induction false} SwitchedAreCounted(o: Matrix, o': Matrix, n: nat, cores: nat)
    ensures WorkersMoved(o, o', n, cores) == |Switched(o, o', n, cores)|
  {
    if n != 0 {
      SwitchedAreCounted(o, o', n - 1, cores);
      OneMoreSwitched(o, o', n - 1, cores);
      ColumnsDiffer(o, o', n - 1, cores);
    }
  }

  lemma ColumnsDiffer(o: Matrix, o': Matrix, i: nat, cores: nat)
    ensures Differ(Col(o, i), Col(o', i), cores) <==> ServedElsewhere(o, o', i, cores)
  {
    if ServedElsewhere(o, o', i, cores) {
      var j :| 0 <= j < cores && Cell(o, j, i) != Cell(o', j, i);
      assert Col(o, i).At(j) != Col(o', i).At(j);
    }
  }

  /** Between two feasible configurations the objective is exactly twice the number of
      shards that change their core plus working cores that change their offloader. */
  lemma ObjectiveCountsMoves(a: Matrix, a': Matrix, o: Matrix, o': Matrix, shards: nat, w: nat, e: nat)
    requires AssignmentOk(a, shards, w, w + e) && AssignmentOk(a', shards, w, w + e)
    requires OffloadingOk(o, w, e, w + e) && OffloadingOk(o', w, e, w + e)
    ensures Cost(a, a', shards, w + e) + Cost(o, o', w + e, w + e)
         == 2 * |set s | 0 <= s < shards && a[s] != a'[s]| + 2 * |Switched(o, o', w, w + e)|
  {
    CostOfAssignment(a, a', shards, w, w + e);
    CostOfOffloading(o, o', w, e);
    MovedAreCounted(a, a', shards, w + e);
    SwitchedAreCounted(o, o', w, w + e);
  }

  lemma CostOfAssignment(a: Matrix, a': Matrix, shards: nat, w: nat, cores: nat)
    requires AssignmentOk(a, shards, w, cores) && AssignmentOk(a', shards, w, cores)
    ensures Cost(a, a', shards, cores) == 2 * ShardsMoved(a, a', shards, cores)
  {
    AssignmentIsOneHot(a, shards, w, cores);
    AssignmentIsOneHot(a', shards, w, cores);
    CostOfShards(a, a', shards, w, cores);
  }

  lemma CostOfOffloading(o: Matrix, o': Matrix, w: nat, e: nat)
    requires OffloadingOk(o, w, e, w + e) && OffloadingOk(o', w, e, w + e)
    ensures Cost(o, o', w + e, w + e) == 2 * WorkersMoved(o, o', w, w + e)
  {
    OffloadingIsOneHot(o, w, e, w + e);
    OffloadingIsOneHot(o', w, e, w + e);
    CostOfOneHot(o, o', w, e);
  }

  lemma CostOfOneHot(o: Matrix, o': Matrix, w: nat, e: nat)
    requires OneOffloaderPerWorker(o, w, e, w + e) && OneOffloaderPerWorker(o', w, e, w + e)
    ensures Cost(o, o', w + e, w + e) == 2 * WorkersMoved(o, o', w, w + e)
  {
    CostEitherWay(o, o', w + e, w + e);
    CostOfWorkers(o, o', w + e, w, e, w + e);
  }

  /** The objective is zero exactly when nothing changes. */
  lemma {:induction false} CostZero(m: Matrix, m': Matrix, rows: nat, cols: nat)
    requires rows <= |m| && rows <= |m'|
    requires forall i :: 0 <= i < rows ==> |m[i]| == cols && |m'[i]| == cols
    ensures Cost(m, m', rows, cols) == 0 <==> m[..rows] == m'[..rows]
  {
    if rows != 0 {
      CostZero(m, m', rows - 1, cols);
      var k := rows - 1;
      DistanceZero(Row(m, k), Row(m', k), cols);
      assert m[..rows] == m[..k] + [m[k]] && m'[..rows] == m'[..k] + [m'[k]];
      if forall j :: 0 <= j < cols ==> Row(m, k).At(j) == Row(m', k).At(j) {
        forall j | 0 <= j < cols ensures m[k][j] == m'[k][j] {
          assert Row(m, k).At(j) == Row(m', k).At(j);
        }
        assert m[k] == m'[k];
      } else {
        var j :| 0 <= j < cols && Row(m, k).At(j) != Row(m', k).At(j);
        assert m[..rows][k] != m'[..rows][k];
      }
    }
  }

  // ---------------------------------------------------------------------
  // Load is conserved

  /** The load of the first `n` cores that comes from the first `s` shards. */
  function LoadOfCores(p: Problem, x: Point, n: nat, s: nat): real
    requires s <= |p.v| && s <= |x.r|
  {
    if n == 0 then 0.0 else LoadOfCores(p, x, n - 1, s) + Kept(p, x, n - 1, s) + Offloaded(p, x, n - 1, s)
  }

  function Volume(v: seq<real>, s: nat): real
    requires s <= |v|
  {
    if s == 0 then 0.0 else Volume(v, s - 1) + v[s - 1]
  }

  lemma {:induction false} NoShardsNoLoad(p: Problem, x: Point, n: nat)
    ensures LoadOfCores(p, x, n, 0) == 0.0
  {
    if n != 0 {
      NoShardsNoLoad(p, x, n - 1);
    }
  }

  /** One more shard adds its whole volume, at the one core it is assigned to. */
  lemma {:induction false} OneMoreShard(p: Problem, x: Point, n: nat, s: nat, cores: nat, h: nat)
    requires 0 < s <= |p.v| && s <= |x.r| && n <= cores
    requires Hot(Row(x.a, s - 1), cores, h)
    ensures LoadOfCores(p, x, n, s) == LoadOfCores(p, x, n, s - 1) + if h < n then p.v[s - 1] else 0.0
  {
    if n != 0 {
      OneMoreShard(p, x, n - 1, s, cores, h);
      var c, v, r := Cell(x.a, s - 1, n - 1), p.v[s - 1], x.r[s - 1];
      assert c == Row(x.a, s - 1).At(n - 1);
      assert c == if h == n - 1 then 1 else 0;
      SplitVolume(c, v, r);
    }
  }

  lemma SplitVolume(c: nat, v: real, r: real)
    requires c == 0 || c == 1
    ensures c as real * v * (1.0 - r) + c as real * v * r == if c == 1 then v else 0.0
  {
  }

  lemma {:induction false} AllShards(p: Problem, x: Point, s: nat, w: nat, cores: nat)
    requires s <= |p.v| && s <= |x.r| && w <= cores && OneWorkerPerShard(x.a, s, w, cores)
    ensures LoadOfCores(p, x, cores, s) == Volume(p.v, s)
  {
    if s == 0 {
      NoShardsNoLoad(p, x, cores);
    } else {
      AllShards(p, x, s - 1, w, cores);
      assert HotBelow(Row(x.a, s - 1), cores, w);
      var h: nat :| h < w && Hot(Row(x.a, s - 1), cores, h);
      OneMoreShard(p, x, cores, s, cores, h);
      assert h < cores;
    }
  }

  /** Load of the first `n` cores as the point records it. */
  function RecordedLoad(x: Point, n: nat): real
    requires n <= |x.loadW| && n <= |x.loadWE|
  {
    if n == 0 then 0.0 else RecordedLoad(x, n - 1) + x.loadW[n - 1] + x.loadWE[n - 1]
  }

  lemma {:induction false} RecordedIsLoad(p: Problem, x: Point, n: nat)
    requires Feasible(p, x) && n <= p.Cores()
    ensures RecordedLoad(x, n) == LoadOfCores(p, x, n, p.shards)
  {
    if n != 0 {
      RecordedIsLoad(p, x, n - 1);
    }
  }

  lemma {:induction false} BlankColumnNoLoad(p: Problem, x: Point, i: nat, s: nat)
    requires s <= |p.v| && s <= |x.r| && Blank(Col(x.a, i), s)
    ensures Kept(p, x, i, s) == 0.0 && Offloaded(p, x, i, s) == 0.0
  {
    if s != 0 {
      BlankColumnNoLoad(p, x, i, s - 1);
      assert Cell(x.a, s - 1, i) == Col(x.a, i).At(s - 1);
    }
  }

  lemma {:induction false} LoadIsCapped(p: Problem, x: Point, n: nat)
    requires Feasible(p, x) && n <= p.Cores()
    ensures RecordedLoad(x, n) <= 1.8 * (if n < p.w then n else p.w) as real
  {
    if n != 0 {
      LoadIsCapped(p, x, n - 1);
      if p.w < n {
        TotalZero(Col(x.a, n - 1), p.shards);
        BlankColumnNoLoad(p, x, n - 1, p.shards);
      }
    }
  }

  /** Every feasible point spreads exactly the given volume over the cores, whatever the
      ratios; so a problem is feasible only if the volume is at most 1.8 per working core. */
  lemma LoadConserved(p: Problem, x: Point)
    requires Feasible(p, x)
    ensures RecordedLoad(x, p.Cores()) == Volume(p.v, p.shards)
    ensures Volume(p.v, p.shards) <= 1.8 * p.w as real
  {
    AssignmentIsOneHot(x.a, p.shards, p.w, p.Cores());
    AllShards(p, x, p.shards, p.w, p.Cores());
    RecordedIsLoad(p, x, p.Cores());
    LoadIsCapped(p, x, p.Cores());
  }

  /** The volume of those of the first `n` shards that the matrix gives to core `i`. */
  function VolumeOf(a: Matrix, v: seq<real>, i: nat, n: nat): real
    requires n <= |v|
  {
    if n == 0 then 0.0 else VolumeOf(a, v, i, n - 1) + if Cell(a, n - 1, i) == 1 then v[n - 1] else 0.0
  }

  /** If all shards have the ratio `c`, a core offloads that part of the volume of its shards and
      keeps the rest. */
  lemma RatioSplitsLoad(p: Problem, x: Point, i: nat, c: real)
    requires Feasible(p, x) && i < p.Cores() && forall s :: 0 <= s < p.shards ==> x.r[s] == c
    ensures x.loadW[i] == VolumeOf(x.a, p.v, i, p.shards) * (1.0 - c)
    ensures x.loadWE[i] == VolumeOf(x.a, p.v, i, p.shards) * c
  {
    SplitByRatio(p, x, i, p.shards, c);
  }

  lemma {:induction false} SplitByRatio(p: Problem, x: Point, i: nat, n: nat, c: real)
    requires n <= |p.v| && n <= |x.r| && Binary(x.a) && forall s :: 0 <= s < n ==> x.r[s] == c
    ensures Kept(p, x, i, n) == VolumeOf(x.a, p.v, i, n) * (1.0 - c)
    ensures Offloaded(p, x, i, n) == VolumeOf(x.a, p.v, i, n) * c
  {
    if n != 0 {
      SplitByRatio(p, x, i, n - 1, c);
      PartsOf(VolumeOf(x.a, p.v, i, n - 1), Cell(x.a, n - 1, i), p.v[n - 1], c);
    }
  }

  lemma PartsOf(sum: real, cell: nat, v: real, c: real)
    requires cell == 0 || cell == 1
    ensures var more := if cell == 1 then v else 0.0;
            && sum * (1.0 - c) + cell as real * v * (1.0 - c) == (sum + more) * (1.0 - c)
            && sum * c + cell as real * v * c == (sum + more) * c
  {
  }

  /** A core keeps its shards of ratio 0 whole and offloads those of ratio 1 whole. */
  lemma {:induction false} WholeShards(p: Problem, x: Point, i: nat, n: nat, some: seq<real>, rest: seq<real>)
    requires n <= |p.v| && n <= |x.r| && Binary(x.a) && |some| == |rest| == |p.v|
    requires forall s :: 0 <= s < n ==> x.r[s] == 0.0 || x.r[s] == 1.0
    requires forall s :: 0 <= s < n ==> some[s] == if x.r[s] == 1.0 then p.v[s] else 0.0
    requires forall s :: 0 <= s < n ==> rest[s] == if x.r[s] == 0.0 then p.v[s] else 0.0
    ensures Offloaded(p, x, i, n) == VolumeOf(x.a, some, i, n)
    ensures Kept(p, x, i, n) == VolumeOf(x.a, rest, i, n)
  {
    if n != 0 {
      WholeShards(p, x, i, n - 1, some, rest);
      assert Cell(x.a, n - 1, i) == 0 || Cell(x.a, n - 1, i) == 1;
    }
  }

  /** A load meets the waiting-time constraint, with some value of the auxiliary variable, exactly
      if it is below both caps: 0.9, and slo / (k + slo), the tighter one when the deadline is
      short. */
  lemma DeadlineCapsLoad(load: real, k: real, slo: real)
    requires 0.0 <= k
    ensures (exists vars: real :: Queue(load, vars, k, slo)) <==> 0.0 <= load <= 0.9 && load * (k + slo) <= slo
  {
    forall vars: real | Queue(load, vars, k, slo) ensures 0.0 <= load <= 0.9 && load * (k + slo) <= slo {
      WaitCapsLoad(load, vars, k, slo);
    }
    if 0.0 <= load <= 0.9 && load * (k + slo) <= slo {
      var vars := WaitOf(load, k, slo);
    }
  }

  lemma Quotient(x: real, y: real) returns (q: real)
    requires 0.0 <= x && 0.0 < y
    ensures 0.0 <= q && q * y == x
  {
    q := x / y;
  }

  lemma WaitOf(load: real, k: real, slo: real) returns (vars: real)
    requires 0.0 <= load <= 0.9 && load * (k + slo) <= slo
    ensures Queue(load, vars, k, slo)
  {
    vars := Quotient(load, 1.0 - load);
    WaitCapsLoad(load, vars, k, slo);
  }

  lemma WaitCapsLoad(load: real, vars: real, k: real, slo: real)
    requires 0.0 <= load <= 0.9 && vars * (1.0 - load) == load
    ensures vars * k <= slo <==> load * (k + slo) <= slo
  {
    Scaled(vars * k, slo, 1.0 - load);
    assert vars * k * (1.0 - load) == load * k by {
      assert vars * k * (1.0 - load) == vars * (1.0 - load) * k;
    }
  }

  lemma Scaled(x: real, y: real, k: real)
    requires 0.0 < k
    ensures x <= y <==> x * k <= y * k
  {
  }
}
