/** The walk over changed keys (components/keyboard/kb_manager.c): which edges a
    scan reports, in which order, and with which action codes. */
module EdgeWalk {
  import opened Options
  import Bits
  import opened KeyMatrix

  const ACTION_CODE_NONE: nat := 0

  /** An edge as the tap-hold resolver gets it; a press that a combo consumes does not
      get that far. */
  datatype Edge = Down(key: nat, code: nat) | Up(key: nat, code: nat) | Consumed(key: nat)

  /** What the combo engine and the layout answer to the n-th edge; layers may change
      from one edge to the next. */
  datatype World = World(consumed: (nat, nat) -> bool, code: (nat, nat) -> nat)

  datatype State = State(active: seq<nat>, edges: seq<Edge>) {
    predicate Shaped() {
      |active| == KB_MATRIX_KEYS
    }
  }

  type Matrix = seq<bv8>

  predicate IsMatrix(m: Matrix) {
    |m| == KB_MATRIX_BITMAP_BYTES
  }

  predicate Differs(a: Matrix, b: Matrix, key: nat)
    requires IsMatrix(a) && IsMatrix(b) && key < 8 * KB_MATRIX_BITMAP_BYTES
  {
    Bits.Get(a, key) != Bits.Get(b, key)
  }

  /** The changed keys below n, in ascending order. */
  function Changed(a: Matrix, b: Matrix, n: nat): (list: seq<nat>)
    requires IsMatrix(a) && IsMatrix(b) && n <= 8 * KB_MATRIX_BITMAP_BYTES
    ensures forall i | 0 <= i < |list| :: list[i] < n && Differs(a, b, list[i])
    ensures forall i, j | 0 <= i < j < |list| :: list[i] < list[j]
  {
    if n == 0 then [] else Changed(a, b, n - 1) + if Differs(a, b, n - 1) then [n - 1] else []
  }

  function OnEdge(w: World, s: State, key: nat, down: bool): (t: State)
    requires s.Shaped() && key < KB_MATRIX_KEYS
    ensures t.Shaped()
  {
    var n := |s.edges|;
    if !down then State(s.active[key := ACTION_CODE_NONE], s.edges + [Up(key, s.active[key])])
    else if w.consumed(n, key) then s.(edges := s.edges + [Consumed(key)])
    else State(s.active[key := w.code(n, key)], s.edges + [Down(key, w.code(n, key))])
  }

  predicate Keys(list: seq<nat>) {
    forall i | 0 <= i < |list| :: list[i] < KB_MATRIX_KEYS
  }

  function Visit(w: World, s: State, matrix: Matrix, list: seq<nat>): (t: State)
    requires s.Shaped() && IsMatrix(matrix) && Keys(list)
    ensures t.Shaped()
  {
    if list == [] then s
    else
      var m := |list| - 1;
      OnEdge(w, Visit(w, s, matrix, list[..m]), list[m], Bits.Get(matrix, list[m]))
  }

  lemma {:induction false} ChangedHas(a: Matrix, b: Matrix, n: nat, key: nat) returns (i: nat)
    requires IsMatrix(a) && IsMatrix(b) && key < n <= 8 * KB_MATRIX_BITMAP_BYTES && Differs(a, b, key)
    ensures i < |Changed(a, b, n)| && Changed(a, b, n)[i] == key
  {
    hide Differs;
    if key == n - 1 {
      i := |Changed(a, b, n - 1)|;
    } else {
      i := ChangedHas(a, b, n - 1, key);
    }
  }

  lemma {:induction false} NothingChanged(a: Matrix, b: Matrix, n: nat, m: nat)
    requires IsMatrix(a) && IsMatrix(b) && n <= m <= 8 * KB_MATRIX_BITMAP_BYTES
    requires forall key | n <= key < m :: !Differs(a, b, key)
    ensures Changed(a, b, m) == Changed(a, b, n)
  {
    hide Differs;
    if n < m {
      NothingChanged(a, b, n, m - 1);
    }
  }

  /** The walk has visited everything below bit position pos of byte i, and d holds the
      changed bits from there on. */
  predicate DiffFrom(a: Matrix, b: Matrix, i: nat, pos: nat, d: bv8)
    requires IsMatrix(a) && IsMatrix(b) && i < KB_MATRIX_BITMAP_BYTES && pos <= 8
  {
    forall j | 0 <= j < 8 :: Bits.Test(d, j) == (j >= pos && Differs(a, b, 8 * i + j))
  }

  lemma DiffStarts(a: Matrix, b: Matrix, i: nat)
    requires IsMatrix(a) && IsMatrix(b) && i < KB_MATRIX_BITMAP_BYTES
    ensures DiffFrom(a, b, i, 0, Bits.Xor(a[i], b[i]))
  {
    var d := Bits.Xor(a[i], b[i]);
    forall j | 0 <= j < 8 ensures Bits.Test(d, j) == Differs(a, b, 8 * i + j) {
      Bits.TestXor(a[i], b[i], j);
      hide Bits.Test;
      assert (8 * i + j) / 8 == i && (8 * i + j) % 8 == j;
    }
  }

  /** key is the first change from n on. */
  ghost predicate NextChange(a: Matrix, b: Matrix, n: nat, key: nat)
    requires IsMatrix(a) && IsMatrix(b) && key < 8 * KB_MATRIX_BITMAP_BYTES
  {
    n <= key && Differs(a, b, key) && forall other | n <= other < key :: !Differs(a, b, other)
  }

  /** The lowest bit of d is the next change, and clearing it moves past it. */
  lemma DiffNext(a: Matrix, b: Matrix, i: nat, pos: nat, d: bv8, bit: nat)
    requires IsMatrix(a) && IsMatrix(b) && i < KB_MATRIX_BITMAP_BYTES && pos <= 8 && DiffFrom(a, b, i, pos, d) && d != 0
    requires bit == i * 8 + Bits.Ctz(d)
    ensures NextChange(a, b, 8 * i + pos, bit) && DiffFrom(a, b, i, Bits.Ctz(d) + 1, Bits.DropLowest(d))
  {
    hide Bits.Test, Bits.Ctz, Differs, Bits.DropLowest;
    var e := Bits.NextBit(d);
    forall key | 8 * i + pos <= key < bit ensures !Differs(a, b, key) {
      assert !Bits.Test(d, key - 8 * i);
    }
  }

  lemma DiffDone(a: Matrix, b: Matrix, i: nat, pos: nat, d: bv8)
    requires IsMatrix(a) && IsMatrix(b) && i < KB_MATRIX_BITMAP_BYTES && pos <= 8 && DiffFrom(a, b, i, pos, d) && d == 0
    ensures forall key | 8 * i + pos <= key < 8 * i + 8 :: !Differs(a, b, key)
  {
    assert forall j: nat | j < 8 :: !Bits.Test(d, j);
    hide Bits.Test, Differs;
    forall key | 8 * i + pos <= key < 8 * i + 8 ensures !Differs(a, b, key) {
      assert !Bits.Test(d, key - 8 * i);
    }
  }

  /** From state s, the changes between a and b below key n have been visited. */
  function After(w: World, s: State, a: Matrix, b: Matrix, n: nat): (t: State)
    requires s.Shaped() && IsMatrix(a) && IsMatrix(b) && n <= KB_MATRIX_KEYS
    ensures t.Shaped()
  {
    Visit(w, s, b, Changed(a, b, n))
  }

  /** No further key: the next change is padding. */
  lemma AfterPadding(w: World, s: State, a: Matrix, b: Matrix, n: nat, bit: nat)
    requires s.Shaped() && IsMatrix(a) && IsMatrix(b) && n <= KB_MATRIX_KEYS <= bit < 8 * KB_MATRIX_BITMAP_BYTES && NextChange(a, b, n, bit)
    ensures After(w, s, a, b, KB_MATRIX_KEYS) == After(w, s, a, b, n)
  {
    hide Differs;
    AfterSkip(w, s, a, b, n, KB_MATRIX_KEYS);
  }

  lemma AfterSkip(w: World, s: State, a: Matrix, b: Matrix, n: nat, m: nat)
    requires s.Shaped() && IsMatrix(a) && IsMatrix(b) && n <= m <= KB_MATRIX_KEYS
    requires forall key | n <= key < m :: !Differs(a, b, key)
    ensures After(w, s, a, b, m) == After(w, s, a, b, n)
  {
    NothingChanged(a, b, n, m);
  }

  lemma AfterNext(w: World, s: State, a: Matrix, b: Matrix, n: nat, key: nat)
    requires s.Shaped() && IsMatrix(a) && IsMatrix(b) && key < KB_MATRIX_KEYS && NextChange(a, b, n, key)
    ensures n <= key && After(w, s, a, b, key + 1) == OnEdge(w, After(w, s, a, b, n), key, Bits.Get(b, key))
  {
    NothingChanged(a, b, n, key);
    hide Differs, OnEdge, Bits.Get;
    var list := Changed(a, b, key);
    assert (list + [key])[..|list|] == list;
  }

  /** What the loop over the set bits of byte i does to state s. */
  function WalkBits(w: World, s: State, matrix: Matrix, i: nat, d: bv8): (t: State)
    requires s.Shaped() && IsMatrix(matrix) && i < KB_MATRIX_BITMAP_BYTES
    ensures t.Shaped()
    decreases d
  {
    if d == 0 || i * 8 + Bits.Ctz(d) >= KB_MATRIX_KEYS then s
    else
      var bit := i * 8 + Bits.Ctz(d);
      WalkBits(w, OnEdge(w, s, bit, Bits.Get(matrix, bit)), matrix, i, Bits.DropLowest(d))
  }

  /** It visits the rest of the changes of that byte. */
  lemma {:induction false} WalkBitsVisits(w: World, s: State, a: Matrix, b: Matrix, i: nat, pos: nat, d: bv8)
    requires s.Shaped() && IsMatrix(a) && IsMatrix(b) && i < KB_MATRIX_BITMAP_BYTES
    requires pos <= 8 && 8 * i + pos <= KB_MATRIX_KEYS && DiffFrom(a, b, i, pos, d)
    ensures WalkBits(w, After(w, s, a, b, 8 * i + pos), b, i, d) == After(w, s, a, b, Boundary(i + 1))
    decreases d
  {
    hide After, Differs, OnEdge, DiffFrom, NextChange, Bits.Ctz, Bits.Get, Bits.DropLowest;
    var n := 8 * i + pos;
    if d == 0 {
      DiffDone(a, b, i, pos, d);
      AfterSkip(w, s, a, b, n, Boundary(i + 1));
    } else {
      var bit := i * 8 + Bits.Ctz(d);
      DiffNext(a, b, i, pos, d, bit);
      if bit >= KB_MATRIX_KEYS {
        AfterPadding(w, s, a, b, n, bit);
      } else {
        AfterNext(w, s, a, b, n, bit);
        WalkBitsVisits(w, s, a, b, i, Bits.Ctz(d) + 1, Bits.DropLowest(d));
      }
    }
  }

  /** The first key of byte i; the last byte has padding bits. */
  function Boundary(i: nat): (key: nat)
    requires i <= KB_MATRIX_BITMAP_BYTES
    ensures key <= KB_MATRIX_KEYS
  {
    if i == KB_MATRIX_BITMAP_BYTES then KB_MATRIX_KEYS else 8 * i
  }

  lemma Boundaries()
    ensures Boundary(0) == 0 && Boundary(KB_MATRIX_BITMAP_BYTES) == KB_MATRIX_KEYS
  {
  }

  lemma ByteVisited(w: World, s: State, a: Matrix, b: Matrix, i: nat)
    requires s.Shaped() && IsMatrix(a) && IsMatrix(b) && i < KB_MATRIX_BITMAP_BYTES
    ensures WalkBits(w, After(w, s, a, b, Boundary(i)), b, i, Bits.Xor(a[i], b[i])) == After(w, s, a, b, Boundary(i + 1))
  {
    hide After, DiffFrom, WalkBits, Bits.Xor;
    DiffStarts(a, b, i);
    WalkBitsVisits(w, s, a, b, i, 0, Bits.Xor(a[i], b[i]));
  }

  function Zeros(): (m: Matrix)
    ensures IsMatrix(m) && forall i | 0 <= i < |m| :: m[i] == 0
  {
    seq(KB_MATRIX_BITMAP_BYTES, i => 0)
  }

  /** The walker's state and the matrix of the last scan. */
  datatype Board = Board(state: State, last: Matrix)

  /** One scan. */
  function Scan(w: World, board: Board, matrix: Matrix): (next: Board)
    requires board.state.Shaped() && IsMatrix(board.last) && IsMatrix(matrix)
    ensures next.state.Shaped() && IsMatrix(next.last)
  {
    Board(After(w, board.state, board.last, matrix, KB_MATRIX_KEYS), matrix)
  }

  class Walker {
    const world: World
    var active: array<nat>
    var last: Matrix
    var lastValid: bool
    var steps: nat         // history: the number of edges so far
    ghost var edges: seq<Edge>

    ghost predicate Valid()
      reads this
    {
      active.Length == KB_MATRIX_KEYS && IsMatrix(last) && steps == |edges|
    }

    ghost function View(): (b: Board)
      requires Valid()
      reads this, active
      ensures b.state.Shaped() && IsMatrix(b.last)
    {
      Board(State(active[..], edges), if lastValid then last else Zeros())
    }

    constructor (world: World)
      ensures Valid() && fresh(active) && this.world == world && View() == Start()
    {
      this.world := world;
      active := new nat[KB_MATRIX_KEYS](i => ACTION_CODE_NONE);
      last, lastValid, steps, edges := Zeros(), false, 0, [];
      new;
      assert active[..] == Start().state.active;
    }

    method HandleEdge(key: nat, down: bool)
      requires Valid() && key < KB_MATRIX_KEYS
      modifies this`edges, this`steps, active
      ensures Valid() && View() == old(View()).(state := OnEdge(world, old(View()).state, key, down))
    {
      if down {
        if world.consumed(steps, key) {
          edges := edges + [Consumed(key)];
        } else {
          var action := world.code(steps, key);
          active[key] := action;
          edges := edges + [Down(key, action)];
        }
      } else {
        edges := edges + [Up(key, active[key])];
        active[key] := ACTION_CODE_NONE;
      }
      steps := steps + 1;
    }

    /** The while loop over the changed bits of byte i. */
    method WalkByte(matrix: Matrix, i: nat, diff: bv8)
      requires Valid() && IsMatrix(matrix) && i < KB_MATRIX_BITMAP_BYTES
      modifies this`edges, this`steps, active
      ensures Valid() && View() == old(View()).(state := WalkBits(world, old(View()).state, matrix, i, diff))
    {
      hide OnEdge, Bits.Ctz, Bits.Get, Bits.DropLowest;
      var d := diff;
      while d != 0
        invariant Valid() && View().last == old(View()).last
        invariant WalkBits(world, View().state, matrix, i, d) == WalkBits(world, old(View()).state, matrix, i, diff)
        decreases d
      {
        var bitPos := Bits.Ctz(d);
        var bit := i * 8 + bitPos;
        if bit >= KB_MATRIX_KEYS {
          return;
        }
        HandleEdge(bit, Bits.Get(matrix, bit));
        d := Bits.DropLowest(d);
      }
    }

    /** The edge processing of one scan in kb_manager_task. */
    method OnScan(matrix: Matrix)
      requires Valid() && IsMatrix(matrix)
      modifies this`edges, this`steps, this`last, this`lastValid, active
      ensures Valid() && View() == Scan(world, old(View()), matrix)
    {
      hide After, Bits.Xor, OnEdge, WalkBits, Boundary;
      ghost var start := View().state;
      ghost var from := View().last;
      AfterNothing(world, start, from, matrix);
      Boundaries();
      if lastValid && matrix == last {
        return;
      }
      for i := 0 to KB_MATRIX_BITMAP_BYTES
        invariant Valid() && View().last == from
        invariant View().state == After(world, start, from, matrix, Boundary(i))
      {
        var diff := Bits.Xor(if lastValid then last[i] else 0, matrix[i]);
        assert diff == Bits.Xor(from[i], matrix[i]);
        ByteVisited(world, start, from, matrix, i);
        WalkByte(matrix, i, diff);
      }
      last := matrix;
      lastValid := true;
    }
  }

  lemma AfterNothing(w: World, s: State, a: Matrix, b: Matrix)
    requires s.Shaped() && IsMatrix(a) && IsMatrix(b)
    ensures After(w, s, a, b, 0) == s
    ensures a == b ==> After(w, s, a, b, KB_MATRIX_KEYS) == s
  {
    assert Visit(w, s, b, []) == s;
    if a == b {
      NothingChanged(a, b, 0, KB_MATRIX_KEYS);
    }
    hide Visit;
    assert Changed(a, b, 0) == [];
  }

  function Start(): (b: Board)
    ensures b.state.Shaped() && b.last == Zeros() && b.state.edges == []
    ensures forall key | 0 <= key < KB_MATRIX_KEYS :: b.state.active[key] == ACTION_CODE_NONE
  {
    Board(State(seq(KB_MATRIX_KEYS, i => ACTION_CODE_NONE), []), Zeros())
  }


  // ---------- Runs ----------

  function Run(w: World, scans: seq<Matrix>): (board: Board)
    requires forall i | 0 <= i < |scans| :: IsMatrix(scans[i])
    ensures board.state.Shaped() && IsMatrix(board.last)
  {
    if scans == [] then Start() else Scan(w, Run(w, scans[..|scans| - 1]), scans[|scans| - 1])
  }

  /** The latest edge of a key. */
  function Latest(edges: seq<Edge>, key: nat): Option<Edge> {
    if edges == [] then None
    else if edges[|edges| - 1].key == key then Some(edges[|edges| - 1])
    else Latest(edges[..|edges| - 1], key)
  }

  /** The edges of a key end as its bit is, and its remembered action is the one of its press. */
  predicate KeyGood(s: State, key: nat, down: bool)
    requires s.Shaped() && key < KB_MATRIX_KEYS
  {
    match Latest(s.edges, key)
    case None => !down && s.active[key] == ACTION_CODE_NONE
    case Some(Up(_, _)) => !down && s.active[key] == ACTION_CODE_NONE
    case Some(Down(_, code)) => down && s.active[key] == code
    case Some(Consumed(_)) => down && s.active[key] == ACTION_CODE_NONE
  }

  /** An edge fits the earlier ones: presses and releases of a key alternate, and a
      release carries the code of its press, or none if a combo consumed the press. */
  predicate Fits(before: seq<Edge>, e: Edge) {
    match Latest(before, e.key)
    case None => !e.Up?
    case Some(Up(_, _)) => !e.Up?
    case Some(Down(_, code)) => e == Up(e.key, code)
    case Some(Consumed(_)) => e == Up(e.key, ACTION_CODE_NONE)
  }

  predicate AllFit(edges: seq<Edge>) {
    forall i | 0 <= i < |edges| :: Fits(edges[..i], edges[i])
  }

  lemma OnEdgeLatest(w: World, s: State, key: nat, down: bool, other: nat)
    requires s.Shaped() && key < KB_MATRIX_KEYS && other < KB_MATRIX_KEYS
    ensures var t := OnEdge(w, s, key, down);
            t.edges != [] && t.edges[..|t.edges| - 1] == s.edges && t.edges[|t.edges| - 1].key == key &&
            Latest(t.edges, other) == if other == key then Some(t.edges[|t.edges| - 1]) else Latest(s.edges, other)
  {
    var t := OnEdge(w, s, key, down);
    assert t.edges[..|s.edges|] == s.edges;
  }

  lemma OnEdgeKey(w: World, s: State, key: nat, down: bool, other: nat)
    requires s.Shaped() && key < KB_MATRIX_KEYS && other < KB_MATRIX_KEYS && KeyGood(s, key, !down)
    ensures var t := OnEdge(w, s, key, down);
            if other == key then KeyGood(t, key, down) else forall d :: KeyGood(t, other, d) == KeyGood(s, other, d)
  {
    OnEdgeLatest(w, s, key, down, other);
    hide Latest;
  }

  lemma AllFitSnoc(edges: seq<Edge>, e: Edge)
    requires AllFit(edges) && Fits(edges, e)
    ensures AllFit(edges + [e])
  {
    hide Fits;
    var all := edges + [e];
    forall i | 0 <= i < |all| ensures Fits(all[..i], all[i]) {
      if i < |edges| {
        assert all[..i] == edges[..i];
      } else {
        assert all[..i] == edges;
      }
    }
  }

  lemma OnEdgeFits(w: World, s: State, key: nat, down: bool)
    requires s.Shaped() && key < KB_MATRIX_KEYS && KeyGood(s, key, !down) && AllFit(s.edges)
    ensures AllFit(OnEdge(w, s, key, down).edges)
  {
    hide Latest, AllFit;
    var n := |s.edges|;
    var e := if !down then Up(key, s.active[key]) else if w.consumed(n, key) then Consumed(key) else Down(key, w.code(n, key));
    AllFitSnoc(s.edges, e);
  }

  ghost predicate BoardGood(s: State, m: Matrix)
    requires s.Shaped() && IsMatrix(m)
  {
    AllFit(s.edges) && forall key | 0 <= key < KB_MATRIX_KEYS :: KeyGood(s, key, Bits.Get(m, key))
  }

  /** Halfway through a walk the keys below n are as in b and the others as in a. */
  lemma {:induction false} AfterGood(w: World, s: State, a: Matrix, b: Matrix, n: nat)
    requires s.Shaped() && IsMatrix(a) && IsMatrix(b) && n <= KB_MATRIX_KEYS && BoardGood(s, a)
    ensures var t := After(w, s, a, b, n);
            AllFit(t.edges) &&
            forall key | 0 <= key < KB_MATRIX_KEYS :: KeyGood(t, key, if key < n then Bits.Get(b, key) else Bits.Get(a, key))
  {
    hide KeyGood, AllFit, OnEdge, After, Bits.Get;
    AfterNothing(w, s, a, b);
    if n > 0 {
      AfterGood(w, s, a, b, n - 1);
      var t := After(w, s, a, b, n - 1);
      if Differs(a, b, n - 1) {
        AfterNext(w, s, a, b, n - 1, n - 1);
        OnEdgeFits(w, t, n - 1, Bits.Get(b, n - 1));
        forall key | 0 <= key < KB_MATRIX_KEYS
          ensures KeyGood(After(w, s, a, b, n), key, if key < n then Bits.Get(b, key) else Bits.Get(a, key))
        {
          OnEdgeKey(w, t, n - 1, Bits.Get(b, n - 1), key);
        }
      } else {
        AfterSkip(w, s, a, b, n - 1, n);
      }
    }
  }

  lemma {:induction false} RunGood(w: World, scans: seq<Matrix>)
    requires forall i | 0 <= i < |scans| :: IsMatrix(scans[i])
    ensures BoardGood(Run(w, scans).state, Run(w, scans).last)
  {
    if scans == [] {
      forall key | 0 <= key < KB_MATRIX_KEYS ensures !Bits.Get(Start().last, key) {
        Bits.ZeroGet(Start().last, key);
      }
      hide Bits.Get;
    } else {
      var before := Run(w, scans[..|scans| - 1]);
      RunGood(w, scans[..|scans| - 1]);
      AfterGood(w, before.state, before.last, scans[|scans| - 1], KB_MATRIX_KEYS);
      hide KeyGood, AllFit, After, Bits.Get;
    }
  }

  // ---------- Main results ----------

  /** A scan visits each changed key exactly once, in ascending order, and neither an
      unchanged key nor a padding bit. */
  lemma VisitedExactlyOnce(a: Matrix, b: Matrix)
    requires IsMatrix(a) && IsMatrix(b)
    ensures var list := Changed(a, b, KB_MATRIX_KEYS);
            (forall key :: key in list <==> 0 <= key < KB_MATRIX_KEYS && Bits.Get(a, key) != Bits.Get(b, key)) &&
            forall i, j | 0 <= i < j < |list| :: list[i] < list[j]
  {
    var list := Changed(a, b, KB_MATRIX_KEYS);
    forall key | 0 <= key < KB_MATRIX_KEYS && Bits.Get(a, key) != Bits.Get(b, key) ensures key in list {
      var i := ChangedHas(a, b, KB_MATRIX_KEYS, key);
    }
    hide Bits.Get, Changed;
  }

  /** In every run: the edges of each key alternate, and each release carries the action
      code of its press, whatever happens to the layers in between, or none if a combo
      consumed the press. */
  lemma ReleasesMatchPresses(w: World, scans: seq<Matrix>)
    requires forall i | 0 <= i < |scans| :: IsMatrix(scans[i])
    ensures var edges := Run(w, scans).state.edges;
            forall i | 0 <= i < |edges| ::
              match Latest(edges[..i], edges[i].key)
              case None => !edges[i].Up?
              case Some(Up(_, _)) => !edges[i].Up?
              case Some(Down(_, code)) => edges[i] == Up(edges[i].key, code)
              case Some(Consumed(_)) => edges[i] == Up(edges[i].key, ACTION_CODE_NONE)
  {
    RunGood(w, scans);
    var edges := Run(w, scans).state.edges;
    assert forall i | 0 <= i < |edges| :: Fits(edges[..i], edges[i]);
    hide Run, KeyGood;
  }

  /** Replaying the edges of a run from the empty matrix gives the last matrix. */
  lemma EdgesReplayToMatrix(w: World, scans: seq<Matrix>, key: nat)
    requires scans != [] && (forall i | 0 <= i < |scans| :: IsMatrix(scans[i])) && key < KB_MATRIX_KEYS
    ensures var latest := Latest(Run(w, scans).state.edges, key);
            Bits.Get(scans[|scans| - 1], key) <==> latest.Some? && !latest.value.Up?
  {
    RunGood(w, scans);
    assert KeyGood(Run(w, scans).state, key, Bits.Get(Run(w, scans).last, key));
    hide After, Bits.Get;
  }

  /** The n-th edge of a run: the key went up, or it went down and a combo consumed it, or
      it went down with the code that the layout gives at that moment. */
  predicate Answers(w: World, n: nat, key: nat, down: bool, e: Edge) {
    if !down then e.Up? && e.key == key
    else if w.consumed(n, key) then e == Consumed(key)
    else e == Down(key, w.code(n, key))
  }

  lemma {:induction false} VisitReports(w: World, s: State, matrix: Matrix, list: seq<nat>)
    requires s.Shaped() && IsMatrix(matrix) && Keys(list)
    ensures var t, n := Visit(w, s, matrix, list), |s.edges|;
            s.edges <= t.edges && |t.edges| == n + |list| &&
            forall i | 0 <= i < |list| :: Answers(w, n + i, list[i], Bits.Get(matrix, list[i]), t.edges[n + i])
  {
    hide Bits.Get;
    if list != [] {
      VisitReports(w, s, matrix, list[..|list| - 1]);
    }
  }

  /** The keys that differ, in ascending order. */
  ghost predicate Differing(a: Matrix, b: Matrix, list: seq<nat>)
    requires IsMatrix(a) && IsMatrix(b)
  {
    (forall key :: key in list <==> 0 <= key < KB_MATRIX_KEYS && Bits.Get(a, key) != Bits.Get(b, key)) &&
    forall i, j | 0 <= i < j < |list| :: list[i] < list[j]
  }

  /** From any state, one more scan reports exactly the keys whose bits differ from the scan
      before, one edge each and in ascending order, each as its bit and the combo engine
      and the layout say at that moment. */
  lemma ScanReports(w: World, board: Board, matrix: Matrix) returns (list: seq<nat>)
    requires board.state.Shaped() && IsMatrix(board.last) && IsMatrix(matrix)
    ensures Differing(board.last, matrix, list) && forall i | 0 <= i < |list| :: list[i] < KB_MATRIX_KEYS
    ensures var before, edges := board.state.edges, Scan(w, board, matrix).state.edges;
            before <= edges && |edges| == |before| + |list| &&
            forall i | 0 <= i < |list| :: Answers(w, |before| + i, list[i], Bits.Get(matrix, list[i]), edges[|before| + i])
  {
    hide Bits.Get, Visit, Answers;
    list := Changed(board.last, matrix, KB_MATRIX_KEYS);
    VisitedExactlyOnce(board.last, matrix);
    VisitReports(w, board.state, matrix, list);
  }
}
