/** What the layer cache, the layer order and the action lookup keep over every
    sequence of operations. */
module LayoutRuns {
  import opened Layouts

  // ---------- The cache against layers without mirrors ----------

  /** Replace is an index that arrives from outside; Incoming is a layer that does. */
  datatype Op =
    | LookupAt(row: nat, col: nat, layer: nat)
    | Set(layer: nat, l: Layer, stored: bool)
    | Incoming(layer: nat, l: Layer)
    | New
    | Remove(id: nat)
    | Arrange(newOrder: seq<nat>)
    | Replace(active: set<nat>, order: seq<nat>)

  function Step(c: Cache, op: Op): (d: Cache)
    requires c.Shaped()
    ensures d.Shaped()
  {
    match op
    case LookupAt(row, col, layer) => AfterLookup(c, row, col, layer)
    case Set(layer, l, stored) => SetLayer(c, layer, l, stored)
    case Incoming(layer, l) => if layer < CFG_LAYOUT_MAX_COUNT then Store(c, layer, l) else c
    case New => Create(c)
    case Remove(id) => Delete(c, id)
    case Arrange(newOrder) => Reorder(c, newOrder)
    case Replace(active, order) => if IndexShaped(active, order) then ReplaceIndex(c, active, order) else c
  }

  function Run(c: Cache, ops: seq<Op>): (d: Cache)
    requires c.Shaped()
    ensures d.Shaped()
  {
    if ops == [] then c else Step(Run(c, ops[..|ops| - 1]), ops[|ops| - 1])
  }

  /** What there is without mirrors: which layers exist, and sixteen slots. */
  datatype Bare = Bare(active: set<nat>, slots: seq<Layer>)

  function Stripped(c: Cache): Bare {
    Bare(c.active, c.tiers)
  }

  function BareStep(b: Bare, op: Op): (r: Bare)
    requires |b.slots| == CFG_LAYOUT_MAX_COUNT && forall id | id in b.active :: id < CFG_LAYOUT_MAX_COUNT
    ensures |r.slots| == CFG_LAYOUT_MAX_COUNT && forall id | id in r.active :: id < CFG_LAYOUT_MAX_COUNT
  {
    match op
    case Set(layer, l, stored) => if layer in b.active && stored then b.(slots := b.slots[layer := l]) else b
    case Incoming(layer, l) => if layer < CFG_LAYOUT_MAX_COUNT then b.(slots := b.slots[layer := l]) else b
    case New =>
      var id := FreeId(b.active, 1);
      if id < CFG_LAYOUT_MAX_COUNT then Bare(b.active + {id}, b.slots[id := Uniform(KB_KEY_TRANSPARENT)]) else b
    case Remove(id) => if id != 0 && id in b.active then Bare(b.active - {id}, b.slots[id := Uniform(0)]) else b
    case Replace(active, order) => if IndexShaped(active, order) then b.(active := active) else b
    case _ => b
  }

  function BareRun(b: Bare, ops: seq<Op>): (r: Bare)
    requires |b.slots| == CFG_LAYOUT_MAX_COUNT && forall id | id in b.active :: id < CFG_LAYOUT_MAX_COUNT
    ensures |r.slots| == CFG_LAYOUT_MAX_COUNT && forall id | id in r.active :: id < CFG_LAYOUT_MAX_COUNT
  {
    if ops == [] then b else BareStep(BareRun(b, ops[..|ops| - 1]), ops[|ops| - 1])
  }

  /** A lookup without mirrors, with layer 0 for layers that do not exist. */
  function BareLookup(b: Bare, row: nat, col: nat, layer: nat): nat
    requires |b.slots| == CFG_LAYOUT_MAX_COUNT && forall id | id in b.active :: id < CFG_LAYOUT_MAX_COUNT
  {
    if !OnMatrix(row, col) then ACTION_CODE_NONE
    else b.slots[if layer in b.active then layer else 0][KeyIndex(row, col)]
  }

  /** An index from outside keeps the layer that is swapped in at that moment. */
  predicate KeepsSwapped(c: Cache, op: Op) {
    op.Replace? && IndexShaped(op.active, op.order) && c.swapIdx != NONE ==> c.swapIdx in op.active
  }

  predicate AllKeepSwapped(c: Cache, ops: seq<Op>)
    requires c.Shaped()
  {
    ops == [] ||
    (AllKeepSwapped(c, ops[..|ops| - 1]) && KeepsSwapped(Run(c, ops[..|ops| - 1]), ops[|ops| - 1]))
  }

  lemma StepRefines(c: Cache, op: Op)
    requires c.Shaped()
    ensures Stripped(Step(c, op)) == BareStep(Stripped(c), op)
    ensures Coherent(c) && KeepsSwapped(c, op) ==> Coherent(Step(c, op))
  {
    hide FreeId, Position, Without, Padded, Reorderable;
    if Coherent(c) {
      match op {
        case LookupAt(row, col, layer) => LookupRefines(c, row, col, layer);
        case Set(layer, l, stored) =>
          if layer in c.active {
            StoreKeepsCoherence(c, layer, l);
          }
        case Incoming(layer, l) =>
          if layer < CFG_LAYOUT_MAX_COUNT {
            StoreKeepsCoherence(c, layer, l);
          }
        case New => CreateKeepsCoherence(c);
        case Remove(id) => DeleteKeepsCoherence(c, id);
        case Arrange(newOrder) => ReorderKeepsCoherence(c, newOrder);
        case Replace(_, _) =>
      }
    }
  }

  lemma BareLookupIs(c: Cache, row: nat, col: nat, layer: nat)
    requires c.Shaped()
    ensures BareLookup(Stripped(c), row, col, layer) == PlainLookup(Plain(c), row, col, layer)
  {
  }

  /** After any operations in which no index from outside drops the layer swapped in at
      that moment, the mirrors are coherent, the layers are those that the same
      operations leave without mirrors, and every lookup answers as there, with layer 0
      for layers that do not exist. */
  lemma {:induction false} CacheIsPlainMap(c: Cache, ops: seq<Op>, row: nat, col: nat, layer: nat)
    requires Coherent(c) && AllKeepSwapped(c, ops)
    ensures var d, b := Run(c, ops), BareRun(Stripped(c), ops);
            Coherent(d) && Stripped(d) == b && Lookup(d, row, col, layer) == BareLookup(b, row, col, layer)
  {
    assert c.Shaped();
    hide Coherent, Step, BareStep, Lookup, BareLookup, KeepsSwapped;
    if ops != [] {
      CacheIsPlainMap(c, ops[..|ops| - 1], row, col, layer);
      StepRefines(Run(c, ops[..|ops| - 1]), ops[|ops| - 1]);
    }
    LookupRefines(Run(c, ops), row, col, layer);
    BareLookupIs(Run(c, ops), row, col, layer);
  }

  // ---------- When an index from outside is harmless ----------

  /** While a layer that does not exist is swapped in, creating layers brings its id
      back: then lookups show the old codes, not those of the new layer. */
  lemma {:induction false} CreatesMakeStale(c: Cache, row: nat, col: nat) returns (ops: seq<Op>)
    requires c.Shaped() && c.swapIdx != NONE && c.swapIdx !in c.active && OnMatrix(row, col)
    ensures (forall op | op in ops :: op == New) && AllKeepSwapped(c, ops)
    ensures var d := Run(c, ops);
            d.swapIdx == c.swapIdx && d.swapIdx in d.active && Lookup(d, row, col, d.swapIdx) == c.swap[KeyIndex(row, col)] &&
            BareLookup(Stripped(d), row, col, d.swapIdx) == KB_KEY_TRANSPARENT
    decreases c.swapIdx - FreeId(c.active, 1)
  {
    var id := FreeId(c.active, 1);
    var d := Create(c);
    FreeIdIs(c.active, 1, c.swapIdx);
    hide FreeId, Position, KeyIndex;
    ops := [];
    if id < c.swapIdx {
      NextFreeId(c.active, 1);
      ops := CreatesMakeStale(d, row, col);
    }
    RunConcat(c, [New], ops);
    assert [New][..0] == [];
    assert Run(c, [New]) == d;
    NewsKeepSwapped(c, [New] + ops);
    ops := [New] + ops;
  }

  /** The lowest free id is not above any free id. */
  lemma {:induction false} FreeIdIs(active: set<nat>, i: nat, free: nat)
    requires i <= free < CFG_LAYOUT_MAX_COUNT && free !in active
    ensures FreeId(active, i) <= free
    decreases free - i
  {
    if i < free {
      FreeIdIs(active, i + 1, free);
    }
  }

  lemma NextFreeId(active: set<nat>, i: nat)
    requires i <= CFG_LAYOUT_MAX_COUNT && FreeId(active, i) < CFG_LAYOUT_MAX_COUNT
    ensures FreeId(active + {FreeId(active, i)}, i) > FreeId(active, i)
  {
    hide FreeId;
  }

  lemma {:induction false} RunConcat(c: Cache, a: seq<Op>, b: seq<Op>)
    requires c.Shaped()
    ensures Run(c, a + b) == Run(Run(c, a), b)
  {
    if b == [] {
      assert a + b == a;
    } else {
      RunConcat(c, a, b[..|b| - 1]);
      assert (a + b)[..|a + b| - 1] == a + b[..|b| - 1];
      hide Step;
    }
  }

  /** Operations other than Replace keep the layer swapped in. */
  lemma {:induction false} NewsKeepSwapped(c: Cache, ops: seq<Op>)
    requires c.Shaped() && forall op | op in ops :: !op.Replace?
    ensures AllKeepSwapped(c, ops)
  {
    if ops != [] {
      NewsKeepSwapped(c, ops[..|ops| - 1]);
    }
  }

  /** Every lookup after these operations answers as it would without mirrors. */
  ghost predicate AnswersRight(c: Cache, ops: seq<Op>)
    requires c.Shaped()
  {
    forall row: nat, col: nat, layer: nat ::
      Lookup(Run(c, ops), row, col, layer) == BareLookup(BareRun(Stripped(c), ops), row, col, layer)
  }

  /** An index from outside is harmless, whatever follows, exactly when it keeps the
      layer that is swapped in at that moment. */
  lemma ReplaceIndexHarmlessIff(c: Cache, active: set<nat>, order: seq<nat>)
    requires Coherent(c) && IndexShaped(active, order)
    ensures var d := ReplaceIndex(c, active, order);
            (forall ops | AllKeepSwapped(d, ops) :: AnswersRight(d, ops)) <==> c.swapIdx == NONE || c.swapIdx in active
  {
    var d := ReplaceIndex(c, active, order);
    if c.swapIdx == NONE || c.swapIdx in active {
      assert Coherent(d);
      forall ops | AllKeepSwapped(d, ops) ensures AnswersRight(d, ops) {
        forall row: nat, col: nat, layer: nat
          ensures Lookup(Run(d, ops), row, col, layer) == BareLookup(BareRun(Stripped(d), ops), row, col, layer) {
          CacheIsPlainMap(d, ops, row, col, layer);
        }
      }
    } else {
      var ops := HarmfulContinuation(d);
    }
  }

  /** Even if the layer that is swapped in has no code of its own: one more update of it
      from outside, and then layers are created. */
  lemma HarmfulContinuation(d: Cache) returns (ops: seq<Op>)
    requires d.Shaped() && d.swapIdx != NONE && d.swapIdx !in d.active
    ensures AllKeepSwapped(d, ops) && !AnswersRight(d, ops)
  {
    var update := Incoming(d.swapIdx, Uniform(ACTION_CODE_NONE));
    var e := Store(d, d.swapIdx, Uniform(ACTION_CODE_NONE));
    var news := CreatesMakeStale(e, 0, 0);
    ops := [update] + news;
    assert [update][..0] == [];
    assert Run(d, [update]) == e;
    RunConcat(d, [update], news);
    NewsKeepSwapped(d, ops);
    BareRunIs(d, ops);
    var f := Run(d, ops);
    assert Lookup(f, 0, 0, f.swapIdx) != BareLookup(Stripped(f), 0, 0, f.swapIdx);
    hide Run, BareRun, Lookup, BareLookup;
  }

  lemma {:induction false} BareRunIs(c: Cache, ops: seq<Op>)
    requires c.Shaped()
    ensures Stripped(Run(c, ops)) == BareRun(Stripped(c), ops)
  {
    if ops != [] {
      BareRunIs(c, ops[..|ops| - 1]);
      StepRefines(Run(c, ops[..|ops| - 1]), ops[|ops| - 1]);
      hide Step, BareStep;
    }
  }

  // ---------- The order ----------

  function Range(s: seq<nat>): set<nat> {
    set x | x in s
  }

  predicate Distinct(s: seq<nat>) {
    forall i, j | 0 <= i < j < |s| :: s[i] != s[j]
  }

  /** The active layers without repeats, base first, and then only free entries. */
  predicate OrderGood(active: set<nat>, order: seq<nat>) {
    var n := Position(order, NONE, 0);
    |order| == CFG_LAYOUT_MAX_COUNT && order[0] == 0 && Distinct(order[..n]) && Range(order[..n]) == active &&
    forall i | n <= i < |order| :: order[i] == NONE
  }

  lemma {:induction false} Cardinality(s: seq<nat>)
    ensures |Range(s)| <= |s| && (|Range(s)| == |s| <==> Distinct(s))
  {
    if s != [] {
      var m := |s| - 1;
      Cardinality(s[..m]);
      assert s == s[..m] + [s[m]];
      assert Range(s) == Range(s[..m]) + {s[m]};
      hide Range, Distinct;
    }
  }

  lemma {:induction false} Below(n: nat) returns (all: set<nat>)
    ensures |all| == n && forall x: nat :: x in all <==> x < n
  {
    if n == 0 {
      all := {};
    } else {
      all := Below(n - 1);
      assert n - 1 !in all;
      all := all + {n - 1};
    }
  }

  lemma SubsetSize(a: set<nat>, b: set<nat>)
    requires a <= b
    ensures |a| <= |b| && (|a| == |b| ==> a == b)
  {
    assert b == a + (b - a);
    assert |b| == |a| + |b - a|;
    if |a| == |b| {
      assert b - a == {};
    }
  }

  lemma {:induction false} PositionIs(order: seq<nat>, id: nat, i: nat, k: nat)
    requires i <= k <= |order| && (k < |order| ==> order[k] == id) && forall j | i <= j < k :: order[j] != id
    ensures Position(order, id, i) == k
  {
  }

  /** The order has room for a layer that does not exist yet. */
  lemma RoomForMore(active: set<nat>, order: seq<nat>, id: nat)
    requires OrderGood(active, order) && id !in active && id < CFG_LAYOUT_MAX_COUNT && forall x | x in active :: x < CFG_LAYOUT_MAX_COUNT
    ensures 1 <= Position(order, NONE, 0) < CFG_LAYOUT_MAX_COUNT && Position(order, NONE, 1) == Position(order, NONE, 0)
  {
    var n := Position(order, NONE, 0);
    Cardinality(order[..n]);
    var all := Below(CFG_LAYOUT_MAX_COUNT);
    SubsetSize(active + {id}, all);
    PositionIs(order, NONE, 1, n);
  }

  lemma CreateKeepsOrder(c: Cache)
    requires c.Shaped() && OrderGood(c.active, c.order)
    ensures OrderGood(Create(c).active, Create(c).order)
  {
    var id := FreeId(c.active, 1);
    if id < CFG_LAYOUT_MAX_COUNT {
      RoomForMore(c.active, c.order, id);
      var n := Position(c.order, NONE, 0);
      var order := c.order[n := id];
      PositionIs(order, NONE, 0, n + 1);
      hide Position, FreeId;
      assert order[..n + 1] == c.order[..n] + [id];
      assert Range(order[..n + 1]) == Range(c.order[..n]) + {id};
      assert forall i | 0 <= i < n :: c.order[..n][i] in Range(c.order[..n]);
    }
  }

  lemma DeleteKeepsOrder(c: Cache, id: nat)
    requires c.Shaped() && OrderGood(c.active, c.order)
    ensures OrderGood(Delete(c, id).active, Delete(c, id).order)
  {
    if id != 0 && id in c.active {
      var n := Position(c.order, NONE, 0);
      var k := Position(c.order, id, 1);
      assert id in Range(c.order[..n]);
      assert k < n;
      var order := Without(c.order, k);
      hide Without;
      PositionIs(order, NONE, 0, n - 1);
      RangeWithout(c.order, n, k);
      hide Position, Range;
    }
  }

  lemma RangeWithout(order: seq<nat>, n: nat, k: nat)
    requires k < n <= |order| && Distinct(order[..n])
    ensures var front := Without(order, k)[..n - 1];
            Distinct(front) && Range(front) == Range(order[..n]) - {order[k]}
  {
    var front := Without(order, k)[..n - 1];
    hide Without;
    forall x | x in Range(order[..n]) - {order[k]} ensures x in Range(front) {
      var i :| 0 <= i < n && order[..n][i] == x;
      assert front[if i < k then i else i - 1] == x;
    }
    forall x | x in Range(front) ensures x in Range(order[..n]) - {order[k]} {
      var i :| 0 <= i < n - 1 && front[i] == x;
      assert order[..n][if i < k then i else i + 1] == x && order[..n][k] == order[k];
    }
    forall i, j | 0 <= i < j < n - 1 ensures front[i] != front[j] {
      assert order[..n][if i < k then i else i + 1] == front[i] && order[..n][if j < k then j else j + 1] == front[j];
    }
  }

  /** An accepted reordering keeps the order good exactly when it repeats no id. */
  lemma ReorderKeepsOrderIff(c: Cache, newOrder: seq<nat>)
    requires c.Shaped() && 0 in c.active && Reorderable(c, newOrder)
    ensures OrderGood(c.active, Reorder(c, newOrder).order) <==> Distinct(newOrder)
  {
    var n := |newOrder|;
    var order := Padded(newOrder);
    assert order[..n] == newOrder;
    assert forall i | 0 <= i < n :: newOrder[i] in c.active;
    PositionIs(order, NONE, 0, n);
    Cardinality(newOrder);
    assert Range(newOrder) <= c.active;
    SubsetSize(Range(newOrder), c.active);
    hide Position, Padded;
  }

  /** Repeats are accepted: this one loses layer 2. */
  lemma ReorderAcceptsRepeats(c: Cache)
    requires c.Shaped() && c.active == {0, 1, 2}
    ensures Reorderable(c, [0, 1, 1]) && !OrderGood(c.active, Reorder(c, [0, 1, 1]).order) && 2 !in Reorder(c, [0, 1, 1]).order
  {
    ReorderKeepsOrderIff(c, [0, 1, 1]);
    assert [0, 1, 1][1] == [0, 1, 1][2];
    hide Padded, OrderGood;
  }

  /** The layers in their order. */
  function Listed(order: seq<nat>): seq<nat> {
    order[..Position(order, NONE, 0)]
  }

  /** A new layer comes last in the order; the others keep their places. */
  lemma CreateAppends(c: Cache)
    requires c.Shaped() && OrderGood(c.active, c.order) && FreeId(c.active, 1) < CFG_LAYOUT_MAX_COUNT
    ensures Listed(Create(c).order) == Listed(c.order) + [FreeId(c.active, 1)]
  {
    var id := FreeId(c.active, 1);
    RoomForMore(c.active, c.order, id);
    var n := Position(c.order, NONE, 0);
    PositionIs(c.order[n := id], NONE, 0, n + 1);
    hide Position, FreeId;
  }

  /** A deleted layer is taken out of the order; the others keep their order. */
  lemma DeleteTakesOut(c: Cache, id: nat) returns (k: nat)
    requires c.Shaped() && OrderGood(c.active, c.order) && id != 0 && id in c.active
    ensures k < |Listed(c.order)| && Listed(c.order)[k] == id
    ensures Listed(Delete(c, id).order) == Listed(c.order)[..k] + Listed(c.order)[k + 1..]
  {
    var n := Position(c.order, NONE, 0);
    k := Position(c.order, id, 1);
    assert id in Range(c.order[..n]);
    assert k < n;
    var order := Without(c.order, k);
    hide Without;
    PositionIs(order, NONE, 0, n - 1);
    hide Position;
  }

  /** An accepted reordering is the order from then on. */
  lemma ReorderTakes(c: Cache, newOrder: seq<nat>)
    requires c.Shaped() && Reorderable(c, newOrder)
    ensures Listed(Reorder(c, newOrder).order) == newOrder
  {
    PositionIs(Padded(newOrder), NONE, 0, |newOrder|);
    hide Position, Padded;
  }

  /** Reorderings repeat no id, and an index from outside has a good order. */
  predicate GoodOrders(ops: seq<Op>) {
    forall op | op in ops ::
      (op.Arrange? ==> Distinct(op.newOrder)) && (op.Replace? && IndexShaped(op.active, op.order) ==> OrderGood(op.active, op.order))
  }

  /** The order stays good over any operations whose reorderings repeat no id. */
  lemma {:induction false} OrderStaysGood(c: Cache, ops: seq<Op>)
    requires c.Shaped() && OrderGood(c.active, c.order) && GoodOrders(ops)
    ensures OrderGood(Run(c, ops).active, Run(c, ops).order)
  {
    if ops != [] {
      var before := ops[..|ops| - 1];
      var d := Run(c, before);
      OrderStaysGood(c, before);
      BaseInOrder(d.active, d.order);
      hide OrderGood, Create, Delete, Reorder, Run;
      match ops[|ops| - 1] {
        case New => CreateKeepsOrder(d);
        case Remove(id) => DeleteKeepsOrder(d, id);
        case Arrange(newOrder) =>
          if Reorderable(d, newOrder) {
            ReorderKeepsOrderIff(d, newOrder);
          }
        case _ =>
      }
      RunThen(c, ops);
    }
  }

  lemma BaseInOrder(active: set<nat>, order: seq<nat>)
    requires OrderGood(active, order)
    ensures 0 in active
  {
    var n := Position(order, NONE, 0);
    assert order[..n][0] in Range(order[..n]);
  }

  lemma RunThen(c: Cache, ops: seq<Op>)
    requires c.Shaped() && ops != []
    ensures Run(c, ops) == Step(Run(c, ops[..|ops| - 1]), ops[|ops| - 1])
  {
  }

  // ---------- The action lookup ----------

  /** The order entry at position p names a masked layer with a code of its own. */
  predicate Visible(c: Cache, row: nat, col: nat, mask: set<nat>, p: nat)
    requires Coherent(c)
  {
    p < CFG_LAYOUT_MAX_COUNT && c.order[p] != NONE && c.order[p] in mask &&
    PlainLookup(Plain(c), row, col, c.order[p]) != KB_KEY_TRANSPARENT
  }

  /** The code of the highest visible position below i, or of the base layer. */
  predicate Topmost(c: Cache, row: nat, col: nat, mask: set<nat>, i: nat, code: nat)
    requires Coherent(c)
  {
    (forall p | 0 <= p < i && Visible(c, row, col, mask, p) && (forall q | p < q < i :: !Visible(c, row, col, mask, q)) ::
       code == PlainLookup(Plain(c), row, col, c.order[p])) &&
    ((forall p | 0 <= p < i :: !Visible(c, row, col, mask, p)) ==> code == PlainLookup(Plain(c), row, col, 0))
  }

  lemma TopmostSame(c: Cache, d: Cache, row: nat, col: nat, mask: set<nat>, i: nat, code: nat)
    requires Coherent(c) && Coherent(d) && Plain(c) == Plain(d) && c.order == d.order && Topmost(d, row, col, mask, i, code)
    ensures Topmost(c, row, col, mask, i, code)
  {
    assert forall p: nat :: Visible(c, row, col, mask, p) == Visible(d, row, col, mask, p);
    hide Coherent, Plain, PlainLookup;
  }

  lemma TopmostSkip(c: Cache, row: nat, col: nat, mask: set<nat>, i: nat, code: nat)
    requires Coherent(c) && 0 < i <= CFG_LAYOUT_MAX_COUNT && !Visible(c, row, col, mask, i - 1) && Topmost(c, row, col, mask, i - 1, code)
    ensures Topmost(c, row, col, mask, i, code)
  {
    hide Coherent, Plain, PlainLookup, Visible;
  }

  lemma TopmostHere(c: Cache, row: nat, col: nat, mask: set<nat>, i: nat)
    requires Coherent(c) && 0 < i <= CFG_LAYOUT_MAX_COUNT && Visible(c, row, col, mask, i - 1)
    ensures 0 in Plain(c) && Topmost(c, row, col, mask, i, PlainLookup(Plain(c), row, col, c.order[i - 1]))
  {
    hide Coherent, Plain, PlainLookup, Visible;
  }

  /** Stack fall-through returns the first code that is not transparent, from the
      highest masked position down, and the base layer's code when there is none. */
  lemma {:induction false} StackFindsTopmost(c: Cache, row: nat, col: nat, mask: set<nat>, i: nat)
    requires Coherent(c) && i <= CFG_LAYOUT_MAX_COUNT
    ensures var (d, code) := StackSearch(c, row, col, mask, i);
            Coherent(d) && Plain(d) == Plain(c) && d.order == c.order && Topmost(c, row, col, mask, i, code)
    decreases i
  {
    assert c.Shaped();
    hide Coherent, Lookup, AfterLookup, PlainLookup, Plain;
    if i == 0 {
      LookupRefines(c, row, col, 0);
    } else {
      var id := c.order[i - 1];
      LookupRefines(c, row, col, id);
      hide Topmost;
      if id == NONE || id !in mask {
        StackFindsTopmost(c, row, col, mask, i - 1);
        TopmostSkip(c, row, col, mask, i, StackSearch(c, row, col, mask, i).1);
      } else if Lookup(c, row, col, id) == KB_KEY_TRANSPARENT {
        var d := AfterLookup(c, row, col, id);
        StackFindsTopmost(d, row, col, mask, i - 1);
        TopmostSame(c, d, row, col, mask, i - 1, StackSearch(d, row, col, mask, i - 1).1);
        TopmostSkip(c, row, col, mask, i, StackSearch(c, row, col, mask, i).1);
      } else {
        TopmostHere(c, row, col, mask, i);
      }
    }
  }

  /** With a good order that covers all active layers: if any active masked layer has a
      code of its own at this key, one such code is found. */
  lemma StackMissesNothing(c: Cache, row: nat, col: nat, mask: set<nat>, id: nat)
    requires Coherent(c) && OrderGood(c.active, c.order) && id in c.active * mask
    requires PlainLookup(Plain(c), row, col, id) != KB_KEY_TRANSPARENT
    ensures var code := StackSearch(c, row, col, mask, CFG_LAYOUT_MAX_COUNT).1;
            exists p :: 0 <= p && Visible(c, row, col, mask, p) && c.order[p] in c.active && code == PlainLookup(Plain(c), row, col, c.order[p])
  {
    var n := Position(c.order, NONE, 0);
    assert id in Range(c.order[..n]);
    var k :| 0 <= k < n && c.order[..n][k] == id;
    assert forall p | 0 <= p < n :: c.order[..n][p] in Range(c.order[..n]);
    assert Visible(c, row, col, mask, k);
    var p := Highest(c, row, col, mask, CFG_LAYOUT_MAX_COUNT, k);
    StackFindsTopmost(c, row, col, mask, CFG_LAYOUT_MAX_COUNT);
    hide StackSearch, PlainLookup, Position;
  }

  lemma {:induction false} Highest(c: Cache, row: nat, col: nat, mask: set<nat>, i: nat, k: nat) returns (p: nat)
    requires Coherent(c) && i <= CFG_LAYOUT_MAX_COUNT && k < i && Visible(c, row, col, mask, k)
    ensures p < i && Visible(c, row, col, mask, p) && forall q | p < q < i :: !Visible(c, row, col, mask, q)
  {
    hide Visible;
    if Visible(c, row, col, mask, i - 1) {
      p := i - 1;
    } else {
      p := Highest(c, row, col, mask, i - 1, k);
    }
  }

  predicate Masked(order: seq<nat>, mask: set<nat>, p: nat)
    requires p < |order|
  {
    order[p] != NONE && order[p] in mask
  }

  /** The layer in the highest masked position below i, or layer 0 when there is none. */
  predicate IsTop(order: seq<nat>, mask: set<nat>, i: nat, top: nat)
    requires i <= |order|
  {
    (exists p | 0 <= p < i :: Masked(order, mask, p) && top == order[p] && forall q | p < q < i :: !Masked(order, mask, q)) ||
    (top == 0 && forall p | 0 <= p < i :: !Masked(order, mask, p))
  }

  lemma {:induction false} TopLayerIs(order: seq<nat>, mask: set<nat>, i: nat)
    requires i <= |order|
    ensures IsTop(order, mask, i, TopLayer(order, mask, i))
  {
    if i > 0 {
      TopLayerIs(order, mask, i - 1);
      if Masked(order, mask, i - 1) {
        assert TopLayer(order, mask, i) == order[i - 1];
      }
    }
  }

  /** Direct fallback returns the code of the layer in the highest masked position, or
      the base layer's code when that is transparent or no position is masked. */
  lemma DirectFallsToBase(c: Cache, row: nat, col: nat, mask: set<nat>, top: nat)
    requires Coherent(c) && IsTop(c.order, mask, CFG_LAYOUT_MAX_COUNT, top)
    ensures var (d, code) := DirectSearch(c, row, col, mask);
            var own := PlainLookup(Plain(c), row, col, top);
            Coherent(d) && Plain(d) == Plain(c) &&
            code == if own != KB_KEY_TRANSPARENT then own else PlainLookup(Plain(c), row, col, 0)
  {
    TopLayerIs(c.order, mask, CFG_LAYOUT_MAX_COUNT);
    hide Coherent, Lookup, AfterLookup, PlainLookup, Plain, TopLayer, Masked;
    TopIsUnique(c.order, mask, CFG_LAYOUT_MAX_COUNT, top, TopLayer(c.order, mask, CFG_LAYOUT_MAX_COUNT));
    LookupRefines(c, row, col, top);
    LookupRefines(AfterLookup(c, row, col, top), row, col, 0);
  }

  lemma TopIsUnique(order: seq<nat>, mask: set<nat>, i: nat, a: nat, b: nat)
    requires i <= |order| && IsTop(order, mask, i, a) && IsTop(order, mask, i, b)
    ensures a == b
  {
    hide Masked;
  }
}
