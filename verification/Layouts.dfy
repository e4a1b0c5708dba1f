/** The layer cache and the layer order (components/config_module/cfg_layouts.c)
    and the action lookup over them (components/keyboard/kb_layout.c). */
module Layouts {
  import opened KeyMatrix
  import opened Options

  const CFG_LAYOUT_MAX_COUNT: nat := 16
  const KB_KEY_TRANSPARENT: nat := 0xFFFF
  const ACTION_CODE_NONE: nat := 0
  /** No layer: in the swap index and in free order entries. */
  const NONE: nat := 0xFF

  /** cfg_layer_t, row by row. */
  type Layer = l: seq<nat> | |l| == KB_MATRIX_KEYS witness seq(KB_MATRIX_KEYS, i => 0)

  /** A layer with the same code everywhere. */
  function Uniform(code: nat): (l: Layer)
    ensures forall i | 0 <= i < KB_MATRIX_KEYS :: l[i] == code
  {
    seq(KB_MATRIX_KEYS, i => code)
  }

  /** The PSRAM cache (tiers), its DRAM mirrors and the layer index. */
  datatype Cache = Cache(
    active: set<nat>,      // the bits of active_mask
    order: seq<nat>,
    base: Layer,
    swap: Layer,
    swapIdx: nat,
    tiers: seq<Layer>
  ) {
    predicate Shaped() {
      |tiers| == CFG_LAYOUT_MAX_COUNT && |order| == CFG_LAYOUT_MAX_COUNT &&
      (swapIdx == NONE || 0 < swapIdx < CFG_LAYOUT_MAX_COUNT) &&
      forall id | id in active :: id < CFG_LAYOUT_MAX_COUNT
    }
  }

  predicate OnMatrix(row: nat, col: nat) {
    row < KB_MATRIX_ROW_COUNT && col < KB_MATRIX_COL_COUNT
  }

  function KeyIndex(row: nat, col: nat): (k: nat)
    requires OnMatrix(row, col)
    ensures k < KB_MATRIX_KEYS
  {
    row * KB_MATRIX_COL_COUNT + col
  }

  // ---------- The operations ----------

  /** The layer that a lookup really asks. */
  function Effective(c: Cache, layer: nat): nat {
    if layer in c.active then layer else 0
  }

  /** cfg_layout_get_action_code: the cache afterwards. */
  function AfterLookup(c: Cache, row: nat, col: nat, layer: nat): (d: Cache)
    requires c.Shaped()
    ensures d.Shaped()
  {
    var id := Effective(c, layer);
    if !OnMatrix(row, col) || id == 0 || id == c.swapIdx then c
    else c.(swap := c.tiers[id], swapIdx := id)
  }

  /** cfg_layout_get_action_code: the code. */
  function Lookup(c: Cache, row: nat, col: nat, layer: nat): nat
    requires c.Shaped()
  {
    var id := Effective(c, layer);
    if !OnMatrix(row, col) then ACTION_CODE_NONE
    else if id == 0 then c.base[KeyIndex(row, col)]
    else if id == c.swapIdx then c.swap[KeyIndex(row, col)]
    else c.tiers[id][KeyIndex(row, col)]
  }

  /** The cache part of cfg_layout_set_layer and of a layer update from outside. */
  function Store(c: Cache, layer: nat, l: Layer): (d: Cache)
    requires c.Shaped() && layer < CFG_LAYOUT_MAX_COUNT
    ensures d.Shaped()
  {
    c.(tiers := c.tiers[layer := l],
       base := if layer == 0 then l else c.base,
       swap := if layer == c.swapIdx then l else c.swap)
  }

  function SetLayer(c: Cache, layer: nat, l: Layer, stored: bool): (d: Cache)
    requires c.Shaped()
    ensures d.Shaped()
  {
    if layer in c.active && stored then Store(c, layer, l) else c
  }

  /** The lowest id from i on without a layer. */
  function FreeId(active: set<nat>, i: nat): (id: nat)
    requires i <= CFG_LAYOUT_MAX_COUNT
    ensures i <= id <= CFG_LAYOUT_MAX_COUNT && (id < CFG_LAYOUT_MAX_COUNT ==> id !in active)
    ensures forall k | i <= k < id :: k in active
    decreases CFG_LAYOUT_MAX_COUNT - i
  {
    if i == CFG_LAYOUT_MAX_COUNT || i !in active then i else FreeId(active, i + 1)
  }

  /** The first position from i on that shows id, or the end. */
  function Position(order: seq<nat>, id: nat, i: nat): (k: nat)
    requires i <= |order|
    ensures i <= k <= |order| && (k < |order| ==> order[k] == id)
    ensures forall j | i <= j < k :: order[j] != id
    decreases |order| - i
  {
    if i == |order| || order[i] == id then i else Position(order, id, i + 1)
  }

  function Create(c: Cache): (d: Cache)
    requires c.Shaped()
    ensures d.Shaped()
  {
    var id := FreeId(c.active, 1);
    if id == CFG_LAYOUT_MAX_COUNT then c
    else
      var k := Position(c.order, NONE, 1);
      c.(active := c.active + {id},
         order := if k < |c.order| then c.order[k := id] else c.order,
         tiers := c.tiers[id := Uniform(KB_KEY_TRANSPARENT)])
  }

  /** The entries after position k move down by one. */
  function Without(order: seq<nat>, k: nat): (r: seq<nat>)
    requires k < |order|
    ensures |r| == |order|
    ensures forall j | 0 <= j < |order| :: r[j] == if j < k then order[j] else if j < |order| - 1 then order[j + 1] else NONE
  {
    seq(|order|, j requires 0 <= j < |order| => if j < k then order[j] else if j < |order| - 1 then order[j + 1] else NONE)
  }

  function Delete(c: Cache, id: nat): (d: Cache)
    requires c.Shaped()
    ensures d.Shaped()
  {
    if id == 0 || id !in c.active then c
    else
      var k := Position(c.order, id, 1);
      c.(active := c.active - {id},
         order := if k < |c.order| then Without(c.order, k) else c.order,
         tiers := c.tiers[id := Uniform(0)],
         swapIdx := if id == c.swapIdx then NONE else c.swapIdx,
         swap := if id == c.swapIdx then Uniform(0) else c.swap)
  }

  predicate Reorderable(c: Cache, newOrder: seq<nat>) {
    |newOrder| <= CFG_LAYOUT_MAX_COUNT && (newOrder != [] ==> newOrder[0] == 0) &&
    (forall i | 0 <= i < |newOrder| :: newOrder[i] in c.active) && |newOrder| == |c.active|
  }

  function Padded(s: seq<nat>): (r: seq<nat>)
    requires |s| <= CFG_LAYOUT_MAX_COUNT
    ensures |r| == CFG_LAYOUT_MAX_COUNT
    ensures forall i | 0 <= i < |r| :: r[i] == if i < |s| then s[i] else NONE
  {
    s + seq(CFG_LAYOUT_MAX_COUNT - |s|, i => NONE)
  }

  function Reorder(c: Cache, newOrder: seq<nat>): (d: Cache)
    requires c.Shaped()
    ensures d.Shaped()
  {
    if Reorderable(c, newOrder) then c.(order := Padded(newOrder)) else c
  }

  predicate IndexShaped(active: set<nat>, order: seq<nat>) {
    |order| == CFG_LAYOUT_MAX_COUNT && forall id | id in active :: id < CFG_LAYOUT_MAX_COUNT
  }

  /** An index that arrives from outside replaces the index as it is. */
  function ReplaceIndex(c: Cache, active: set<nat>, order: seq<nat>): (d: Cache)
    requires c.Shaped() && IndexShaped(active, order)
    ensures d.Shaped()
  {
    c.(active := active, order := order)
  }

  function LoadedTiers(active: set<nat>, layers: seq<Layer>): (tiers: seq<Layer>)
    requires |layers| == CFG_LAYOUT_MAX_COUNT
    ensures |tiers| == CFG_LAYOUT_MAX_COUNT
    ensures forall i | 0 <= i < CFG_LAYOUT_MAX_COUNT :: tiers[i] == if i in active then layers[i] else Uniform(0)
  {
    seq(CFG_LAYOUT_MAX_COUNT, i requires 0 <= i < CFG_LAYOUT_MAX_COUNT => if i in active then layers[i] else Uniform(0))
  }

  /** The cache after cfg_layout_load_all has read these layers and this index. */
  function Loaded(active: set<nat>, order: seq<nat>, layers: seq<Layer>): (c: Cache)
    requires |layers| == |order| == CFG_LAYOUT_MAX_COUNT && forall id | id in active :: id < CFG_LAYOUT_MAX_COUNT
    ensures c.Shaped()
  {
    Cache(active + {0}, order[0 := 0], layers[0], Uniform(0), NONE, LoadedTiers(active + {0}, layers))
  }

  // ---------- The cache behind its methods ----------

  class LayerCache {
    var active: set<nat>
    var order: array<nat>
    var base: Layer
    var swap: Layer
    var swapIdx: nat
    var tiers: array<Layer>

    ghost predicate Valid()
      reads this, order, tiers
    {
      order.Length == CFG_LAYOUT_MAX_COUNT && tiers.Length == CFG_LAYOUT_MAX_COUNT &&
      Cache(active, order[..], base, swap, swapIdx, tiers[..]).Shaped()
    }

    ghost function View(): (c: Cache)
      requires Valid()
      reads this, order, tiers
      ensures c.Shaped()
    {
      Cache(active, order[..], base, swap, swapIdx, tiers[..])
    }

    /** cfg_layout_load_all at start. */
    constructor (activeMask: set<nat>, storedOrder: seq<nat>, layers: seq<Layer>)
      requires |layers| == |storedOrder| == CFG_LAYOUT_MAX_COUNT && forall id | id in activeMask :: id < CFG_LAYOUT_MAX_COUNT
      ensures Valid() && fresh(order) && fresh(tiers) && View() == Loaded(activeMask, storedOrder, layers)
    {
      active := activeMask + {0};
      order := new nat[CFG_LAYOUT_MAX_COUNT](i requires 0 <= i < CFG_LAYOUT_MAX_COUNT => if i == 0 then 0 else storedOrder[i]);
      base, swap, swapIdx := layers[0], Uniform(0), NONE;
      tiers := new Layer[CFG_LAYOUT_MAX_COUNT](i => Uniform(0));
      new;
      for i := 0 to CFG_LAYOUT_MAX_COUNT
        invariant order.Length == CFG_LAYOUT_MAX_COUNT && tiers.Length == CFG_LAYOUT_MAX_COUNT
        invariant fresh(order) && fresh(tiers)
        invariant active == activeMask + {0} && base == layers[0] && swap == Uniform(0) && swapIdx == NONE
        invariant order[..] == storedOrder[0 := 0]
        invariant forall j | 0 <= j < CFG_LAYOUT_MAX_COUNT :: tiers[j] == if j < i && j in active then layers[j] else Uniform(0)
      {
        if i in active {
          tiers[i] := layers[i];
        }
      }
      assert tiers[..] == Loaded(activeMask, storedOrder, layers).tiers;
    }

    method GetActionCode(row: nat, col: nat, layer: nat) returns (code: nat)
      requires Valid()
      modifies this`swap, this`swapIdx
      ensures Valid() && View() == AfterLookup(old(View()), row, col, layer) && code == Lookup(old(View()), row, col, layer)
    {
      if row >= KB_MATRIX_ROW_COUNT || col >= KB_MATRIX_COL_COUNT {
        return ACTION_CODE_NONE;
      }
      var id := if layer >= CFG_LAYOUT_MAX_COUNT || layer !in active then 0 else layer;
      if id == 0 {
        code := base[KeyIndex(row, col)];
      } else if id == swapIdx {
        code := swap[KeyIndex(row, col)];
      } else {
        swap := tiers[id];
        swapIdx := id;
        code := swap[KeyIndex(row, col)];
      }
    }

    method GetLayer(layer: nat) returns (l: Option<Layer>)
      requires Valid()
      ensures l == if layer in active then Some(View().tiers[layer]) else None
    {
      if layer >= CFG_LAYOUT_MAX_COUNT || layer !in active {
        return None;
      }
      return Some(tiers[layer]);
    }

    method StoreLayer(layer: nat, l: Layer)
      requires Valid() && layer < CFG_LAYOUT_MAX_COUNT
      modifies this`base, this`swap, tiers
      ensures Valid() && View() == Store(old(View()), layer, l)
    {
      tiers[layer] := l;
      if layer == 0 {
        base := l;
      }
      if layer == swapIdx {
        swap := l;
      }
    }

    method PutLayer(layer: nat, l: Layer, stored: bool) returns (ok: bool)
      requires Valid()
      modifies this`base, this`swap, tiers
      ensures Valid() && View() == SetLayer(old(View()), layer, l, stored) && ok == (layer in active && stored)
    {
      if layer >= CFG_LAYOUT_MAX_COUNT || layer !in active {
        return false;
      }
      if stored {
        StoreLayer(layer, l);
      }
      return stored;
    }

    method CreateLayer() returns (created: Option<nat>)
      requires Valid()
      modifies this`active, order, tiers
      ensures Valid() && View() == Create(old(View()))
      ensures created == if FreeId(old(active), 1) == CFG_LAYOUT_MAX_COUNT then None else Some(FreeId(old(active), 1))
    {
      var id := 1;
      while id < CFG_LAYOUT_MAX_COUNT && id in active
        invariant 1 <= id <= CFG_LAYOUT_MAX_COUNT
        invariant FreeId(active, 1) == FreeId(active, id)
      {
        id := id + 1;
      }
      if id == CFG_LAYOUT_MAX_COUNT {
        return None;
      }
      active := active + {id};
      var i := 1;
      while i < CFG_LAYOUT_MAX_COUNT && order[i] != NONE
        invariant 1 <= i <= CFG_LAYOUT_MAX_COUNT
        invariant Position(order[..], NONE, 1) == Position(order[..], NONE, i)
      {
        i := i + 1;
      }
      if i < CFG_LAYOUT_MAX_COUNT {
        order[i] := id;
      }
      tiers[id] := Uniform(KB_KEY_TRANSPARENT);
      return Some(id);
    }

    method RemoveFromOrder(id: nat)
      requires Valid()
      modifies order
      ensures Valid() && order[..] == var k := Position(old(order[..]), id, 1); if k < CFG_LAYOUT_MAX_COUNT then Without(old(order[..]), k) else old(order[..])
    {
      var k := 1;
      while k < CFG_LAYOUT_MAX_COUNT && order[k] != id
        invariant 1 <= k <= CFG_LAYOUT_MAX_COUNT
        invariant Position(order[..], id, 1) == Position(order[..], id, k)
      {
        k := k + 1;
      }
      if k < CFG_LAYOUT_MAX_COUNT {
        ghost var was := order[..];
        for i := k to CFG_LAYOUT_MAX_COUNT - 1
          invariant forall j | 0 <= j < k :: order[j] == was[j]
          invariant forall j | k <= j < i :: order[j] == was[j + 1]
          invariant forall j | i <= j < CFG_LAYOUT_MAX_COUNT :: order[j] == was[j]
        {
          order[i] := order[i + 1];
        }
        order[CFG_LAYOUT_MAX_COUNT - 1] := NONE;
        assert order[..] == Without(was, k);
      }
    }

    method DeleteLayer(id: nat) returns (ok: bool)
      requires Valid()
      modifies this`active, this`swap, this`swapIdx, order, tiers
      ensures Valid() && View() == Delete(old(View()), id) && ok == (id != 0 && id in old(active))
    {
      if id == 0 || id >= CFG_LAYOUT_MAX_COUNT || id !in active {
        return false;
      }
      active := active - {id};
      RemoveFromOrder(id);
      tiers[id] := Uniform(0);
      if id == swapIdx {
        swapIdx := NONE;
        swap := Uniform(0);
      }
      return true;
    }

    method ReorderLayers(newOrder: seq<nat>) returns (ok: bool)
      requires Valid()
      modifies order
      ensures Valid() && View() == Reorder(old(View()), newOrder) && ok == Reorderable(old(View()), newOrder)
    {
      if |newOrder| > CFG_LAYOUT_MAX_COUNT || (|newOrder| > 0 && newOrder[0] != 0) {
        return false;
      }
      for i := 0 to |newOrder|
        invariant forall j | 0 <= j < i :: newOrder[j] in active
      {
        if newOrder[i] >= CFG_LAYOUT_MAX_COUNT || newOrder[i] !in active {
          return false;
        }
      }
      if |newOrder| != |active| {
        return false;
      }
      forall i | 0 <= i < CFG_LAYOUT_MAX_COUNT {
        order[i] := if i < |newOrder| then newOrder[i] else NONE;
      }
      assert order[..] == Padded(newOrder);
      return true;
    }

    /** The index part of layout_update_cb. */
    method TakeIndex(newActive: set<nat>, newOrder: seq<nat>)
      requires Valid() && IndexShaped(newActive, newOrder)
      modifies this`active, order
      ensures Valid() && View() == ReplaceIndex(old(View()), newActive, newOrder)
    {
      active := newActive;
      forall i | 0 <= i < order.Length {
        order[i] := newOrder[i];
      }
      assert order[..] == newOrder;
    }

    /** kb_layout_get_action_code with direct-to-base fallback. */
    method DirectCode(row: nat, col: nat, mask: set<nat>) returns (code: nat)
      requires Valid()
      modifies this`swap, this`swapIdx
      ensures Valid() && DirectSearch(old(View()), row, col, mask) == (View(), code)
    {
      var top := 0;
      var i := CFG_LAYOUT_MAX_COUNT;
      while i > 0
        invariant 0 <= i <= CFG_LAYOUT_MAX_COUNT && top == 0
        invariant TopLayer(order[..], mask, CFG_LAYOUT_MAX_COUNT) == TopLayer(order[..], mask, i)
      {
        var id := order[i - 1];
        if id != NONE && id in mask {
          top := id;
          break;
        }
        i := i - 1;
      }
      assert top == TopLayer(order[..], mask, CFG_LAYOUT_MAX_COUNT);
      code := GetActionCode(row, col, top);
      if code == KB_KEY_TRANSPARENT && top != 0 {
        code := GetActionCode(row, col, 0);
      }
    }

    /** kb_layout_get_action_code with stack fall-through. */
    method StackCode(row: nat, col: nat, mask: set<nat>) returns (code: nat)
      requires Valid()
      modifies this`swap, this`swapIdx
      ensures Valid() && StackSearch(old(View()), row, col, mask, CFG_LAYOUT_MAX_COUNT) == (View(), code)
    {
      hide Lookup, AfterLookup;
      var i := CFG_LAYOUT_MAX_COUNT;
      while i > 0
        invariant 0 <= i <= CFG_LAYOUT_MAX_COUNT && Valid()
        invariant StackSearch(old(View()), row, col, mask, CFG_LAYOUT_MAX_COUNT) == StackSearch(View(), row, col, mask, i)
      {
        var id := order[i - 1];
        if id != NONE && id in mask {
          code := GetActionCode(row, col, id);
          if code != KB_KEY_TRANSPARENT {
            return;
          }
        }
        i := i - 1;
      }
      code := GetActionCode(row, col, 0);
    }
  }

  /** The masked layer of the highest position below i, or the base layer. */
  function TopLayer(order: seq<nat>, mask: set<nat>, i: nat): nat
    requires i <= |order|
  {
    if i == 0 then 0
    else if order[i - 1] != NONE && order[i - 1] in mask then order[i - 1]
    else TopLayer(order, mask, i - 1)
  }

  function DirectSearch(c: Cache, row: nat, col: nat, mask: set<nat>): (Cache, nat)
    requires c.Shaped()
  {
    var top := TopLayer(c.order, mask, CFG_LAYOUT_MAX_COUNT);
    var code := Lookup(c, row, col, top);
    var after := AfterLookup(c, row, col, top);
    if code == KB_KEY_TRANSPARENT && top != 0 then (AfterLookup(after, row, col, 0), Lookup(after, row, col, 0)) else (after, code)
  }

  function StackSearch(c: Cache, row: nat, col: nat, mask: set<nat>, i: nat): (Cache, nat)
    requires c.Shaped() && i <= CFG_LAYOUT_MAX_COUNT
    decreases i
  {
    if i == 0 then (AfterLookup(c, row, col, 0), Lookup(c, row, col, 0))
    else
      var id := c.order[i - 1];
      if id == NONE || id !in mask then StackSearch(c, row, col, mask, i - 1)
      else
        var code := Lookup(c, row, col, id);
        if code != KB_KEY_TRANSPARENT then (AfterLookup(c, row, col, id), code)
        else StackSearch(AfterLookup(c, row, col, id), row, col, mask, i - 1)
  }

  // ---------- Coherence: the cache stands for a plain map ----------

  /** The mirrors agree with the tiers, and only a layer that exists is swapped in. */
  predicate Coherent(c: Cache) {
    c.Shaped() && c.base == c.tiers[0] &&
    (c.swapIdx != NONE ==> c.swapIdx in c.active && c.swap == c.tiers[c.swapIdx])
  }

  /** The layers without any cache; the base layer is always there. */
  function Plain(c: Cache): (m: map<nat, Layer>)
    requires c.Shaped()
    ensures m.Keys == c.active + {0}
    ensures forall id | id in c.active + {0} :: m[id] == c.tiers[id]
  {
    map id | id in c.active + {0} :: c.tiers[id]
  }

  /** A lookup in a plain map, with layer 0 for layers that do not exist. */
  function PlainLookup(m: map<nat, Layer>, row: nat, col: nat, layer: nat): nat
    requires 0 in m
  {
    if !OnMatrix(row, col) then ACTION_CODE_NONE
    else m[if layer in m then layer else 0][KeyIndex(row, col)]
  }

  lemma LoadedIsCoherent(active: set<nat>, order: seq<nat>, layers: seq<Layer>)
    requires |layers| == |order| == CFG_LAYOUT_MAX_COUNT && forall id | id in active :: id < CFG_LAYOUT_MAX_COUNT
    ensures Coherent(Loaded(active, order, layers))
    ensures forall id | id in active + {0} :: Plain(Loaded(active, order, layers))[id] == layers[id]
  {
  }

  /** A lookup answers like the plain map and changes no layer. */
  lemma LookupRefines(c: Cache, row: nat, col: nat, layer: nat)
    requires Coherent(c)
    ensures Lookup(c, row, col, layer) == PlainLookup(Plain(c), row, col, layer)
    ensures Coherent(AfterLookup(c, row, col, layer)) && Plain(AfterLookup(c, row, col, layer)) == Plain(c)
    ensures AfterLookup(c, row, col, layer).order == c.order
  {
  }

  /** Storing a layer, also one that does not exist, keeps the mirrors right. */
  lemma StoreKeepsCoherence(c: Cache, layer: nat, l: Layer)
    requires Coherent(c) && layer < CFG_LAYOUT_MAX_COUNT
    ensures Coherent(Store(c, layer, l))
  {
  }

  lemma CreateKeepsCoherence(c: Cache)
    requires Coherent(c)
    ensures Coherent(Create(c))
  {
    hide FreeId, Position;
  }

  lemma DeleteKeepsCoherence(c: Cache, id: nat)
    requires Coherent(c)
    ensures Coherent(Delete(c, id))
  {
    hide Position, Without;
  }

  lemma ReorderKeepsCoherence(c: Cache, newOrder: seq<nat>)
    requires Coherent(c)
    ensures Coherent(Reorder(c, newOrder))
  {
    hide Padded;
  }
}
