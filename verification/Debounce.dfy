/** Eager debouncing (components/keyboard/kb_debounce.c) between the matrix scan
    and the merge of the remote half (components/keyboard/kb_manager.c). */
module Debounce {
  import Bits
  import opened KeyMatrix

  const BITMAP_BITS: nat := 112
  const PRESS_CONFIRM_SCANS: nat := 1
  const RELEASE_DEBOUNCE_SCANS: nat := 5

  /** One counter per key, one bit per bitmap position. */
  datatype State = State(counters: seq<nat>, stable: seq<bool>) {
    predicate Shaped() {
      |counters| == KB_MATRIX_KEYS && |stable| == BITMAP_BITS
    }
  }

  /** With one confirming scan, a press always starts the release countdown. */
  function CountKey(counter: nat, raw: bool): nat {
    if raw then RELEASE_DEBOUNCE_SCANS else if counter > 0 then counter - 1 else 0
  }

  function DebounceKey(counter: nat, raw: bool, bit: bool): bool {
    raw || (bit && CountKey(counter, raw) != 0)
  }

  /** kb_debounce_update; padding bits stay as they are. */
  function Update(s: State, raw: seq<bool>): (t: State)
    requires s.Shaped() && |raw| == BITMAP_BITS
    ensures t.Shaped()
  {
    State(Counted(s.counters, raw), Debounced(s, raw))
  }

  function Counted(counters: seq<nat>, raw: seq<bool>): (r: seq<nat>)
    requires |counters| <= |raw|
    ensures |r| == |counters| && forall i | 0 <= i < |r| :: r[i] == CountKey(counters[i], raw[i])
  {
    seq(|counters|, i requires 0 <= i < |counters| => CountKey(counters[i], raw[i]))
  }

  function Debounced(s: State, raw: seq<bool>): (r: seq<bool>)
    requires s.Shaped() && |raw| == BITMAP_BITS
    ensures |r| == BITMAP_BITS
    ensures forall i | 0 <= i < KB_MATRIX_KEYS :: r[i] == DebounceKey(s.counters[i], raw[i], s.stable[i])
    ensures forall i | KB_MATRIX_KEYS <= i < BITMAP_BITS :: r[i] == s.stable[i]
  {
    seq(BITMAP_BITS, i requires 0 <= i < BITMAP_BITS =>
      if i < KB_MATRIX_KEYS then DebounceKey(s.counters[i], raw[i], s.stable[i]) else s.stable[i])
  }

  /** The merge of other bits into the stable bitmap. */
  function Merge(stable: seq<bool>, others: seq<bool>): (r: seq<bool>)
    requires |stable| == |others|
    ensures |r| == |stable| && forall i | 0 <= i < |r| :: r[i] == (stable[i] || others[i])
  {
    seq(|stable|, i requires 0 <= i < |stable| => stable[i] || others[i])
  }

  class Debouncer {
    var counters: array<nat>

    ghost predicate Valid()
      reads this
    {
      counters.Length == KB_MATRIX_KEYS
    }

    constructor ()
      ensures Valid() && fresh(counters) && forall i | 0 <= i < KB_MATRIX_KEYS :: counters[i] == 0
    {
      counters := new nat[KB_MATRIX_KEYS](i => 0);
    }

    /** One round of the loop of kb_debounce_update. */
    method UpdateKey(raw: array<bv8>, stable: array<bv8>, i: nat)
      requires Valid() && raw.Length == stable.Length == KB_MATRIX_BITMAP_BYTES && raw != stable && i < KB_MATRIX_KEYS
      modifies counters, stable
      ensures var pressed := Bits.Unpack(raw[..])[i];
              counters[..] == old(counters[..])[i := CountKey(old(counters[i]), pressed)] &&
              Bits.Unpack(stable[..]) ==
                Bits.Unpack(old(stable[..]))[i := DebounceKey(old(counters[i]), pressed, Bits.Unpack(old(stable[..]))[i])]
    {
      hide Bits.Unpack, Bits.Get;
      var pressed := Bits.BitGet(raw, i);
      if pressed {
        if counters[i] < PRESS_CONFIRM_SCANS {
          counters[i] := counters[i] + 1;
        }
        if counters[i] >= PRESS_CONFIRM_SCANS {
          counters[i] := RELEASE_DEBOUNCE_SCANS;
          Bits.BitSet(stable, i);
        }
      } else {
        if counters[i] > 0 {
          counters[i] := counters[i] - 1;
        }
        if counters[i] == 0 {
          Bits.BitClear(stable, i);
        }
      }
    }

    method UpdateStable(raw: array<bv8>, stable: array<bv8>)
      requires Valid() && raw.Length == stable.Length == KB_MATRIX_BITMAP_BYTES && raw != stable
      modifies counters, stable
      ensures State(counters[..], Bits.Unpack(stable[..])) ==
              Update(State(old(counters[..]), Bits.Unpack(old(stable[..]))), Bits.Unpack(raw[..]))
    {
      ghost var before := State(counters[..], Bits.Unpack(stable[..]));
      ghost var rawBits := Bits.Unpack(raw[..]);
      hide Bits.Unpack, Bits.Get, CountKey, DebounceKey, Counted, Debounced;
      for i := 0 to KB_MATRIX_KEYS
        invariant raw[..] == old(raw[..])
        invariant forall j | 0 <= j < i :: counters[..][j] == CountKey(before.counters[j], rawBits[j])
        invariant forall j | i <= j < KB_MATRIX_KEYS :: counters[..][j] == before.counters[j]
        invariant forall j | 0 <= j < i :: Bits.Unpack(stable[..])[j] == DebounceKey(before.counters[j], rawBits[j], before.stable[j])
        invariant forall j | i <= j < BITMAP_BITS :: Bits.Unpack(stable[..])[j] == before.stable[j]
      {
        assert counters[i] == counters[..][i];
        UpdateKey(raw, stable, i);
      }
      assert counters[..] == Counted(before.counters, rawBits);
      assert Bits.Unpack(stable[..]) == Debounced(before, rawBits);
    }
  }

  method MergeRemote(stable: array<bv8>, remote: array<bv8>)
    requires stable.Length == remote.Length && stable != remote
    modifies stable
    ensures Bits.Unpack(stable[..]) == Merge(Bits.Unpack(old(stable[..])), Bits.Unpack(remote[..]))
  {
    for i := 0 to stable.Length
      invariant forall j | 0 <= j < stable.Length :: stable[j] == if j < i then old(stable[..])[j] | remote[j] else old(stable[..])[j]
    {
      stable[i] := stable[i] | remote[i];
    }
    MergedBits(old(stable[..]), remote[..], stable[..]);
  }

  lemma MergedBits(a: seq<bv8>, b: seq<bv8>, c: seq<bv8>)
    requires |a| == |b| == |c| && forall i | 0 <= i < |a| :: c[i] == a[i] | b[i]
    ensures Bits.Unpack(c) == Merge(Bits.Unpack(a), Bits.Unpack(b))
  {
    forall i | 0 <= i < 8 * |a| ensures Bits.Get(c, i) == (Bits.Get(a, i) || Bits.Get(b, i)) {
      hide Bits.Test;
    }
    hide Bits.Get, Bits.Unpack;
  }

  // ---------- Runs ----------

  /** A scan, and the bits that are merged into the stable bitmap after it. */
  datatype Scan = Scan(raw: seq<bool>, merged: seq<bool>)

  predicate AllShaped(scans: seq<Scan>) {
    forall i | 0 <= i < |scans| :: |scans[i].raw| == BITMAP_BITS && |scans[i].merged| == BITMAP_BITS
  }

  /** The state right after the update of the last scan. */
  function Run(scans: seq<Scan>): (s: State)
    requires AllShaped(scans)
    ensures s.Shaped()
  {
    if scans == [] then State(seq(KB_MATRIX_KEYS, i => 0), seq(BITMAP_BITS, i => false))
    else
      var m := |scans| - 1;
      var before := Run(scans[..m]);
      var start := if m == 0 then before else before.(stable := Merge(before.stable, scans[m - 1].merged));
      Update(start, scans[m].raw)
  }

  /** How many scans ago the key was last seen pressed: 0 for the last one, and the
      number of scans if never. */
  function Ago(scans: seq<Scan>, key: nat): nat
    requires AllShaped(scans) && key < KB_MATRIX_KEYS
  {
    if scans == [] || scans[|scans| - 1].raw[key] then 0 else 1 + Ago(scans[..|scans| - 1], key)
  }

  predicate Pressed(scans: seq<Scan>, key: nat)
    requires AllShaped(scans) && key < KB_MATRIX_KEYS
  {
    exists i :: 0 <= i < |scans| && scans[i].raw[key]
  }

  lemma {:induction false} AgoIs(scans: seq<Scan>, key: nat)
    requires AllShaped(scans) && key < KB_MATRIX_KEYS
    ensures var a := Ago(scans, key);
            a <= |scans| && (Pressed(scans, key) <==> a < |scans|) && (a < |scans| ==> scans[|scans| - 1 - a].raw[key]) &&
            forall i | |scans| - a <= i < |scans| :: !scans[i].raw[key]
  {
    if scans != [] && !scans[|scans| - 1].raw[key] {
      AgoIs(scans[..|scans| - 1], key);
      var m := |scans| - 1;
      assert forall i | 0 <= i < m :: scans[..m][i] == scans[i];
    }
  }

  /** The counter measures the time since the last press, and the stable bit shows
      whether it is still running; merged bits make no difference. */
  lemma {:induction false} CounterIs(scans: seq<Scan>, key: nat)
    requires AllShaped(scans) && key < KB_MATRIX_KEYS
    ensures var s := Run(scans);
            var a := Ago(scans, key);
            s.counters[key] == (if a < |scans| && a < RELEASE_DEBOUNCE_SCANS then RELEASE_DEBOUNCE_SCANS - a else 0) &&
            (s.stable[key] <==> s.counters[key] > 0)
  {
    if scans != [] {
      var m := |scans| - 1;
      CounterIs(scans[..m], key);
      AgoIs(scans[..m], key);
      hide Counted, Debounced, Merge;
    }
  }

  /** A sliding window: after every scan a key is stable exactly when one of the last
      five scans has seen it, whatever is merged into the bitmap between scans. */
  lemma StableIffSeenInWindow(scans: seq<Scan>, key: nat)
    requires AllShaped(scans) && key < KB_MATRIX_KEYS
    ensures Run(scans).stable[key] <==>
            exists i :: 0 <= i < |scans| && |scans| - RELEASE_DEBOUNCE_SCANS <= i && scans[i].raw[key]
  {
    CounterIs(scans, key);
    AgoIs(scans, key);
    hide Run, Ago;
  }
}
