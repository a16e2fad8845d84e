/** `overlay.rs`: a write overlay on a base store, and why a program cannot tell it from the store itself. */
module Overlay {
  import opened Basics
  import opened State
  import opened AccessSets
  import opened Serial

  class StateStore {
    var data: Store

    constructor ()
      ensures data == map[]
    {
      data := map[];
    }

    method Put(k: Key, v: Value)
      modifies this
      ensures data == old(data)[k := v]
    {
      data := data[k := v];
    }

    method Delete(k: Key)
      modifies this
      ensures data == old(data) - {k}
    {
      data := data - {k};
    }
  }

  class OverlayStore {
    const base: StateStore
    var overlay: Writes

    /** The store this overlay pretends to be. */
    function View(): Store
      reads this, base
    {
      ApplyWrites(base.data, overlay)
    }

    constructor (base: StateStore)
      ensures this.base == base && overlay == map[] && View() == base.data
    {
      this.base := base;
      overlay := map[];
    }

    method Get(k: Key) returns (r: Option<Value>)
      ensures r == Lookup(View(), k)
    {
      if k in overlay {
        return overlay[k];
      }
      r := if k in base.data then Some(base.data[k]) else None;
    }

    /** Writes go to the overlay only: the frame leaves the base alone. */
    method Put(k: Key, v: Value)
      modifies this
      ensures View() == old(View())[k := v]
    {
      overlay := overlay[k := Some(v)];
    }

    method Delete(k: Key)
      modifies this
      ensures View() == old(View()) - {k}
    {
      overlay := overlay[k := None];
    }

    /** `flush`: put and delete entry by entry, in any order, leave the base as the overlay showed it. */
    method Flush()
      modifies base
      ensures base.data == old(View())
    {
      FlushWrites(base, overlay);
    }
  }

  method FlushWrites(store: StateStore, w: Writes)
    modifies store
    ensures store.data == ApplyWrites(old(store.data), w)
  {
    ghost var start := store.data;
    var todo := w.Keys;
    while todo != {}
      invariant todo <= w.Keys
      invariant store.data == ApplyWrites(start, w - todo)
      decreases todo
    {
      var k :| k in todo;
      FlushOne(start, w, todo, k);
      if w[k].Some? {
        store.Put(k, w[k].value);
      } else {
        store.Delete(k);
      }
      todo := todo - {k};
    }
    assert w - todo == w;
  }

  lemma FlushOne(s: Store, w: Writes, todo: set<Key>, k: Key)
    requires todo <= w.Keys && k in todo
    ensures ApplyWrites(s, w - (todo - {k})) ==
            if w[k].Some? then ApplyWrites(s, w - todo)[k := w[k].value] else ApplyWrites(s, w - todo) - {k}
  {
  }

  // ---------------------------------------------------------------------
  // Programs over a store
  // ---------------------------------------------------------------------

  datatype Op = Get(k: Key) | Put(k: Key, v: Value) | Delete(k: Key) | Stop

  /**
   * A transaction as a program: what it has read so far decides what it does next, and in the end
   * its receipt. `budget` bounds its length.
   */
  datatype Program = Program(next: seq<Option<Value>> -> Op, finish: seq<Option<Value>> -> Receipt, budget: nat)

  function OnStore(p: Program, s: Store, h: seq<Option<Value>>, n: nat): (Store, seq<Option<Value>>)
    decreases n
  {
    if n == 0 then (s, h)
    else match p.next(h)
      case Stop => (s, h)
      case Get(k) => OnStore(p, s, h + [Lookup(s, k)], n - 1)
      case Put(k, v) => OnStore(p, s[k := v], h + [None], n - 1)
      case Delete(k) => OnStore(p, s - {k}, h + [None], n - 1)
  }

  function OnOverlay(p: Program, base: Store, w: Writes, h: seq<Option<Value>>, n: nat): (Writes, seq<Option<Value>>)
    decreases n
  {
    if n == 0 then (w, h)
    else match p.next(h)
      case Stop => (w, h)
      case Get(k) => OnOverlay(p, base, w, h + [LookupThrough(base, w, k)], n - 1)
      case Put(k, v) => OnOverlay(p, base, w[k := Some(v)], h + [None], n - 1)
      case Delete(k) => OnOverlay(p, base, w[k := None], h + [None], n - 1)
  }

  /** A program run on an overlay reads, and after the flush leaves, exactly what it would on the store itself. */
  lemma {:induction false} OverlayFaithful(p: Program, base: Store, w: Writes, h: seq<Option<Value>>, n: nat)
    ensures var (w', h') := OnOverlay(p, base, w, h, n);
            OnStore(p, ApplyWrites(base, w), h, n) == (ApplyWrites(base, w'), h')
    decreases n
  {
    if n == 0 {
    } else {
      match p.next(h)
      case Stop =>
      case Get(k) =>
        LookupAfterApply(base, w, k);
        OverlayFaithful(p, base, w, h + [LookupThrough(base, w, k)], n - 1);
      case Put(k, v) =>
        assert ApplyWrites(base, w)[k := v] == ApplyWrites(base, w[k := Some(v)]);
        OverlayFaithful(p, base, w[k := Some(v)], h + [None], n - 1);
      case Delete(k) =>
        assert ApplyWrites(base, w) - {k} == ApplyWrites(base, w[k := None]);
        OverlayFaithful(p, base, w[k := None], h + [None], n - 1);
    }
  }

  /** The program never mentions a key outside its access set, nor writes one outside its write set. */
  ghost predicate StaysWithin(p: Program, acc: AccessSet) {
    forall h :: match p.next(h)
      case Stop => true
      case Get(k) => k in acc.Keys()
      case Put(k, _) => k in acc.writeSet
      case Delete(k) => k in acc.writeSet
  }

  lemma {:induction false} RunsWithin(p: Program, acc: AccessSet, s: Store, t: Store, w: Writes,
                                      h: seq<Option<Value>>, n: nat)
    requires StaysWithin(p, acc) && AgreeOn(s, t, acc.Keys()) && w.Keys <= acc.writeSet
    ensures OnOverlay(p, s, w, h, n) == OnOverlay(p, t, w, h, n)
    ensures OnOverlay(p, s, w, h, n).0.Keys <= acc.writeSet
    decreases n
  {
    if n == 0 {
    } else {
      match p.next(h)
      case Stop =>
      case Get(k) => RunsWithin(p, acc, s, t, w, h + [LookupThrough(s, w, k)], n - 1);
      case Put(k, v) => RunsWithin(p, acc, s, t, w[k := Some(v)], h + [None], n - 1);
      case Delete(k) => RunsWithin(p, acc, s, t, w[k := None], h + [None], n - 1);
    }
  }

  /** The block whose transactions are these programs. */
  function StepOf(programs: seq<Program>): Step {
    (i: nat, s: Store) =>
      if i < |programs| then
        var p := programs[i];
        var (w, h) := OnOverlay(p, s, map[], [], p.budget);
        Outcome(p.finish(h), w)
      else Outcome(Receipt(false, 0, 0, ZERO_ADDRESS), map[])
  }

  /** Programs that stay within their access sets are framed by them. */
  lemma ProgramsFramed(programs: seq<Program>, access: seq<AccessSet>)
    requires |programs| == |access|
    requires forall i :: 0 <= i < |access| ==> StaysWithin(programs[i], access[i])
    ensures Framed(StepOf(programs), access)
  {
    var step := StepOf(programs);
    forall i | 0 <= i < |access| ensures FramedStep(step, i, access[i]) {
      var p := programs[i];
      forall s ensures step(i, s).writes.Keys <= access[i].writeSet {
        RunsWithin(p, access[i], s, s, map[], [], p.budget);
      }
      forall s, t | AgreeOn(s, t, access[i].Keys()) ensures step(i, s) == step(i, t) {
        RunsWithin(p, access[i], s, t, map[], [], p.budget);
      }
    }
  }
}
