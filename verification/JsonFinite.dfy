/** The cycle-safe search for non-finite floats in a Python object graph
    (src/lingtai/init_schema.py). */
module JsonFinite {

  /** `id(obj)`. */
  type Id = int

  /** A value as the walk sees it: a float, a reference to an exact dict, list or tuple, or
      anything else. */
  datatype Value = Float(finite: bool) | Ref(id: Id) | Other

  datatype Container = Dict(entries: seq<(Value, Value)>) | Sequence(items: seq<Value>)

  type Heap = map<Id, Container>

  /** Keys and values, in order. */
  function Flatten(entries: seq<(Value, Value)>): seq<Value> {
    if entries == [] then []
    else
      var n := |entries| - 1;
      Flatten(entries[..n]) + [entries[n].0, entries[n].1]
  }

  function Contents(c: Container): seq<Value> {
    match c
    case Dict(entries) => Flatten(entries)
    case Sequence(items) => items
  }

  predicate Live(heap: Heap, v: Value) { v.Ref? ==> v.id in heap }

  /** No dangling references. */
  ghost predicate WellFormed(heap: Heap) {
    forall id <- heap, v <- Contents(heap[id]) :: Live(heap, v)
  }

  predicate Child(heap: Heap, parent: Value, v: Value) {
    parent.Ref? && parent.id in heap && v in Contents(heap[parent.id])
  }

  /** The children of a dict are its keys and its values, those of a list or a tuple its items,
      and nothing else has any. */
  lemma WhatAContainerHolds(heap: Heap, parent: Value, v: Value)
    ensures Child(heap, parent, v) <==>
      parent.Ref? && parent.id in heap &&
      match heap[parent.id]
      case Dict(entries) => (exists e <- entries :: v == e.0 || v == e.1)
      case Sequence(items) => v in items
  {
    if parent.Ref? && parent.id in heap && heap[parent.id].Dict? { FlattenHolds(heap[parent.id].entries, v); }
  }

  lemma {:induction false} FlattenHolds(entries: seq<(Value, Value)>, v: Value)
    ensures v in Flatten(entries) <==> exists e <- entries :: v == e.0 || v == e.1
  {
    if entries != [] {
      var n := |entries| - 1;
      FlattenHolds(entries[..n], v);
      assert entries == entries[..n] + [entries[n]];
      assert forall e <- entries[..n] :: e in entries;
    }
  }

  /** A chain of containers, each holding the next value. */
  ghost predicate IsPath(heap: Heap, path: seq<Value>) {
    path != [] && forall k :: 0 < k < |path| ==> Child(heap, path[k - 1], path[k])
  }

  ghost predicate Reachable(heap: Heap, root: Value, v: Value) {
    exists path :: IsPath(heap, path) && path[0] == root && path[|path| - 1] == v
  }

  ghost predicate NonFiniteReachable(heap: Heap, root: Value) {
    exists v :: v == Float(false) && Reachable(heap, root, v)
  }

  /** Nothing left to do about `v`: it waits, or it is harmless and its contents are known. */
  predicate Covered(pending: seq<Value>, seen: set<Id>, v: Value) {
    v in pending || (v != Float(false) && (v.Ref? ==> v.id in seen))
  }

  ghost predicate Inv(heap: Heap, root: Value, pending: seq<Value>, seen: set<Id>) {
    && seen <= heap.Keys
    && (forall v <- pending :: Live(heap, v) && Reachable(heap, root, v))
    && Covered(pending, seen, root)
    && forall id <- seen, v <- Contents(heap[id]) :: Covered(pending, seen, v)
  }

  lemma RootIsReachable(heap: Heap, root: Value)
    ensures Reachable(heap, root, root)
  {
    assert IsPath(heap, [root]);
  }

  lemma ChildIsReachable(heap: Heap, root: Value, parent: Value, v: Value)
    requires Reachable(heap, root, parent) && Child(heap, parent, v)
    ensures Reachable(heap, root, v)
  {
    var path :| IsPath(heap, path) && path[0] == root && path[|path| - 1] == parent;
    var longer := path + [v];
    assert IsPath(heap, longer) && longer[0] == root && longer[|longer| - 1] == v;
  }

  /** A harmless leaf, or a container seen before, can go. */
  lemma DropKeepsInv(heap: Heap, root: Value, rest: seq<Value>, v: Value, seen: set<Id>)
    requires Inv(heap, root, rest + [v], seen) && v != Float(false) && (v.Ref? ==> v.id in seen)
    ensures Inv(heap, root, rest, seen)
  {
    assert forall x <- rest :: x in rest + [v];
    forall id, c | id in seen && c in Contents(heap[id]) ensures Covered(rest, seen, c) {
      assert Covered(rest + [v], seen, c);
    }
  }

  /** Opening container `v` and queueing its contents keeps the invariant. */
  lemma OpenKeepsInv(heap: Heap, root: Value, rest: seq<Value>, v: Value, seen: set<Id>)
    requires WellFormed(heap) && Inv(heap, root, rest + [v], seen) && v.Ref? && v.id in heap
    ensures Inv(heap, root, rest + Contents(heap[v.id]), seen + {v.id})
  {
    assert v in rest + [v];
    var more := Contents(heap[v.id]);
    forall c | c in more ensures Reachable(heap, root, c) { ChildIsReachable(heap, root, v, c); }
    forall id, c | id in seen + {v.id} && c in Contents(heap[id])
      ensures Covered(rest + more, seen + {v.id}, c)
    {
      if id in seen { assert Covered(rest + [v], seen, c); }
    }
  }

  /** With nothing pending, everything along a path from a covered value is harmless. */
  lemma {:induction false} CoverageFollowsPaths(heap: Heap, seen: set<Id>, path: seq<Value>)
    requires IsPath(heap, path) && Covered([], seen, path[0]) && seen <= heap.Keys
    requires forall id <- seen, v <- Contents(heap[id]) :: Covered([], seen, v)
    ensures Covered([], seen, path[|path| - 1])
  {
    if |path| > 1 {
      var n := |path| - 1;
      CoverageFollowsPaths(heap, seen, path[..n]);
      assert Child(heap, path[n - 1], path[n]);
    }
  }

  lemma DoneMeansFinite(heap: Heap, root: Value, seen: set<Id>)
    requires Inv(heap, root, [], seen)
    ensures !NonFiniteReachable(heap, root)
  {
    if NonFiniteReachable(heap, root) {
      var path :| IsPath(heap, path) && path[0] == root && path[|path| - 1] == Float(false);
      CoverageFollowsPaths(heap, seen, path);
      assert false;
    }
  }

  lemma SeenGrows(heap: Heap, seen: set<Id>, id: Id)
    requires id in heap && id !in seen
    ensures |heap.Keys - (seen + {id})| < |heap.Keys - seen|
  {
    assert heap.Keys - (seen + {id}) == heap.Keys - seen - {id};
  }

  /** `pending.extend(...)` for one container. */
  method Extend(pending: seq<Value>, c: Container) returns (more: seq<Value>)
    ensures more == pending + Contents(c)
  {
    more := pending;
    match c {
      case Dict(entries) =>
        for k := 0 to |entries|
          invariant more == pending + Flatten(entries[..k])
        {
          assert entries[..k + 1][..k] == entries[..k];
          more := more + [entries[k].0, entries[k].1];
        }
        assert entries[..|entries|] == entries;
      case Sequence(items) =>
        more := more + items;
    }
  }

  /** Terminates on every finite graph, shared and cyclic containers included, and reports
      a non-finite float exactly when one can be reached through dict keys, dict values,
      and list or tuple items. */
  method IsJsonFinite(heap: Heap, root: Value) returns (finite: bool)
    requires WellFormed(heap) && Live(heap, root)
    ensures finite <==> !NonFiniteReachable(heap, root)
  {
    var pending, seen := [root], {};
    RootIsReachable(heap, root);
    while pending != []
      invariant Inv(heap, root, pending, seen)
      decreases |heap.Keys - seen|, |pending|
    {
      var n := |pending| - 1;
      var current, rest := pending[n], pending[..n];
      assert pending == rest + [current] && current in pending;
      pending := rest;
      if current == Float(false) {
        return false;
      }
      if current.Ref? {
        if current.id in seen {
          DropKeepsInv(heap, root, rest, current, seen);
          continue;
        }
        OpenKeepsInv(heap, root, rest, current, seen);
        SeenGrows(heap, seen, current.id);
        seen := seen + {current.id};
        pending := Extend(rest, heap[current.id]);
      } else {
        DropKeepsInv(heap, root, rest, current, seen);
      }
    }
    DoneMeansFinite(heap, root, seen);
    finite := true;
  }
}
