/** `canonicalJson` on graphs of lists and records with sharing and cycles: the printed text is that of the
    graph's unfolding into a tree. */
module ObjectGraph {
  import opened CodeUnits
  import opened Lists
  import opened Options
  import opened Entries
  import opened JsonText
  import opened Canonical
  import opened CanonicalMeaning

  datatype Ref = Leaf(atom: Value) | Ptr(addr: nat)

  datatype Node = ListNode(items: seq<Ref>) | RecordNode(fields: seq<Entry<Ref>>)

  type Heap = map<nat, Node>

  /** Leaves are atoms that are not themselves cycle marks, and records have one value per key. */
  predicate ValidRef(r: Ref) { r.Leaf? ==> IsAtom(r.atom) && !r.atom.Cycle? }

  ghost predicate ValidNode(n: Node)
  {
    match n
    case ListNode(items) => forall i :: 0 <= i < |items| ==> ValidRef(items[i])
    case RecordNode(fields) => DistinctKeys(fields) && forall i :: 0 <= i < |fields| ==> ValidRef(fields[i].value)
  }

  ghost predicate ValidHeap(heap: Heap) { forall a :: a in heap ==> ValidNode(heap[a]) }

  /** The tree seen from `r` when the addresses in `inside` are being printed already. An address
      outside the heap reads as `undefined`. */
  function Unfold(heap: Heap, r: Ref, inside: set<nat>): Value
    decreases heap.Keys - inside, 2
  {
    if r.Leaf? then r.atom
    else if r.addr in inside then Cycle
    else if r.addr !in heap then Undefined
    else UnfoldNode(heap, r.addr, inside)
  }

  function UnfoldNode(heap: Heap, addr: nat, inside: set<nat>): Value
    requires addr in heap && addr !in inside
    decreases heap.Keys - inside, 1
  {
    assert heap.Keys - (inside + {addr}) < heap.Keys - inside by { assert addr in heap.Keys - inside; }
    match heap[addr]
    case ListNode(items) => Arr(UnfoldItems(heap, items, inside + {addr}))
    case RecordNode(fields) => Obj(UnfoldFields(heap, fields, inside + {addr}))
  }

  function UnfoldItems(heap: Heap, items: seq<Ref>, inside: set<nat>): (r: seq<Value>)
    ensures |r| == |items|
    ensures forall i :: 0 <= i < |items| ==> r[i] == Unfold(heap, items[i], inside)
    decreases heap.Keys - inside, 3, items
  {
    if items == [] then [] else [Unfold(heap, items[0], inside)] + UnfoldItems(heap, items[1..], inside)
  }

  function UnfoldFields(heap: Heap, fields: seq<Entry<Ref>>, inside: set<nat>): (r: seq<Entry<Value>>)
    ensures |r| == |fields|
    ensures forall i :: 0 <= i < |fields| ==> r[i] == Entry(fields[i].key, Unfold(heap, fields[i].value, inside))
    decreases heap.Keys - inside, 3, fields
  {
    if fields == [] then []
    else [Entry(fields[0].key, Unfold(heap, fields[0].value, inside))] + UnfoldFields(heap, fields[1..], inside)
  }

  /** Printing the fields in sorted order gives the sorted texts. */
  lemma SortedTexts(heap: Heap, fields: seq<Entry<Ref>>, inside: set<nat>, texts: seq<Entry<Text>>)
    requires ValidHeap(heap) && ValidNode(RecordNode(fields)) && |texts| == |SortByKey(fields)|
    requires forall e :: e in SortByKey(fields) ==> e in fields
    requires forall j :: 0 <= j < |texts| ==>
                           var e := SortByKey(fields)[j]; texts[j] == Entry(e.key, Print(Unfold(heap, e.value, inside)))
    ensures texts == SortByKey(PrintFields(UnfoldFields(heap, fields, inside)))
  {
    hide SortByKey, Print, Unfold, PrintFields, UnfoldFields, MapValues;
    var textOf := (r: Ref) => Print(Unfold(heap, r, inside));
    assert texts == MapValues(SortByKey(fields), textOf);
    assert PrintFields(UnfoldFields(heap, fields, inside)) == MapValues(fields, textOf);
    SortMapped(fields, textOf);
  }

  /** The recursive walk, which adds an address to `ancestors` on the way in and takes it out on the
      way back. */
  class Printer {
    const heap: Heap
    var ancestors: set<nat>

    constructor (heap: Heap)
      ensures this.heap == heap && ancestors == {}
    {
      this.heap := heap;
      ancestors := {};
    }

    /** `canonicalJsonInner`: terminates on every graph, restores the ancestor set and prints the
        text of the unfolding. */
    method CanonicalJsonInner(r: Ref) returns (text: Text)
      requires ValidHeap(heap) && ValidRef(r)
      modifies this
      ensures ancestors == old(ancestors)
      ensures text == Print(Unfold(heap, r, old(ancestors)))
      decreases heap.Keys - ancestors, 2
    {
      hide ValidNode, Join, JoinFields, SortByKey, PrintItems, PrintFields, UnfoldItems, UnfoldFields;
      if r.Leaf? {
        return PrintAtom(r.atom);
      }
      if r.addr in ancestors {
        return Quote(CYCLE_MARK);
      }
      if r.addr !in heap {
        return NULL_WORD;
      }
      ghost var inside := ancestors;
      assert heap.Keys - (inside + {r.addr}) < heap.Keys - inside by { assert r.addr in heap.Keys - inside; }
      ancestors := ancestors + {r.addr};
      match heap[r.addr] {
        case ListNode(items) =>
          var body := PrintList(items);
          text := [LBRACKET] + body + [RBRACKET];
        case RecordNode(fields) =>
          var body := PrintRecord(fields);
          text := [LBRACE] + body + [RBRACE];
      }
      ancestors := ancestors - {r.addr};
    }

    method PrintList(items: seq<Ref>) returns (text: Text)
      requires ValidHeap(heap) && ValidNode(ListNode(items))
      modifies this
      ensures ancestors == old(ancestors)
      ensures text == Join(PrintItems(UnfoldItems(heap, items, old(ancestors))))
      decreases heap.Keys - ancestors, 3
    {
      hide Print, Join;
      var texts: seq<Text> := [];
      for i := 0 to |items|
        invariant ancestors == old(ancestors) && |texts| == i
        invariant forall j :: 0 <= j < i ==> texts[j] == Print(Unfold(heap, items[j], ancestors))
      {
        var t := CanonicalJsonInner(items[i]);
        texts := texts + [t];
      }
      assert texts == PrintItems(UnfoldItems(heap, items, ancestors));
      text := Join(texts);
    }

    method PrintRecord(fields: seq<Entry<Ref>>) returns (text: Text)
      requires ValidHeap(heap) && ValidNode(RecordNode(fields))
      modifies this
      ensures ancestors == old(ancestors)
      ensures text == JoinFields(SortByKey(PrintFields(UnfoldFields(heap, fields, old(ancestors)))))
      decreases heap.Keys - ancestors, 3
    {
      hide SortByKey, Print, JoinFields;
      var sorted := SortByKey(fields);
      SortMembers(fields);
      var texts: seq<Entry<Text>> := [];
      for i := 0 to |sorted|
        invariant ancestors == old(ancestors) && |texts| == i
        invariant forall j :: 0 <= j < i ==>
                                texts[j] == Entry(sorted[j].key, Print(Unfold(heap, sorted[j].value, ancestors)))
      {
        assert sorted[i] in fields;
        var t := CanonicalJsonInner(sorted[i].value);
        texts := texts + [Entry(sorted[i].key, t)];
      }
      SortedTexts(heap, fields, ancestors, texts);
      text := JoinFields(texts);
    }
  }

  /** `canonicalJson`: a fresh printer for every call. */
  method CanonicalJson(heap: Heap, r: Ref) returns (text: Text)
    requires ValidHeap(heap) && ValidRef(r)
    ensures text == Print(Unfold(heap, r, {}))
  {
    var printer := new Printer(heap);
    text := printer.CanonicalJsonInner(r);
  }

  // ----- where the cycle marks are -----

  /** The child a container has at a position. */
  function Child(n: Node, i: nat): Option<Ref>
  {
    match n
    case ListNode(items) => if i < |items| then Some(items[i]) else None
    case RecordNode(fields) => if i < |fields| then Some(fields[i].value) else None
  }

  datatype Walk = Lost | Arrived(end: Ref, trail: seq<nat>)

  /** Following a path of child positions through the graph: where it ends, and the addresses of the
      containers passed through on the way. */
  function Follow(heap: Heap, r: Ref, path: seq<nat>): Walk
    decreases path
  {
    if path == [] then Arrived(r, [])
    else if r.Leaf? || r.addr !in heap || Child(heap[r.addr], path[0]).None? then Lost
    else
      var w := Follow(heap, Child(heap[r.addr], path[0]).value, path[1..]);
      if w.Lost? then Lost else Arrived(w.end, [r.addr] + w.trail)
  }

  function Subtree(v: Value, path: seq<nat>): Option<Value>
    decreases path
  {
    if path == [] then Some(v)
    else if v.Arr? && path[0] < |v.items| then Subtree(v.items[path[0]], path[1..])
    else if v.Obj? && path[0] < |v.fields| then Subtree(v.fields[path[0]].value, path[1..])
    else None
  }

  /** The walk ends at a container it is inside of, having met no such container before. */
  ghost predicate ClosesCycle(w: Walk, inside: set<nat>)
  {
    && w.Arrived? && w.end.Ptr?
    && NoRepeats(w.trail)
    && (forall a :: a in w.trail ==> a !in inside)
    && (w.end.addr in w.trail || w.end.addr in inside)
  }

  /** A position of the printed tree holds `"<cycle>"` exactly when the edge into it leads back to an
      enclosing container. */
  lemma {:induction false} CycleMarksAreBackEdges(heap: Heap, r: Ref, path: seq<nat>, inside: set<nat>)
    requires ValidHeap(heap) && ValidRef(r)
    ensures Subtree(Unfold(heap, r, inside), path) == Some(Cycle) <==> ClosesCycle(Follow(heap, r, path), inside)
    decreases path
  {
    if path != [] && r.Ptr? && r.addr in heap && Child(heap[r.addr], path[0]).Some? {
      var child := Child(heap[r.addr], path[0]).value;
      var w := Follow(heap, child, path[1..]);
      if r.addr in inside {
        assert Subtree(Cycle, path) == None;
        assert w.Arrived? ==> ([r.addr] + w.trail)[0] in inside;
      } else {
        assert ValidNode(heap[r.addr]);
        CycleMarksAreBackEdges(heap, child, path[1..], inside + {r.addr});
        assert Subtree(Unfold(heap, r, inside), path) == Subtree(Unfold(heap, child, inside + {r.addr}), path[1..]);
        if w.Arrived? { ExtendTrail(r.addr, w, inside); }
      }
    }
  }

  lemma ExtendTrail(a: nat, w: Walk, inside: set<nat>)
    requires w.Arrived? && a !in inside
    ensures ClosesCycle(w, inside + {a}) <==> ClosesCycle(Arrived(w.end, [a] + w.trail), inside)
  {
    var longer := [a] + w.trail;
    assert forall i :: 0 <= i < |w.trail| ==> longer[i + 1] == w.trail[i];
    assert forall b :: b in longer <==> b == a || b in w.trail;
    if ClosesCycle(Arrived(w.end, longer), inside) {
      assert NoRepeats(w.trail);
      forall k | 0 <= k < |w.trail| ensures w.trail[k] != a { assert longer[0] != longer[k + 1]; }
    }
  }

  // ----- acyclic graphs -----

  /** A graph without cycles: every reference leads to a container of smaller rank. */
  ghost predicate RankedBy(heap: Heap, rank: nat -> nat)
  {
    forall a, i: nat :: a in heap && Child(heap[a], i).Some? && Child(heap[a], i).value.Ptr? ==>
                          rank(Child(heap[a], i).value.addr) < rank(a)
  }

  /** The tree of an acyclic graph, in which a shared container is simply repeated. */
  ghost function TreeOf(heap: Heap, rank: nat -> nat, r: Ref): Value
    requires RankedBy(heap, rank)
    decreases if r.Ptr? then rank(r.addr) + 1 else 0
  {
    if r.Leaf? then r.atom
    else if r.addr !in heap then Undefined
    else
      match heap[r.addr]
      case ListNode(items) =>
        Arr(seq(|items|, i requires 0 <= i < |items| =>
          assert Child(heap[r.addr], i) == Some(items[i]); TreeOf(heap, rank, items[i])))
      case RecordNode(fields) =>
        Obj(seq(|fields|, i requires 0 <= i < |fields| =>
          assert Child(heap[r.addr], i) == Some(fields[i].value);
          Entry(fields[i].key, TreeOf(heap, rank, fields[i].value))))
  }

  /** Sharing without cycles prints as the tree would: no reference is mistaken for a cycle. */
  lemma {:induction false} AcyclicUnfoldsToTree(heap: Heap, rank: nat -> nat, r: Ref, inside: set<nat>)
    requires RankedBy(heap, rank)
    requires r.Ptr? ==> forall a :: a in inside ==> rank(r.addr) < rank(a)
    ensures Unfold(heap, r, inside) == TreeOf(heap, rank, r)
    decreases if r.Ptr? then rank(r.addr) + 1 else 0
  {
    if r.Ptr? && r.addr in heap {
      assert Unfold(heap, r, inside) == UnfoldNode(heap, r.addr, inside);
      var node := heap[r.addr];
      forall i: nat | Child(node, i).Some?
        ensures Unfold(heap, Child(node, i).value, inside + {r.addr}) == TreeOf(heap, rank, Child(node, i).value)
      {
        AcyclicUnfoldsToTree(heap, rank, Child(node, i).value, inside + {r.addr});
      }
      match node
      case ListNode(items) =>
        forall i | 0 <= i < |items|
          ensures UnfoldItems(heap, items, inside + {r.addr})[i] == TreeOf(heap, rank, items[i])
        {
          assert Child(node, i) == Some(items[i]);
        }
        assert UnfoldItems(heap, items, inside + {r.addr}) == TreeOf(heap, rank, r).items;
      case RecordNode(fields) =>
        forall i | 0 <= i < |fields|
          ensures UnfoldFields(heap, fields, inside + {r.addr})[i].value == TreeOf(heap, rank, fields[i].value)
        {
          assert Child(node, i) == Some(fields[i].value);
        }
        assert UnfoldFields(heap, fields, inside + {r.addr}) == TreeOf(heap, rank, r).fields;
    }
  }

  // ----- equal texts of graphs -----

  lemma {:induction false} UnfoldWellFormed(heap: Heap, r: Ref, inside: set<nat>)
    requires ValidHeap(heap) && ValidRef(r)
    ensures WellFormed(Unfold(heap, r, inside))
    decreases heap.Keys - inside
  {
    if r.Ptr? && r.addr !in inside && r.addr in heap {
      assert heap.Keys - (inside + {r.addr}) < heap.Keys - inside by { assert r.addr in heap.Keys - inside; }
      assert ValidNode(heap[r.addr]);
      match heap[r.addr]
      case ListNode(items) =>
        forall i | 0 <= i < |items| { UnfoldWellFormed(heap, items[i], inside + {r.addr}); }
      case RecordNode(fields) =>
        forall i | 0 <= i < |fields| { UnfoldWellFormed(heap, fields[i].value, inside + {r.addr}); }
    }
  }

  /** Two graphs print alike exactly when their unfoldings are the same value, however they share. */
  lemma GraphTextDeterminesUnfolding(h1: Heap, r1: Ref, h2: Heap, r2: Ref)
    requires ValidHeap(h1) && ValidRef(r1) && ValidHeap(h2) && ValidRef(r2)
    ensures Print(Unfold(h1, r1, {})) == Print(Unfold(h2, r2, {})) <==> Same(Unfold(h1, r1, {}), Unfold(h2, r2, {}))
  {
    UnfoldWellFormed(h1, r1, {});
    UnfoldWellFormed(h2, r2, {});
    PrintDeterminesValue(Unfold(h1, r1, {}), Unfold(h2, r2, {}));
  }
}
