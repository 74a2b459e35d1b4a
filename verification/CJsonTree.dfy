/**
The mutable tree of tools/cJSON/cJSON.c: list surgery on the chain of children, and the
recursive copy. An item's own data is fixed here; only its links change.
*/
module CJsonTree {
  /** type, valueint, valuestring and string of an item that is not a reference. */
  datatype Data = Data(kind: int, valueint: int, valuestring: string, name: string)

  class Item {
    var next: Item?
    var prev: Item?
    var child: Item?
    const data: Data

    /** cJSON_New_Item: all links null. */
    constructor (d: Data)
      ensures data == d && next == null && prev == null && child == null
    {
      data := d;
      next, prev, child := null, null, null;
    }
  }

  // ----- The chain of children -----

  ghost predicate Distinct(nodes: seq<Item>) {
    forall i, j | 0 <= i < j < |nodes| :: nodes[i] != nodes[j]
  }

  /** `first` leads to exactly these items, linked both ways and ending in null both ways. */
  ghost predicate Chain(first: Item?, nodes: seq<Item>)
    reads nodes
  {
    && Distinct(nodes)
    && first == (if nodes == [] then null else nodes[0])
    && (forall i {:trigger nodes[i].next} | 0 <= i < |nodes| ::
          nodes[i].next == if i + 1 < |nodes| then nodes[i + 1] else null)
    && (forall i {:trigger nodes[i].prev} | 0 <= i < |nodes| ::
          nodes[i].prev == if i > 0 then nodes[i - 1] else null)
  }

  /** cJSON_GetArraySize. */
  method GetArraySize(parent: Item, ghost nodes: seq<Item>) returns (n: nat)
    requires Chain(parent.child, nodes)
    ensures n == |nodes|
  {
    var c := parent.child;
    n := 0;
    while c != null
      invariant n <= |nodes| && c == if n < |nodes| then nodes[n] else null
      decreases |nodes| - n
    {
      c, n := c.next, n + 1;
    }
  }

  /** A negative position is taken as 0. */
  function Position(which: int): nat { if which < 0 then 0 else which }

  /** The search shared by Get, Detach and Replace. */
  method GetArrayItem(parent: Item, which: int, ghost nodes: seq<Item>) returns (c: Item?, ghost k: nat)
    requires Chain(parent.child, nodes)
    ensures k == Position(which)
    ensures c == if Position(which) < |nodes| then nodes[Position(which)] else null
  {
    c, k := parent.child, 0;
    var w := which;
    while c != null && w > 0
      invariant k <= |nodes| && c == (if k < |nodes| then nodes[k] else null)
      invariant if which < 0 then k == 0 && w == which else w >= 0 && k + w == which
      decreases |nodes| - k
    {
      c, w, k := c.next, w - 1, k + 1;
    }
    k := Position(which);
  }

  /** An item and what its next links lead to, each linked back to the one before it. */
  ghost predicate Led(item: Item, more: seq<Item>)
    reads more
  {
    && more != [] && more[0] == item && Distinct(more)
    && (forall i {:trigger more[i].next} | 0 <= i < |more| ::
          more[i].next == if i + 1 < |more| then more[i + 1] else null)
    && (forall i {:trigger more[i].prev} | 0 < i < |more| :: more[i].prev == more[i - 1])
  }

  /** cJSON_AddItemToArray: append the item, and with it all that its next links lead to. The chain is sound
      then unless the item was the first one and still pointed back. */
  method AddItemToArray(parent: Item, item: Item, ghost nodes: seq<Item>, ghost more: seq<Item>) returns (ghost nodes': seq<Item>)
    requires Chain(parent.child, nodes)
    requires Led(item, more) && forall i | 0 <= i < |more| :: more[i] !in nodes
    modifies parent`child, nodes, item`prev
    ensures nodes' == nodes + more
    ensures Chain(parent.child, nodes') <==> nodes != [] || old(item.prev) == null
  {
    nodes' := nodes + more;
    assert forall i | 0 <= i < |nodes'| :: nodes'[i] == if i < |nodes| then nodes[i] else more[i - |nodes|];
    assert Distinct(nodes');
    var c := parent.child;
    if c == null {
      assert nodes == [] && nodes' == more;
      parent.child := item;
      assert nodes'[0].prev == old(item.prev);
    } else {
      ghost var k := 0;
      while c.next != null
        invariant k < |nodes| && c == nodes[k]
        decreases |nodes| - k
      {
        c, k := c.next, k + 1;
      }
      Suffix(c, item);
      forall i | 0 <= i < |nodes'|
        ensures nodes'[i].next == if i + 1 < |nodes'| then nodes'[i + 1] else null
        ensures nodes'[i].prev == if i > 0 then nodes'[i - 1] else null
      {
        if i < |nodes| {
          assert nodes'[i] == nodes[i];
        } else {
          assert nodes'[i] == more[i - |nodes|];
        }
      }
    }
  }

  /** suffix_object. */
  method Suffix(prev: Item, item: Item)
    requires prev != item
    modifies prev`next, item`prev
    ensures prev.next == item && item.prev == prev
  {
    prev.next := item;
    item.prev := prev;
  }

  /** cJSON_DetachItemFromArray: remove at a position. */
  method DetachItemFromArray(parent: Item, which: int, ghost nodes: seq<Item>) returns (c: Item?, ghost nodes': seq<Item>)
    requires Chain(parent.child, nodes)
    modifies parent`child, nodes
    ensures var k := Position(which);
            if k < |nodes| then c == nodes[k] && nodes' == nodes[..k] + nodes[k + 1..] && c.next == null && c.prev == null
            else c == null && nodes' == nodes
    ensures Chain(parent.child, nodes')
  {
    ghost var k;
    c, k := GetArrayItem(parent, which, nodes);
    nodes' := nodes;
    if c != null {
      nodes' := Unlink(parent, c, nodes, k);
    }
  }

  method Unlink(parent: Item, c: Item, ghost nodes: seq<Item>, ghost k: nat) returns (ghost nodes': seq<Item>)
    requires Chain(parent.child, nodes) && k < |nodes| && c == nodes[k]
    modifies parent`child, nodes
    ensures nodes' == nodes[..k] + nodes[k + 1..] && Chain(parent.child, nodes') && c.next == null && c.prev == null
  {
    nodes' := nodes[..k] + nodes[k + 1..];
    assert forall i | 0 <= i < |nodes'| :: nodes'[i] == if i < k then nodes[i] else nodes[i + 1];
    if c.prev != null {
      c.prev.next := c.next;
    }
    if c.next != null {
      c.next.prev := c.prev;
    }
    if c == parent.child {
      parent.child := c.next;
    }
    c.prev := null;
    c.next := null;
  }

  /** cJSON_ReplaceItemInArray: update at a position; the old item is unlinked for deletion. */
  method ReplaceItemInArray(parent: Item, which: int, newitem: Item, ghost nodes: seq<Item>) returns (ghost nodes': seq<Item>)
    requires Chain(parent.child, nodes) && newitem !in nodes
    modifies parent`child, nodes, newitem
    ensures var k := Position(which);
            nodes' == if k < |nodes| then nodes[k := newitem] else nodes
    ensures Position(which) >= |nodes| ==> newitem.next == old(newitem.next) && newitem.prev == old(newitem.prev)
    ensures Chain(parent.child, nodes')
  {
    var c: Item?;
    ghost var k;
    c, k := GetArrayItem(parent, which, nodes);
    nodes' := nodes;
    if c != null {
      nodes' := Exchange(parent, c, newitem, nodes, k);
    }
  }

  method Exchange(parent: Item, c: Item, newitem: Item, ghost nodes: seq<Item>, ghost k: nat) returns (ghost nodes': seq<Item>)
    requires Chain(parent.child, nodes) && k < |nodes| && c == nodes[k] && newitem !in nodes
    modifies parent`child, nodes, newitem
    ensures nodes' == nodes[k := newitem] && Chain(parent.child, nodes')
  {
    nodes' := nodes[k := newitem];
    newitem.next := c.next;
    newitem.prev := c.prev;
    if newitem.next != null {
      newitem.next.prev := newitem;
    }
    if c == parent.child {
      parent.child := newitem;
    } else {
      newitem.prev.next := newitem;
    }
    c.next := null;
    c.prev := null;
  }

  // ----- Any sequence of edits -----

  /** What a caller can do: new items come from data, detached ones are kept and can be put back. */
  datatype EditOp =
    | Append(data: Data)
    | Detach(which: int)
    | Replace(which: int, data: Data)
    | PutBack(kept: nat)
    | ReplaceBy(which: int, kept: nat)

  /** The children and the detached items, as data. */
  datatype Edited = Edited(items: seq<Data>, kept: seq<Data>)

  function Without<T>(s: seq<T>, k: nat): seq<T>
    requires k < |s|
  {
    s[..k] + s[k + 1..]
  }

  /** The edits on the abstract sequences. */
  function Edit(e: Edited, op: EditOp): Edited {
    match op
    case Append(d) => e.(items := e.items + [d])
    case Detach(which) =>
      var k := Position(which);
      if k < |e.items| then Edited(Without(e.items, k), e.kept + [e.items[k]]) else e
    case Replace(which, d) =>
      var k := Position(which);
      if k < |e.items| then e.(items := e.items[k := d]) else e
    case PutBack(i) =>
      if i < |e.kept| then Edited(e.items + [e.kept[i]], Without(e.kept, i)) else e
    case ReplaceBy(which, i) =>
      var k := Position(which);
      if k < |e.items| && i < |e.kept| then Edited(e.items[k := e.kept[i]], Without(e.kept, i)) else e
  }

  function EditAll(e: Edited, ops: seq<EditOp>): Edited
    decreases |ops|
  {
    if ops == [] then e else EditAll(Edit(e, ops[0]), ops[1..])
  }

  ghost function Datas(nodes: seq<Item>): seq<Data> {
    seq(|nodes|, i requires 0 <= i < |nodes| => nodes[i].data)
  }

  /** A chain of children, and detached items that are linked to nothing. */
  ghost predicate Workable(parent: Item, nodes: seq<Item>, kept: seq<Item>)
    reads parent`child, nodes, kept
  {
    && Chain(parent.child, nodes) && Distinct(kept)
    && (forall i | 0 <= i < |kept| :: kept[i].next == null && kept[i].prev == null && kept[i] !in nodes)
  }

  method ApplyEdit(parent: Item, op: EditOp, ghost nodes: seq<Item>, kept: seq<Item>)
    returns (ghost nodes': seq<Item>, kept': seq<Item>)
    requires Workable(parent, nodes, kept)
    modifies parent`child, nodes, kept
    ensures Workable(parent, nodes', kept')
    ensures Edited(Datas(nodes'), Datas(kept')) == Edit(Edited(Datas(nodes), Datas(kept)), op)
    ensures forall i | 0 <= i < |nodes'| :: nodes'[i] in nodes || nodes'[i] in kept || fresh(nodes'[i])
    ensures forall i | 0 <= i < |kept'| :: kept'[i] in nodes || kept'[i] in kept
  {
    nodes', kept' := nodes, kept;
    match op
    case Append(d) =>
      var item := new Item(d);
      nodes' := AddItemToArray(parent, item, nodes, [item]);
    case Detach(which) =>
      nodes', kept' := Keep(parent, which, nodes, kept);
    case Replace(which, d) =>
      var item := new Item(d);
      nodes' := ReplaceItemInArray(parent, which, item, nodes);
    case PutBack(i) =>
      if i < |kept| {
        nodes', kept' := AddKept(parent, i, nodes, kept);
      }
    case ReplaceBy(which, i) =>
      if i < |kept| {
        nodes', kept' := UseKept(parent, which, i, nodes, kept);
      }
  }

  method Keep(parent: Item, which: int, ghost nodes: seq<Item>, kept: seq<Item>) returns (ghost nodes': seq<Item>, kept': seq<Item>)
    requires Workable(parent, nodes, kept)
    modifies parent`child, nodes
    ensures Workable(parent, nodes', kept')
    ensures Edited(Datas(nodes'), Datas(kept')) == Edit(Edited(Datas(nodes), Datas(kept)), Detach(which))
    ensures forall i | 0 <= i < |nodes'| :: nodes'[i] in nodes
    ensures forall i | 0 <= i < |kept'| :: kept'[i] in nodes || kept'[i] in kept
  {
    var c;
    kept' := kept;
    c, nodes' := DetachItemFromArray(parent, which, nodes);
    if c != null {
      kept' := kept + [c];
    }
  }

  method AddKept(parent: Item, i: nat, ghost nodes: seq<Item>, kept: seq<Item>) returns (ghost nodes': seq<Item>, kept': seq<Item>)
    requires Workable(parent, nodes, kept) && i < |kept|
    modifies parent`child, nodes, kept[i]
    ensures Workable(parent, nodes', kept')
    ensures Edited(Datas(nodes'), Datas(kept')) == Edit(Edited(Datas(nodes), Datas(kept)), PutBack(i))
    ensures forall i | 0 <= i < |nodes'| :: nodes'[i] in nodes || nodes'[i] in kept
    ensures forall i | 0 <= i < |kept'| :: kept'[i] in kept
  {
    nodes' := AddItemToArray(parent, kept[i], nodes, [kept[i]]);
    kept' := Without(kept, i);
  }

  method UseKept(parent: Item, which: int, i: nat, ghost nodes: seq<Item>, kept: seq<Item>)
    returns (ghost nodes': seq<Item>, kept': seq<Item>)
    requires Workable(parent, nodes, kept) && i < |kept|
    modifies parent`child, nodes, kept[i]
    ensures Workable(parent, nodes', kept')
    ensures Edited(Datas(nodes'), Datas(kept')) == Edit(Edited(Datas(nodes), Datas(kept)), ReplaceBy(which, i))
    ensures forall i | 0 <= i < |nodes'| :: nodes'[i] in nodes || nodes'[i] in kept
    ensures forall i | 0 <= i < |kept'| :: kept'[i] in nodes || kept'[i] in kept
  {
    hide Chain;
    kept' := kept;
    var size := GetArraySize(parent, nodes);
    nodes' := ReplaceItemInArray(parent, which, kept[i], nodes);
    if Position(which) < size {
      kept' := Without(kept, i);
    }
  }

  /** After every sequence of edits the chain is sound and holds what the edits make of the sequence. */
  method ApplyEdits(parent: Item, ops: seq<EditOp>, ghost start: seq<Item>) returns (ghost nodes: seq<Item>, kept: seq<Item>)
    requires Chain(parent.child, start)
    modifies parent`child, start
    ensures Workable(parent, nodes, kept)
    ensures Edited(Datas(nodes), Datas(kept)) == EditAll(Edited(Datas(start), []), ops)
  {
    nodes, kept := start, [];
    assert ops[0..] == ops && Datas(kept) == [];
    hide Chain, Edit, Workable;
    for i := 0 to |ops|
      invariant Workable(parent, nodes, kept)
      invariant EditAll(Edited(Datas(nodes), Datas(kept)), ops[i..]) == EditAll(Edited(Datas(start), []), ops)
      invariant forall k | 0 <= k < |nodes| :: nodes[k] in start || fresh(nodes[k])
      invariant forall k | 0 <= k < |kept| :: kept[k] in start || fresh(kept[k])
    {
      assert ops[i..][1..] == ops[i + 1..];
      nodes, kept := ApplyEdit(parent, ops[i], nodes, kept);
    }
  }

  // ----- Trees and their copies -----

  /** The items of a tree, root first. */
  datatype Tree = Tree(node: Item, children: seq<Tree>)

  datatype Value = Value(data: Data, children: seq<Value>)

  ghost function All(t: Tree): set<Item>
    decreases t, 1
  {
    {t.node} + Spread(t.children)
  }

  ghost function Spread(ts: seq<Tree>): set<Item>
    decreases ts, 0
  {
    if ts == [] then {} else Spread(ts[..|ts| - 1]) + All(ts[|ts| - 1])
  }

  lemma {:induction false} Inside(ts: seq<Tree>, i: nat)
    requires i < |ts|
    ensures All(ts[i]) <= Spread(ts)
  {
    if i < |ts| - 1 {
      Inside(ts[..|ts| - 1], i);
    }
  }

  lemma AllInside(ts: seq<Tree>)
    ensures forall i | 0 <= i < |ts| :: All(ts[i]) <= Spread(ts)
  {
    forall i | 0 <= i < |ts| ensures All(ts[i]) <= Spread(ts) { Inside(ts, i); }
  }

  /** The heap below the root is this tree. */
  ghost predicate Shape(t: Tree)
    reads t.node`child, Spread(t.children)
    decreases t, 1
  {
    && t.node !in Spread(t.children)
    && t.node.child == (if t.children == [] then null else t.children[0].node)
    && Siblings(t.children)
  }

  /** A chain of trees, linked both ways, in which no item occurs twice. */
  ghost predicate Siblings(ts: seq<Tree>)
    reads Spread(ts)
    decreases ts, 0
  {
    AllInside(ts);
    && (forall i | 0 <= i < |ts| :: Shape(ts[i]))
    && (forall i, j | 0 <= i < j < |ts| :: All(ts[i]) !! All(ts[j]))
    && (forall i {:trigger ts[i].node.next} | 0 <= i < |ts| ::
          ts[i].node.next == if i + 1 < |ts| then ts[i + 1].node else null)
    && (forall i {:trigger ts[i].node.prev} | 0 <= i < |ts| ::
          ts[i].node.prev == if i > 0 then ts[i - 1].node else null)
  }

  ghost function ValueOf(t: Tree): Value
    decreases t
  {
    Value(t.node.data, seq(|t.children|, i requires 0 <= i < |t.children| => ValueOf(t.children[i])))
  }

  /** Linking one more tree to the end of a chain. */
  method LinkLast(ghost ts: seq<Tree>, last: Item?, ghost c: Tree, newchild: Item) returns (ghost ts': seq<Tree>)
    requires Siblings(ts) && Shape(c) && c.node == newchild && newchild.next == null && newchild.prev == null
    requires Spread(ts) !! All(c)
    requires last == if ts == [] then null else ts[|ts| - 1].node
    modifies Spread(ts), newchild
    ensures ts' == ts + [c] && Siblings(ts') && Spread(ts') == Spread(ts) + All(c)
  {
    ts' := ts + [c];
    assert ts'[..|ts'| - 1] == ts;
    Apart(ts, c);
    assert Spread(ts') == Spread(ts) + All(c);
    assert ts != [] ==> ts[|ts| - 1].node in All(ts[|ts| - 1]) && All(ts[|ts| - 1]) <= Spread(ts);
    hide Spread, All;
    if last != null {  // suffix_object
      last.next := newchild;
      newchild.prev := last;
    }
    assert Shape(c);
    forall i | 0 <= i < |ts'| ensures Shape(ts'[i]) {
      assert i < |ts| ==> ts'[i] == ts[i] && old(Shape(ts[i]));
    }
    hide Shape;
    forall i | 0 <= i < |ts'|
      ensures ts'[i].node.next == if i + 1 < |ts'| then ts'[i + 1].node else null
      ensures ts'[i].node.prev == if i > 0 then ts'[i - 1].node else null
    {
      assert i < |ts| ==> ts'[i] == ts[i];
    }
    hide Siblings;
    AreSiblings(ts');
  }

  lemma AreSiblings(ts: seq<Tree>)
    requires forall i | 0 <= i < |ts| :: Shape(ts[i])
    requires forall i, j | 0 <= i < j < |ts| :: All(ts[i]) !! All(ts[j])
    requires forall i {:trigger ts[i].node.next} | 0 <= i < |ts| ::
               ts[i].node.next == if i + 1 < |ts| then ts[i + 1].node else null
    requires forall i {:trigger ts[i].node.prev} | 0 <= i < |ts| ::
               ts[i].node.prev == if i > 0 then ts[i - 1].node else null
    ensures Siblings(ts)
  {
    hide Shape, All;
  }

  /** In a chain, the ends to be linked lie below no root, and the new tree is apart from all others. */
  lemma Apart(ts: seq<Tree>, c: Tree)
    requires Siblings(ts) && Shape(c) && Spread(ts) !! All(c)
    ensures c.node !in Spread(c.children)
    ensures forall i | 0 <= i < |ts| :: c.node !in Spread(ts[i].children) && All(ts[i]) !! All(c) && ts[i].node != c.node
    ensures ts != [] ==> var last := ts[|ts| - 1].node;
              last !in Spread(c.children) && forall i | 0 <= i < |ts| :: last !in Spread(ts[i].children)
    ensures forall i, j | 0 <= i < j < |ts| :: ts[i].node != ts[j].node
    ensures var ts' := ts + [c]; forall i, j | 0 <= i < j < |ts'| :: All(ts'[i]) !! All(ts'[j])
  {
    AllInside(ts);
    forall i | 0 <= i < |ts|
      ensures c.node !in Spread(ts[i].children) && All(ts[i]) !! All(c) && ts[i].node != c.node
      ensures ts[|ts| - 1].node !in Spread(ts[i].children)
    {
      assert ts[i].node in All(ts[i]) && Spread(ts[i].children) <= All(ts[i]);
      assert ts[|ts| - 1].node in All(ts[|ts| - 1]);
      assert i < |ts| - 1 ==> All(ts[i]) !! All(ts[|ts| - 1]);
    }
    forall i, j | 0 <= i < j < |ts| ensures ts[i].node != ts[j].node {
      assert ts[i].node in All(ts[i]) && ts[j].node in All(ts[j]);
    }
  }

  lemma NoSiblings()
    ensures Siblings([]) && Spread([]) == {}
  {}

  lemma ChildAt(t: Tree, i: nat)
    requires Shape(t) && i < |t.children|
    ensures Shape(t.children[i]) && All(t.children[i]) <= Spread(t.children)
    ensures t.children[i].node.next == if i + 1 < |t.children| then t.children[i + 1].node else null
  {
    AllInside(t.children);
  }

  /** cJSON_Duplicate: an equal tree that shares no item with the original. `world` is any set of
      existing items around it. */
  method Duplicate(item: Item, recurse: bool, ghost t: Tree, ghost world: set<Item>) returns (newitem: Item, ghost t': Tree)
    requires t.node == item && Shape(t) && All(t) <= world
    ensures t'.node == newitem && Shape(t') && newitem.next == null && newitem.prev == null
    ensures fresh(All(t'))
    ensures if recurse then ValueOf(t') == ValueOf(t) else t' == Tree(newitem, []) && newitem.data == item.data
    decreases t, 5
  {
    newitem := new Item(item.data);
    ghost var ts := [];
    if recurse {
      ts := CopyChildren(item, newitem, t, world);
    }
    t' := Tree(newitem, ts);
  }

  /** Its loop over the children. */
  method CopyChildren(item: Item, newitem: Item, ghost t: Tree, ghost world: set<Item>) returns (ghost ts: seq<Tree>)
    requires t.node == item && Shape(t) && All(t) <= world && newitem !in world && newitem.child == null
    modifies newitem`child
    ensures Siblings(ts) && newitem !in Spread(ts) && fresh(Spread(ts))
    ensures newitem.child == (if ts == [] then null else ts[0].node)
    ensures |ts| == |t.children| && SameValues(ts, t.children)
    decreases t, 4
  {
    var cptr, nptr: Item? := item.child, null;
    ts := [];
    ghost var made: set<Item> := {};
    NoSiblings();
    assert Copying(t, world, newitem, cptr, nptr, ts, made);
    hide Copying, Spread, Siblings;
    while cptr != null
      invariant |ts| <= |t.children| && (cptr == null <==> |ts| == |t.children|)
      invariant Copying(t, world, newitem, cptr, nptr, ts, made) && fresh(made)
      decreases |t.children| - |ts|
    {
      cptr, nptr, ts, made := CopyNext(cptr, nptr, newitem, t, ts, made, world);
    }
    Copied(t, world, newitem, cptr, nptr, ts, made);
  }

  /** The children up to ts are copied, and cptr is the next. */
  ghost predicate Copying(t: Tree, world: set<Item>, newitem: Item, cptr: Item?, nptr: Item?, ts: seq<Tree>, made: set<Item>)
    reads world, newitem, made
  {
    && All(t) <= world && Shape(t) && newitem !in world
    && |ts| <= |t.children| && cptr == (if |ts| < |t.children| then t.children[|ts|].node else null)
    && made == Spread(ts) && made !! world && newitem !in made && Siblings(ts)
    && newitem.child == (if ts == [] then null else ts[0].node)
    && nptr == (if ts == [] then null else ts[|ts| - 1].node)
    && SameValues(ts, t.children)
  }

  lemma Copied(t: Tree, world: set<Item>, newitem: Item, cptr: Item?, nptr: Item?, ts: seq<Tree>, made: set<Item>)
    requires Copying(t, world, newitem, cptr, nptr, ts, made) && |ts| == |t.children|
    ensures Siblings(ts) && newitem !in Spread(ts) && made == Spread(ts)
    ensures newitem.child == (if ts == [] then null else ts[0].node)
    ensures SameValues(ts, t.children)
  {
    hide Siblings, Spread, Shape, All, SameValues;
  }

  /** One turn of the loop, and the step to the next child. */
  method CopyNext(cptr: Item, nptr: Item?, newitem: Item, ghost t: Tree, ghost ts: seq<Tree>, ghost made: set<Item>, ghost world: set<Item>)
    returns (next: Item?, newchild: Item, ghost ts': seq<Tree>, ghost made': set<Item>)
    requires Copying(t, world, newitem, cptr, nptr, ts, made) && |ts| < |t.children|
    modifies newitem`child, made
    ensures Copying(t, world, newitem, next, newchild, ts', made') && fresh(made' - made)
    ensures |ts'| == |ts| + 1 && (next == null <==> |ts'| == |t.children|)
    decreases t, 3
  {
    ChildAt(t, |ts|);
    hide Siblings, Spread, SameValues;
    newchild, ts', made' := CopyOne(cptr, nptr, newitem, t.children, ts, made, world);
    ChildAt(t, |ts|);
    next := cptr.next;
  }

  /** Copies of the first of them. */
  ghost predicate SameValues(ts: seq<Tree>, of: seq<Tree>) {
    |ts| <= |of| && forall i | 0 <= i < |ts| :: ValueOf(ts[i]) == ValueOf(of[i])
  }

  lemma OneMoreValue(ts: seq<Tree>, c: Tree, of: seq<Tree>)
    requires SameValues(ts, of) && |ts| < |of| && ValueOf(c) == ValueOf(of[|ts|])
    ensures SameValues(ts + [c], of)
  {
    hide ValueOf;
  }

  /** One turn of it. */
  method CopyOne(cptr: Item, nptr: Item?, newitem: Item, ghost of: seq<Tree>, ghost ts: seq<Tree>, ghost made: set<Item>, ghost world: set<Item>)
    returns (newchild: Item, ghost ts': seq<Tree>, ghost made': set<Item>)
    requires |ts| < |of| && SameValues(ts, of)
    requires of[|ts|].node == cptr && Shape(of[|ts|]) && All(of[|ts|]) <= world
    requires Siblings(ts) && made == Spread(ts) && newitem !in made && made !! world
    requires nptr == if ts == [] then null else ts[|ts| - 1].node
    requires newitem.child == if ts == [] then null else ts[0].node
    modifies newitem`child, made
    ensures |ts'| == |ts| + 1 && ts'[|ts|].node == newchild && SameValues(ts', of)
    ensures Siblings(ts') && made' == Spread(ts') && newitem !in made' && fresh(made' - made)
    ensures newitem.child == ts'[0].node
    decreases of, 6
  {
    hide Spread, Siblings, ValueOf, SameValues;
    ghost var c;
    newchild, c := Duplicate(cptr, true, of[|ts|], world);
    OneMoreValue(ts, c, of);
    if nptr == null {
      newitem.child := newchild;
    }
    ts' := LinkLast(ts, nptr, c, newchild);
    made' := made + All(c);
  }
}
