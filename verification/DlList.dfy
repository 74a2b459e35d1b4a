/** The circular doubly linked list of tools/wifi_wpa_cli/list.h. */
module DlList {
  /** A list head or the link inside an entry; the entry's data does not change while it is linked. */
  datatype Data<T> = Head | Entry(value: T)

  class Link<T> {
    var next: Link?<T>
    var prev: Link?<T>
    const data: Data<T>

    constructor (d: Data<T>)
      ensures data == d && next == null && prev == null
    {
      data := d;
      next, prev := null, null;
    }
  }

  /** The head followed by the entries, each linked to its neighbours and the last one to the head. */
  ghost predicate Ring<T>(nodes: seq<Link<T>>)
    reads nodes
  {
    && Entries(nodes)
    && (forall i {:trigger nodes[i].next} | 0 <= i < |nodes| - 1 :: nodes[i].next == nodes[i + 1])
    && (forall i {:trigger nodes[i].prev} | 1 <= i < |nodes| :: nodes[i].prev == nodes[i - 1])
    && nodes[|nodes| - 1].next == nodes[0]
    && nodes[0].prev == nodes[|nodes| - 1]
  }

  /** The abstract list. */
  ghost function Values<T>(nodes: seq<Link<T>>): (vs: seq<T>)
    requires Entries(nodes)
    ensures |vs| == |nodes| - 1
  {
    seq(|nodes| - 1, i requires 0 <= i < |nodes| - 1 => nodes[i + 1].data.value)
  }

  ghost predicate Entries<T>(nodes: seq<Link<T>>) {
    && |nodes| > 0
    && nodes[0].data.Head?
    && (forall i | 1 <= i < |nodes| :: nodes[i].data.Entry?)
    && (forall i, j | 0 <= i < j < |nodes| :: nodes[i] != nodes[j])
  }

  lemma WithItem<T>(nodes: seq<Link<T>>, k: nat, item: Link<T>)
    requires Entries(nodes) && k < |nodes| && item !in nodes && item.data.Entry?
    ensures var nodes' := nodes[..k + 1] + [item] + nodes[k + 1..];
            Entries(nodes') && Values(nodes') == Values(nodes)[..k] + [item.data.value] + Values(nodes)[k..]
  {}

  lemma WithoutItem<T>(nodes: seq<Link<T>>, k: nat)
    requires Entries(nodes) && 1 <= k < |nodes|
    ensures var nodes' := nodes[..k] + nodes[k + 1..];
            Entries(nodes') && Values(nodes') == Values(nodes)[..k - 1] + Values(nodes)[k..] && nodes[k] !in nodes'
  {}

  /** dl_list_init. */
  method Init<T>(list: Link<T>) returns (ghost nodes: seq<Link<T>>)
    requires list.data.Head?
    modifies list
    ensures nodes == [list] && Ring(nodes)
  {
    list.next := list;
    list.prev := list;
    nodes := [list];
  }

  /** dl_list_add: the item goes right after the k-th node. */
  method Add<T>(list: Link<T>, item: Link<T>, ghost nodes: seq<Link<T>>, ghost k: nat) returns (ghost nodes': seq<Link<T>>)
    requires Ring(nodes) && k < |nodes| && nodes[k] == list
    requires item !in nodes && item.data.Entry?
    modifies nodes, item
    ensures nodes' == nodes[..k + 1] + [item] + nodes[k + 1..] && Ring(nodes')
    ensures Values(nodes') == Values(nodes)[..k] + [item.data.value] + Values(nodes)[k..]
  {
    nodes' := nodes[..k + 1] + [item] + nodes[k + 1..];
    ghost var after := nodes[if k + 1 < |nodes| then k + 1 else 0];
    assert list.next == after;
    item.next := list.next;
    item.prev := list;
    list.next.prev := item;
    list.next := item;
    WithItem(nodes, k, item);
    assert forall i | 0 <= i < |nodes'| :: nodes'[i] == if i <= k then nodes[i] else if i == k + 1 then item else nodes[i - 1];
  }

  /** dl_list_del of the k-th node. */
  method Del<T>(item: Link<T>, ghost nodes: seq<Link<T>>, ghost k: nat) returns (ghost nodes': seq<Link<T>>)
    requires Ring(nodes) && 1 <= k < |nodes| && nodes[k] == item
    modifies nodes
    ensures nodes' == nodes[..k] + nodes[k + 1..] && Ring(nodes')
    ensures Values(nodes') == Values(nodes)[..k - 1] + Values(nodes)[k..]
    ensures item !in nodes' && item.next == null && item.prev == null
  {
    nodes' := nodes[..k] + nodes[k + 1..];
    ghost var after := nodes[if k + 1 < |nodes| then k + 1 else 0];
    assert item.next == after && item.prev == nodes[k - 1];
    item.next.prev := item.prev;
    item.prev.next := item.next;
    item.next := null;
    item.prev := null;
    WithoutItem(nodes, k);
    assert forall i | 0 <= i < k :: nodes'[i] == nodes[i];
    assert forall i | k <= i < |nodes'| :: nodes'[i] == nodes[i + 1];
  }

  /** dl_list_empty, through the head's own link. */
  lemma EmptyRing<T>(list: Link<T>, nodes: seq<Link<T>>)
    requires Ring(nodes) && nodes[0] == list
    ensures list.next == list <==> |nodes| == 1
    ensures |nodes| > 1 ==> list.next == nodes[1]
  {
    assert |nodes| > 1 ==> nodes[0].next == nodes[1] && nodes[0] != nodes[1];
  }

  /** dl_list_len. */
  method Len<T>(list: Link<T>, ghost nodes: seq<Link<T>>) returns (count: nat)
    requires Ring(nodes) && nodes[0] == list
    ensures count == |Values(nodes)|
  {
    count := 0;
    var item := list.next;
    EmptyRing(list, nodes);
    while item != list
      invariant count < |nodes|
      invariant item == if count + 1 < |nodes| then nodes[count + 1] else list
      decreases |nodes| - count
    {
      item := item.next;
      count := count + 1;
    }
  }

  ghost predicate Within<T>(nodes: seq<Link<T>>, all: seq<Link<T>>) {
    forall i | 0 <= i < |nodes| :: nodes[i] in all
  }

  lemma RingEntries<T>(nodes: seq<Link<T>>)
    requires Ring(nodes)
    ensures |nodes| > 0 && Entries(nodes)
  {}

  /** Walking the ring: the link and the value at a position. */
  lemma At<T>(nodes: seq<Link<T>>, k: nat)
    requires Ring(nodes) && k < |nodes|
    ensures Entries(nodes)
    ensures nodes[k].next == nodes[if k + 1 < |nodes| then k + 1 else 0]
    ensures nodes[k].prev == nodes[if k > 0 then k - 1 else |nodes| - 1]
    ensures k > 0 ==> nodes[k].data == Entry(Values(nodes)[k - 1]) && nodes[k] != nodes[0]
  {}
}
