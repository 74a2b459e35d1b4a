/**
The pool of tools/jsoncpp/json_batchallocator.h: pages linked from `batches`, a bump mark in
each, and a free list threaded through the released objects.
*/
module BatchAllocator {
  /** BatchInfo; positions are counted in objects from the start of its buffer, which has room for
      more of them than the mark `end` says. */
  class Batch {
    var next: Batch?
    var used: nat
    const end: nat
    const room: nat

    /** allocateBatch. */
    constructor (objectsPerPage: nat, perAllocation: nat)
      ensures next == null && used == 0 && end == objectsPerPage && room == perAllocation * objectsPerPage
    {
      next, used, end, room := null, 0, objectsPerPage, perAllocation * objectsPerPage;
    }
  }

  /** The address of an allocation. */
  datatype Slot = Slot(batch: Batch, offset: nat)

  datatype Link = Nil | To(slot: Slot)

  // ----- Positions that are multiples of the allocation size -----

  predicate Multiple(o: nat, k: nat)
    requires k > 0
  {
    o == 0 || (o >= k && Multiple(o - k, k))
  }

  lemma {:induction false} RoomForOne(used: nat, end: nat, k: nat)
    requires k > 0 && Multiple(used, k) && Multiple(end, k) && used < end
    ensures used + k <= end
  {
    if used > 0 {
      RoomForOne(used - k, end - k, k);
    }
  }

  lemma {:induction false} NothingBetween(used: nat, o: nat, k: nat)
    requires k > 0 && Multiple(used, k) && Multiple(o, k) && used <= o < used + k
    ensures o == used
  {
    if used > 0 {
      NothingBetween(used - k, o - k, k);
    }
  }

  lemma {:induction false} ProductIsMultiple(n: nat, k: nat)
    requires k > 0
    ensures n * k >= 0 && Multiple(n * k, k)
  {
    if n > 0 {
      ProductIsMultiple(n - 1, k);
      assert n * k == (n - 1) * k + k;
    }
  }

  lemma {:induction false} Factor(o: nat, k: nat) returns (n: nat)
    requires k > 0 && Multiple(o, k)
    ensures o == n * k
  {
    if o == 0 {
      n := 0;
    } else {
      var m := Factor(o - k, k);
      n := m + 1;
      assert n * k == m * k + k;
    }
  }

  /** The predicate is what its name says. */
  lemma MultipleIsProduct(o: nat, k: nat)
    requires k > 0
    ensures Multiple(o, k) <==> exists n: nat :: o == n * k
  {
    if Multiple(o, k) {
      var n := Factor(o, k);
    }
    forall n: nat | o == n * k ensures Multiple(o, k) {
      ProductIsMultiple(n, k);
    }
  }

  // ----- Where the bump at the end of allocate puts its objects -----

  /** How many pages there are besides the dummy, and the mark of the current one. */
  datatype Mark = Mark(pages: nat, used: nat)

  function End(pages: nat, size: nat): nat { if pages == 0 then 0 else size }

  /** After n bumps: a new page exactly if the mark of the current one equals its end. */
  function Bumped(k: nat, size: nat, n: nat): Mark {
    if n == 0 then Mark(0, 0)
    else
      var m := Bumped(k, size, n - 1);
      if m.used == End(m.pages, size) then Mark(m.pages + 1, k) else Mark(m.pages, m.used + k)
  }

  function Offset(k: nat, size: nat, n: nat): nat {
    var m := Bumped(k, size, n);
    if m.used == End(m.pages, size) then 0 else m.used
  }

  lemma {:induction false} FirstBumpLeavesDummy(k: nat, size: nat, n: nat)
    ensures var m := Bumped(k, size, n); m.pages == 0 ==> m.used == 0
  {
    if n > 0 {
      FirstBumpLeavesDummy(k, size, n - 1);
    }
  }

  lemma MultipleNext(o: nat, k: nat)
    requires k > 0 && Multiple(o, k)
    ensures Multiple(o + k, k)
  {
  }

  /** The allocation size divides the page size, and there is a page to divide. */
  predicate Divides(k: nat, size: nat)
    requires k > 0
  {
    size > 0 && Multiple(size, k)
  }

  lemma {:induction false} MarkStaysInside(k: nat, size: nat, n: nat)
    requires k > 0 && Divides(k, size)
    ensures var m := Bumped(k, size, n); Multiple(m.used, k) && m.used <= End(m.pages, size)
    ensures Offset(k, size, n) + k <= size
  {
    if n > 0 {
      MarkStaysInside(k, size, n - 1);
      var m := Bumped(k, size, n - 1);
      if m.used != End(m.pages, size) {
        RoomForOne(m.used, size, k);
      }
    }
    var m := Bumped(k, size, n);
    RoomForOne(if m.used == End(m.pages, size) then 0 else m.used, size, k);
  }

  lemma {:induction false} MarkRunsOver(k: nat, size: nat, n: nat)
    requires k > 0 && size > 0 && !Multiple(size, k)
    ensures n * k >= 0 && Bumped(k, size, n) == Mark(if n == 0 then 0 else 1, n * k)
  {
    if n > 0 {
      MarkRunsOver(k, size, n - 1);
      ProductIsMultiple(n - 1, k);
      assert n * k == (n - 1) * k + k;
    }
  }

  /** Every allocation of every run lies inside the memory of its page if and only if the allocation size
      divides the page size; otherwise the one whose number is the page size does not. */
  lemma StaysInside(k: nat, size: nat)
    requires k > 0
    ensures (forall n: nat :: Offset(k, size, n) + k <= k * size) <==> Divides(k, size)
    ensures !Divides(k, size) ==> Offset(k, size, size) + k > k * size
  {
    if Divides(k, size) {
      forall n: nat ensures Offset(k, size, n) + k <= k * size {
        MarkStaysInside(k, size, n);
        assert size <= k * size;
      }
    } else if size == 0 {
      assert Offset(k, size, 0) == 0;
    } else {
      MarkRunsOver(k, size, size);
      ProductIsMultiple(size, k);
      var n := size;
      assert size * k == k * size && Offset(k, size, n) == size * k;
    }
  }

  /** Pairs of objects on pages of the default size: allocation 255 is behind the 510 objects of memory. */
  lemma PairsRunOver()
    ensures Offset(2, 255, 255) == 510 && !Divides(2, 255)
  {
    if Multiple(255, 2) {
      var n := Factor(255, 2);
    }
    MarkRunsOver(2, 255, 255);
  }

  /** The free list runs through released objects and never comes back to one. */
  ghost predicate Threaded(head: Link, links: map<Slot, Link>, chain: seq<Slot>)
    decreases |chain|
  {
    if chain == [] then head == Nil
    else
      && head == To(chain[0])
      && chain[0] in links && chain[0] !in chain[1..]
      && Threaded(links[chain[0]], links, chain[1..])
  }

  lemma Unthread(head: Link, links: map<Slot, Link>, chain: seq<Slot>)
    requires Threaded(head, links, chain) && head.To?
    ensures chain != [] && head.slot == chain[0] && head.slot in links && Threaded(links[head.slot], links, chain[1..])
    ensures chain[0] in chain && chain[0] !in chain[1..] && forall s | s in chain :: s == chain[0] || s in chain[1..]
  {
    assert chain == [chain[0]] + chain[1..];
  }

  lemma {:induction false} OtherLink(head: Link, links: map<Slot, Link>, chain: seq<Slot>, slot: Slot, to: Link)
    requires Threaded(head, links, chain) && slot !in chain
    ensures Threaded(head, links[slot := to], chain)
    decreases |chain|
  {
    if chain != [] {
      OtherLink(links[chain[0]], links, chain[1..], slot, to);
    }
  }

  lemma Rethread(head: Link, links: map<Slot, Link>, chain: seq<Slot>, slot: Slot)
    requires Threaded(head, links, chain) && slot !in chain
    ensures Threaded(To(slot), links[slot := head], [slot] + chain)
    ensures forall s | s in [slot] + chain :: s == slot || s in chain
  {
    OtherLink(head, links, chain, slot, head);
    assert ([slot] + chain)[1..] == chain;
  }

  class Allocator {
    const perAllocation: nat
    const objectsPerPage: nat
    var batches: Batch?
    var currentBatch: Batch?
    var freeHead: Link
    var links: map<Slot, Link>       // what is stored in released objects
    ghost var pages: seq<Batch>      // the list from `batches`
    ghost var chain: seq<Slot>       // the list from `freeHead`
    ghost var live: set<Slot>
    ghost var bumps: nat

    ghost predicate Linked()
      reads this`batches, this`pages, pages
    {
      && |pages| > 0
      && batches == pages[0]
      && (forall i, j | 0 <= i < j < |pages| :: pages[i] != pages[j])
      && (forall i {:trigger pages[i].next} | 0 <= i < |pages| - 1 :: pages[i].next == pages[i + 1])
      && pages[|pages| - 1].next == null
    }

    /** Every page but the first is full, and the first is the current one. */
    ghost predicate Paged()
      reads this`currentBatch, this`pages, pages
    {
      && perAllocation > 0 && |pages| > 0
      && currentBatch == pages[0]
      && (forall i {:trigger pages[i].end} {:trigger pages[i].room} | 0 <= i < |pages| ::
            && pages[i].end == End(|pages| - 1 - i, objectsPerPage)
            && pages[i].room == perAllocation * pages[i].end)
      && (forall i {:trigger pages[i].used} | 0 <= i < |pages| ::
            Multiple(pages[i].used, perAllocation) && (i > 0 ==> pages[i].used == pages[i].end))
    }

    /** So many bumps have brought the pages to where they are. */
    ghost predicate Counted()
      requires Paged()
      reads this`currentBatch, this`pages, this`bumps, pages
    {
      Bumped(perAllocation, objectsPerPage, bumps) == Mark(|pages| - 1, pages[0].used)
    }

    /** The next bump can be made: a page that had come to its end is replaced. */
    ghost predicate Ready()
      requires Paged()
      reads this, pages
    {
      var m := Bumped(perAllocation, objectsPerPage, bumps);
      if m.used == End(m.pages, objectsPerPage) then |pages| == m.pages + 2 && pages[0].used == 0 else Counted()
    }

    ghost predicate Taken(s: Slot)
      requires perAllocation > 0
      reads this`pages, pages
    {
      s.batch in pages && s.offset < s.batch.used && Multiple(s.offset, perAllocation)
    }

    /** Slots below a mark are live or free, never both; slots above it are neither. */
    ghost predicate Partitioned()
      requires perAllocation > 0
      reads this, pages
    {
      && (forall s | s in live :: s !in chain)
      && (forall s | s in live :: Taken(s))
      && (forall s | s in chain :: Taken(s))
      && (forall b, o: nat | b in pages && o < b.used && Multiple(o, perAllocation) :: Slot(b, o) in live || Slot(b, o) in chain)
    }

    ghost predicate Sound()
      reads this, pages
    {
      Linked() && Paged() && Threaded(freeHead, links, chain) && Partitioned()
    }

    ghost predicate Valid()
      reads this, pages
    {
      Sound() && Counted()
    }

    /** An empty dummy page to start with. */
    constructor (perAllocation: nat, objectsPerPage: nat)
      requires perAllocation > 0
      ensures Valid() && live == {} && bumps == 0
      ensures this.perAllocation == perAllocation && this.objectsPerPage == objectsPerPage
      ensures freeHead.Nil?
      ensures forall i | 0 <= i < |pages| :: fresh(pages[i])
    {
      this.perAllocation := perAllocation;
      this.objectsPerPage := objectsPerPage;
      var dummy := new Batch(0, perAllocation);
      batches, currentBatch, freeHead, links := dummy, dummy, Nil, map[];
      pages, chain, live, bumps := [dummy], [], {}, 0;
    }

    /** The search for a page with room, which only ever ends in a new page. */
    method NextBatch()
      requires Valid() && chain == []
      requires currentBatch.used == currentBatch.end
      modifies this`batches, this`currentBatch, this`pages
      ensures Sound() && Ready() && live == old(live) && chain == old(chain)
      ensures fresh(currentBatch) && pages == [currentBatch] + old(pages)
      ensures currentBatch.used == 0 && currentBatch.end == objectsPerPage
    {
      assert pages[0].end == End(|pages| - 1, objectsPerPage);
      var b := currentBatch.next;
      ghost var i := 1;
      while b != null && b.used == b.end
        invariant i <= |pages|
        invariant b == if i < |pages| then pages[i] else null
        decreases |pages| - i
      {
        b := b.next;
        i := i + 1;
      }
      LinkPage();
    }

    /** A new page at the head of the list. */
    method LinkPage()
      requires Sound() && currentBatch.used == currentBatch.end
      modifies this`batches, this`currentBatch, this`pages
      ensures Sound() && fresh(currentBatch) && pages == [currentBatch] + old(pages)
      ensures currentBatch.used == 0 && currentBatch.end == objectsPerPage
    {
      assert Multiple(0, perAllocation);
      hide Threaded, Multiple;
      var page := new Batch(objectsPerPage, perAllocation);
      page.next := batches;
      ghost var was := pages;
      currentBatch, batches := page, page;
      pages := [page] + pages;
      assert forall i | 1 <= i < |pages| :: pages[i] == was[i - 1];
      assert Linked() && Paged();
      assert Partitioned();
    }

    /** allocate: never a live slot; fresh ones come where the bumps put them, and if the allocation
        size divides the page size, all of them are in front of the end of their page. */
    method Allocate() returns (s: Slot)
      requires Valid()
      modifies this, pages
      ensures Valid()
      ensures s !in old(live) && live == old(live) + {s}
      ensures old(freeHead).To? ==> bumps == old(bumps) && s in old(chain)
      ensures old(freeHead).Nil? ==>
                && bumps == old(bumps) + 1 && freeHead.Nil?
                && s.offset == Offset(perAllocation, objectsPerPage, old(bumps))
                && s.batch.room == perAllocation * objectsPerPage
      ensures Divides(perAllocation, objectsPerPage) ==> s.offset + perAllocation <= s.batch.end
      ensures forall i | 0 <= i < |pages| :: pages[i] in old(pages) || fresh(pages[i])
    {
      if freeHead.To? {
        s := Unfree();
        return;
      }
      assert pages[0].end == End(|pages| - 1, objectsPerPage);
      if currentBatch.used == currentBatch.end {
        NextBatch();
      }
      s := Bump();
    }

    /** The first branch of allocate: the head of the free list. */
    method Unfree() returns (s: Slot)
      requires Valid() && freeHead.To?
      modifies this`freeHead, this`chain, this`live
      ensures Valid()
      ensures s !in old(live) && live == old(live) + {s} && s in old(chain)
      ensures Divides(perAllocation, objectsPerPage) ==> s.offset + perAllocation <= s.batch.end
    {
      Unthread(freeHead, links, chain);
      hide Threaded;
      s := freeHead.slot;
      assert Taken(s);
      if Divides(perAllocation, objectsPerPage) {
        TakenInside(s);
      }
      freeHead := links[s];
      chain := chain[1..];
      live := live + {s};
      hide Multiple;
      assert Linked() && Paged();
      forall x | x in live ensures x !in chain && Taken(x) {
        assert x == s || x in old(live);
      }
      assert Partitioned();
    }

    lemma TakenInside(s: Slot)
      requires Valid() && Divides(perAllocation, objectsPerPage) && Taken(s)
      ensures s.offset + perAllocation <= s.batch.end
    {
      var i :| 0 <= i < |pages| && pages[i] == s.batch;
      MarkStaysInside(perAllocation, objectsPerPage, bumps);
      assert pages[i].used <= pages[i].end && pages[i].end == End(|pages| - 1 - i, objectsPerPage);
      RoomForOne(s.offset, s.batch.end, perAllocation);
    }

    /** The bump at the end of allocate. */
    method Bump() returns (s: Slot)
      requires Sound() && chain == [] && Ready()
      modifies this`live, this`bumps, pages
      ensures Valid()
      ensures s !in old(live) && live == old(live) + {s}
      ensures bumps == old(bumps) + 1 && s.offset == Offset(perAllocation, objectsPerPage, old(bumps))
      ensures s.batch.room == perAllocation * objectsPerPage
      ensures Divides(perAllocation, objectsPerPage) ==> s.offset + perAllocation <= s.batch.end
    {
      if Divides(perAllocation, objectsPerPage) {
        MarkStaysInside(perAllocation, objectsPerPage, bumps);
      }
      NotTheDummy();
      hide Multiple, Bumped, Offset, Divides, Threaded, Linked, Paged, Counted, Taken, Partitioned, Ready;
      s := Advance();
      GoesLive(s);
    }

    /** The slot at the mark, which has moved on: nothing else below the marks is new. */
    method Advance() returns (s: Slot)
      requires Linked() && Paged() && Threaded(freeHead, links, chain) && Partitioned() && chain == []
      requires Bumped(perAllocation, objectsPerPage, bumps + 1) == Mark(|pages| - 1, pages[0].used + perAllocation)
      modifies currentBatch`used, this`bumps
      ensures Linked() && Paged() && Counted() && Threaded(freeHead, links, chain)
      ensures bumps == old(bumps) + 1 && s == Slot(currentBatch, old(currentBatch.used))
      ensures s !in live && Taken(s) && forall x | x in live :: Taken(x)
      ensures AllLiveBut(s)
    {
      hide Multiple, Bumped, Threaded, Linked, Counted;
      s := Slot(currentBatch, currentBatch.used);
      MoveMark();
      forall c, o: nat | c in pages && o < c.used && Multiple(o, perAllocation)
        ensures Slot(c, o) in live || Slot(c, o) == s
      {
        if c == currentBatch && o >= s.offset {
          NothingBetween(s.offset, o, perAllocation);
        }
      }
    }

    ghost predicate AllLiveBut(s: Slot)
      requires perAllocation > 0
      reads this`pages, this`live, pages
    {
      forall b, o: nat | b in pages && o < b.used && Multiple(o, perAllocation) :: Slot(b, o) in live || Slot(b, o) == s
    }

    /** The slot below the new mark is live now. */
    ghost method GoesLive(s: Slot)
      requires perAllocation > 0 && chain == [] && s !in live && Taken(s)
      requires forall x | x in live :: Taken(x)
      requires AllLiveBut(s)
      modifies this`live
      ensures live == old(live) + {s} && Partitioned()
    {
      hide Multiple;
      live := live + {s};
    }

    method MoveMark()
      requires Linked() && Paged() && Threaded(freeHead, links, chain)
      requires Bumped(perAllocation, objectsPerPage, bumps + 1) == Mark(|pages| - 1, pages[0].used + perAllocation)
      modifies currentBatch`used, this`bumps
      ensures Linked() && Paged() && Counted() && Threaded(freeHead, links, chain)
      ensures bumps == old(bumps) + 1 && currentBatch.used == old(currentBatch.used) + perAllocation
    {
      MultipleNext(currentBatch.used, perAllocation);
      hide Multiple, Bumped, Threaded;
      currentBatch.used := currentBatch.used + perAllocation;
      bumps := bumps + 1;
    }

    /** Bumps never happen on the dummy page. */
    lemma NotTheDummy()
      requires Sound() && Ready()
      ensures |pages| > 1 && pages[0].end == objectsPerPage && pages[0].room == perAllocation * objectsPerPage
      ensures pages[0].used == Offset(perAllocation, objectsPerPage, bumps)
      ensures Bumped(perAllocation, objectsPerPage, bumps + 1) == Mark(|pages| - 1, pages[0].used + perAllocation)
    {
      FirstBumpLeavesDummy(perAllocation, objectsPerPage, bumps);
      assert pages[0].end == End(|pages| - 1, objectsPerPage);
      assert pages[0].room == perAllocation * pages[0].end;
    }

    /** release: the object goes to the front of the free list. */
    method Release(slot: Slot)
      requires Valid() && slot in live
      modifies this`freeHead, this`links, this`chain, this`live
      ensures Valid() && live == old(live) - {slot} && chain == [slot] + old(chain) && bumps == old(bumps)
    {
      Rethread(freeHead, links, chain, slot);
      hide Threaded;
      links := links[slot := freeHead];
      freeHead := To(slot);
      chain := [slot] + chain;
      live := live - {slot};
    }
  }

  /** As many allocations as asked for, with no release between them. */
  method AllocateMany(perAllocation: nat, objectsPerPage: nat, n: nat) returns (slots: seq<Slot>)
    requires perAllocation > 0
    ensures |slots| == n && Distinct(slots)
    ensures forall i | 0 <= i < n ::
              slots[i].offset == Offset(perAllocation, objectsPerPage, i) && slots[i].batch.room == perAllocation * objectsPerPage
    ensures n > objectsPerPage ==>
              ((forall i | 0 <= i < n :: slots[i].offset + perAllocation <= slots[i].batch.room)
               <==> Divides(perAllocation, objectsPerPage))
  {
    var a := new Allocator(perAllocation, objectsPerPage);
    hide Allocator.Linked, Allocator.Paged, Allocator.Counted, Allocator.Partitioned, Threaded, Offset, Divides, Multiple;
    slots := [];
    for i := 0 to n
      invariant a.Valid() && a.perAllocation == perAllocation && a.objectsPerPage == objectsPerPage && fresh(a)
      invariant forall j | 0 <= j < |a.pages| :: fresh(a.pages[j])
      invariant a.freeHead.Nil? && a.bumps == i == |slots| && Distinct(slots) && a.live == Elements(slots)
      invariant forall j | 0 <= j < i ::
                  slots[j].offset == Offset(perAllocation, objectsPerPage, j) && slots[j].batch.room == perAllocation * objectsPerPage
    {
      var s := a.Allocate();
      slots := slots + [s];
    }
    StaysInside(perAllocation, objectsPerPage);
    assert n > objectsPerPage ==> slots[objectsPerPage].offset == Offset(perAllocation, objectsPerPage, objectsPerPage);
  }

  /** A run of allocations and releases; a release names an allocation by its position among those still held. */
  datatype Request = Take | Give(index: nat)

  function Takes(requests: seq<Request>): nat {
    if requests == [] then 0 else Takes(requests[..|requests| - 1]) + if requests[|requests| - 1].Take? then 1 else 0
  }

  /** Which allocations are held after the requests, by their number. */
  function Held(requests: seq<Request>): (ids: seq<nat>)
    ensures forall i | 0 <= i < |ids| :: ids[i] < Takes(requests)
  {
    if requests == [] then []
    else
      var before := Held(requests[..|requests| - 1]);
      match requests[|requests| - 1]
      case Take => before + [Takes(requests[..|requests| - 1])]
      case Give(i) => if i < |before| then before[..i] + before[i + 1..] else before
  }

  lemma NoRequests()
    ensures Held([]) == [] && Takes([]) == 0
  {
  }

  lemma LastRequest(requests: seq<Request>, r: nat)
    requires r < |requests|
    ensures var ids, n := Held(requests[..r]), Takes(requests[..r]);
            && Takes(requests[..r + 1]) == n + (if requests[r].Take? then 1 else 0)
            && Held(requests[..r + 1])
               == match requests[r]
                  case Take => ids + [n]
                  case Give(i) => if i < |ids| then ids[..i] + ids[i + 1..] else ids
  {
    assert requests[..r + 1][..r] == requests[..r];
  }

  /** After every run, the slots held are those the requests leave, pairwise different, and exactly the
      live ones of the allocator; all slots ever given lie in front of the end of their page if the
      allocation size divides the page size. */
  method Serve(perAllocation: nat, objectsPerPage: nat, requests: seq<Request>)
    returns (a: Allocator, given: seq<Slot>, held: seq<Slot>)
    requires perAllocation > 0
    ensures fresh(a) && a.Valid() && a.live == Elements(held) && Distinct(held)
    ensures |given| == Takes(requests)
    ensures |held| == |Held(requests)| && forall i | 0 <= i < |held| :: held[i] == given[Held(requests)[i]]
    ensures Divides(perAllocation, objectsPerPage) ==>
              forall i | 0 <= i < |given| :: given[i].offset + perAllocation <= given[i].batch.end
  {
    a := new Allocator(perAllocation, objectsPerPage);
    hide Allocator.Linked, Allocator.Paged, Allocator.Counted, Allocator.Partitioned, Threaded, Divides, Offset, Multiple, Held, Takes;
    NoRequests();
    held, given := [], [];
    for r := 0 to |requests|
      invariant a.Valid() && a.perAllocation == perAllocation && a.objectsPerPage == objectsPerPage && fresh(a)
      invariant forall i | 0 <= i < |a.pages| :: fresh(a.pages[i])
      invariant Holds(a, requests[..r], given, held)
    {
      given, held := ServeOne(a, requests, r, given, held);
    }
    assert requests[..|requests|] == requests;
  }

  /** What is given and held after these requests. */
  ghost predicate Holds(a: Allocator, requests: seq<Request>, given: seq<Slot>, held: seq<Slot>)
    reads a
  {
    && a.perAllocation > 0 && Distinct(held) && a.live == Elements(held)
    && |given| == Takes(requests) && |held| == |Held(requests)|
    && (forall i | 0 <= i < |held| :: held[i] == given[Held(requests)[i]])
    && (Divides(a.perAllocation, a.objectsPerPage) ==>
          forall i | 0 <= i < |given| :: given[i].offset + a.perAllocation <= given[i].batch.end)
  }

  method ServeOne(a: Allocator, requests: seq<Request>, r: nat, given: seq<Slot>, held: seq<Slot>)
    returns (given': seq<Slot>, held': seq<Slot>)
    requires r < |requests| && a.Valid() && Holds(a, requests[..r], given, held)
    modifies a, a.pages
    ensures a.Valid() && Holds(a, requests[..r + 1], given', held')
    ensures forall i | 0 <= i < |a.pages| :: a.pages[i] in old(a.pages) || fresh(a.pages[i])
  {
    hide Allocator.Linked, Allocator.Paged, Allocator.Counted, Allocator.Partitioned, Threaded, Divides, Offset, Multiple, Held, Takes;
    LastRequest(requests, r);
    given', held' := given, held;
    match requests[r]
    case Take =>
      var s := a.Allocate();
      held', given' := held + [s], given + [s];
    case Give(index) =>
      if index < |held| {
        WithoutOne(held, index);
        a.Release(held[index]);
        held' := held[..index] + held[index + 1..];
      }
  }

  ghost predicate Distinct(s: seq<Slot>) { forall i, j | 0 <= i < j < |s| :: s[i] != s[j] }

  ghost function Elements(s: seq<Slot>): set<Slot> { set x | x in s }

  lemma WithoutOne(s: seq<Slot>, i: nat)
    requires i < |s| && Distinct(s)
    ensures s[i] in Elements(s)
    ensures var r := s[..i] + s[i + 1..]; Distinct(r) && Elements(r) == Elements(s) - {s[i]}
  {
    assert s == s[..i] + [s[i]] + s[i + 1..];
  }
}
