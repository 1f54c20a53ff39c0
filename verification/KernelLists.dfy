/** OS/list.c: the circular doubly linked list with an end marker and a cursor.

    The ghost field ring is the nodes in pxNext order starting at the end marker, and cursor is where
    pxIndex points in it. Each operation is proved against the sequence of items it leaves
    (Contents, the view the other modules use) and against the order in which repeated
    listGET_OWNER_OF_NEXT_ENTRY calls will return the items (VisitOrder). */
module KernelLists {
  import opened SortedLists

  class ListItem {
    var xItemValue: nat
    var pxNext: ListItem?
    var pxPrevious: ListItem?
    var pvOwner: nat
    var pxContainer: List?

    /** vListInitialiseItem: not on any list. */
    constructor (value: nat, owner: nat)
      ensures xItemValue == value && pvOwner == owner && pxContainer == null
    {
      xItemValue, pvOwner, pxContainer := value, owner, null;
    }
  }

  /** The index after i on a ring of n nodes. */
  function Next(i: nat, n: nat): nat {
    if i + 1 < n then i + 1 else 0
  }

  ghost predicate Distinct(ring: seq<ListItem>) {
    forall i, j :: 0 <= i < j < |ring| ==> ring[i] != ring[j]
  }

  /** Every link of the ring is in place but the one after the node at gap (none missing if gap is
      not a position). */
  ghost predicate LinkedBut(ring: seq<ListItem>, gap: nat)
    reads ring
  {
    forall i {:trigger Next(i, |ring|)} :: 0 <= i < |ring| && i != gap ==>
      && ring[i].pxNext == ring[Next(i, |ring|)]
      && ring[Next(i, |ring|)].pxPrevious == ring[i]
  }

  ghost predicate Linked(ring: seq<ListItem>)
    reads ring
  {
    LinkedBut(ring, |ring|)
  }

  ghost function Spliced(ring: seq<ListItem>, k: nat, x: ListItem): seq<ListItem>
    requires k <= |ring|
  {
    ring[..k] + [x] + ring[k..]
  }

  /** An item linked into the gap after position k - 1 closes the ring again. */
  lemma {:induction false} SplicedLinked(ring: seq<ListItem>, k: nat, x: ListItem)
    requires 0 < k <= |ring| && x !in ring && Distinct(ring) && LinkedBut(ring, k - 1)
    requires x.pxPrevious == ring[k - 1] && x.pxNext == ring[Next(k - 1, |ring|)]
    requires ring[k - 1].pxNext == x && ring[Next(k - 1, |ring|)].pxPrevious == x
    ensures Linked(Spliced(ring, k, x)) && Distinct(Spliced(ring, k, x))
  {
    var n, r := |ring|, Spliced(ring, k, x);
    forall i {:trigger Next(i, |r|)} | 0 <= i < |r|
      ensures r[i].pxNext == r[Next(i, |r|)] && r[Next(i, |r|)].pxPrevious == r[i]
    {
      if i < k - 1 {
        assert Next(i, n) == i + 1;
      } else if k < i {
        assert Next(i - 1, n) == if i < n then i else 0;
      }
    }
  }

  /** With the node at position k - 1 and its neighbour joined directly, removing that node from the
      ring leaves it linked. */
  lemma {:induction false} UnsplicedLinked(ring: seq<ListItem>, k: nat)
    requires 0 < k < |ring| && Distinct(ring)
    requires ring[k - 1].pxNext == ring[Next(k, |ring|)] && ring[Next(k, |ring|)].pxPrevious == ring[k - 1]
    requires forall i {:trigger Next(i, |ring|)} :: 0 <= i < |ring| && i != k - 1 && i != k ==>
      && ring[i].pxNext == ring[Next(i, |ring|)]
      && ring[Next(i, |ring|)].pxPrevious == ring[i]
    ensures Linked(Without(ring, k)) && Distinct(Without(ring, k))
  {
    var n, r := |ring|, Without(ring, k);
    forall i {:trigger Next(i, |r|)} | 0 <= i < |r|
      ensures r[i].pxNext == r[Next(i, |r|)] && r[Next(i, |r|)].pxPrevious == r[i]
    {
      if i < k - 1 {
        assert Next(i, n) == i + 1;
      } else if k <= i {
        assert Next(i + 1, n) == if i + 2 < n then i + 2 else 0;
      }
    }
  }

  ghost function Without<T>(s: seq<T>, k: nat): seq<T>
    requires k < |s|
  {
    s[..k] + s[k + 1..]
  }

  /** The items of a ring in the order a cursor at position c will next reach them: those after it,
      then, past the end marker, those up to and including the one it is at. */
  ghost function Visits<T>(ring: seq<T>, c: nat): seq<T>
    requires c < |ring|
  {
    ring[c + 1..] + ring[1..c + 1]
  }

  /** The visiting order after k advances. */
  ghost function OrderAfter<T>(v: seq<T>, k: nat): (o: seq<T>)
    requires v != []
    ensures o != []
  {
    if k == 0 then v else
      var o := OrderAfter(v, k - 1);
      o[1..] + [o[0]]
  }

  /** What k consecutive advances return. */
  ghost function Returned<T>(v: seq<T>, k: nat): seq<T>
    requires v != []
  {
    if k == 0 then [] else Returned(v, k - 1) + [OrderAfter(v, k - 1)[0]]
  }

  /** Round robin: over a fixed list of n items, n consecutive advances return every item once, in
      order, and put the cursor back where it was. */
  lemma {:induction false} RoundRobin<T>(v: seq<T>, k: nat)
    requires v != [] && k <= |v|
    ensures Returned(v, k) == v[..k] && OrderAfter(v, k) == v[k..] + v[..k]
    ensures Returned(v, |v|) == v && OrderAfter(v, |v|) == v
  {
    RoundRobinStep(v, k);
    RoundRobinStep(v, |v|);
  }

  lemma {:induction false} RoundRobinStep<T>(v: seq<T>, k: nat)
    requires v != [] && k <= |v|
    ensures Returned(v, k) == v[..k] && OrderAfter(v, k) == v[k..] + v[..k]
  {
    if k != 0 {
      RoundRobinStep(v, k - 1);
      assert OrderAfter(v, k - 1)[0] == v[k - 1];
    }
  }

  /** How many items a cursor at position c passes before it reaches position k. */
  ghost function Turn(n: nat, c: nat, k: nat): nat
    requires c < n && 0 < k < n
  {
    if c < k then k - c - 1 else n - c - 2 + k
  }

  /** Removing an item takes it out of the visiting order and leaves the rest of that order alone,
      also when the cursor was on it and steps back. */
  lemma {:induction false} RemoveVisits<T>(ring: seq<T>, c: nat, k: nat)
    requires c < |ring| && 0 < k < |ring|
    ensures var p := Turn(|ring|, c, k);
      && p < |Visits(ring, c)| && Visits(ring, c)[p] == ring[k]
      && Visits(Without(ring, k), if k <= c then c - 1 else c) == Without(Visits(ring, c), p)
  {
    var p, v := Turn(|ring|, c, k), Visits(ring, c);
    if c < k {
      assert v[p] == ring[c + 1..][p];
      assert v[..p] == ring[c + 1..k] && v[p + 1..] == ring[k + 1..] + ring[1..c + 1];
      assert Without(ring, k)[c + 1..] == ring[c + 1..k] + ring[k + 1..];
      assert Without(ring, k)[1..c + 1] == ring[1..c + 1];
    } else {
      assert v[p] == ring[1..c + 1][k - 1];
      assert v[..p] == ring[c + 1..] + ring[1..k] && v[p + 1..] == ring[k + 1..c + 1];
      assert Without(ring, k)[1..c] == ring[1..k] + ring[k + 1..c + 1];
    }
  }

  lemma {:induction false} InsertEndVisits(ring: seq<ListItem>, c: nat, x: ListItem)
    requires c < |ring|
    ensures var v := Visits(ring, c);
      if c == 0 then Visits(Spliced(ring, |ring|, x), 0) == v + [x]
      else Visits(Spliced(ring, c, x), c + 1) == v[..|v| - 1] + [x] + v[|v| - 1..]
  {
    var v := Visits(ring, c);
    if c == 0 {
      assert Spliced(ring, |ring|, x) == ring + [x];
    } else {
      var r := Spliced(ring, c, x);
      assert v == ring[c + 1..] + (ring[1..c] + [ring[c]]);
      assert v == (ring[c + 1..] + ring[1..c]) + [ring[c]];
      assert r[c + 2..] == ring[c + 1..] && r[1..c + 2] == ring[1..c] + [x] + [ring[c]];
    }
  }

  /** An item inserted at the end is the last to be visited exactly if the cursor is on the end marker. */
  lemma {:induction false} InsertEndIsLastIff(ring: seq<ListItem>, c: nat, x: ListItem)
    requires c < |ring| && x !in ring
    ensures var v := if c == 0 then Visits(Spliced(ring, |ring|, x), 0) else Visits(Spliced(ring, c, x), c + 1);
      v != [] && (v[|v| - 1] == x <==> c == 0)
  {
    InsertEndVisits(ring, c, x);
    var v := Visits(ring, c);
    if c != 0 {
      assert v[|v| - 1] == ring[c];
    }
  }

  /** Advancing the cursor moves the first item of the visiting order to its end. */
  lemma {:induction false} AdvanceVisits<T>(ring: seq<T>, c: nat)
    requires c < |ring| && 1 < |ring|
    ensures var v, next := Visits(ring, c), if c + 1 < |ring| then c + 1 else 1;
      |v| == |ring| - 1 && v[0] == ring[next] && Visits(ring, next) == v[1..] + [v[0]]
  {
    var v := Visits(ring, c);
    if c + 1 < |ring| {
      var x, a, b := ring[c + 1], ring[c + 2..], ring[1..c + 1];
      assert ring[c + 1..] == [x] + a;
      assert ring[1..c + 2] == b + [x];
      FirstToEnd(x, a, b);
      assert v == ([x] + a) + b && Visits(ring, c + 1) == a + (b + [x]);
    } else {
      var x, a := ring[1], ring[2..];
      assert ring[c + 1..] == [] && ring[1..c + 1] == [x] + a;
      assert v == [x] + a && v[0] == x && v[1..] == a;
      assert ring[1..2] == [x];
      assert Visits(ring, 1) == a + [x];
    }
  }

  lemma {:induction false} FirstToEnd<T>(x: T, a: seq<T>, b: seq<T>)
    ensures var v := ([x] + a) + b; v[0] == x && v[1..] == a + b && v[1..] + [x] == a + (b + [x])
  {
  }

  class List {
    var uxNumberOfItems: nat
    var pxIndex: ListItem
    const xListEnd: ListItem
    const portMAX_DELAY: nat
    ghost var ring: seq<ListItem>
    ghost var cursor: nat

    ghost predicate Valid()
      reads this, ring
    {
      Counted() && Linked(ring)
    }

    /** Everything but the links. */
    ghost predicate Counted()
      reads this, ring
    {
      Members() && cursor < |ring| && pxIndex == ring[cursor]
    }

    ghost predicate Members()
      reads this, ring
    {
      && |ring| == uxNumberOfItems + 1
      && ring[0] == xListEnd && xListEnd.xItemValue == portMAX_DELAY && xListEnd.pxContainer == null
      && Distinct(ring)
      && (forall i :: 0 < i < |ring| ==> ring[i].pxContainer == this && ring[i].xItemValue <= portMAX_DELAY)
    }

    /** The list as the other modules see it. */
    ghost function Contents(): (s: seq<Item>)
      requires ring != []
      reads this, ring
      ensures |s| == |ring| - 1
      ensures forall i :: 0 <= i < |s| ==> s[i] == Item(ring[i + 1].xItemValue, ring[i + 1].pvOwner)
    {
      seq(|ring| - 1, i requires 0 <= i < |ring| - 1 reads this, ring =>
        Item(ring[i + 1].xItemValue, ring[i + 1].pvOwner))
    }

    /** The items in the order repeated NextEntry calls will return them. */
    ghost function VisitOrder(): seq<ListItem>
      requires cursor < |ring|
      reads this
    {
      Visits(ring, cursor)
    }

    /** vListInitialise */
    constructor (maxDelay: nat)
      ensures Valid() && Contents() == [] && portMAX_DELAY == maxDelay && fresh(ring)
    {
      var end := new ListItem(maxDelay, 0);
      xListEnd, pxIndex, uxNumberOfItems, portMAX_DELAY := end, end, 0, maxDelay;
      ring, cursor := [end], 0;
      new;
      xListEnd.pxNext, xListEnd.pxPrevious := xListEnd, xListEnd;
    }

    /** The tail of every insertion: remember the container and count the item. The cursor stays on
        its node. */
    method Adopt(x: ListItem, ghost k: nat)
      requires Counted() && 0 < k <= |ring| && x !in ring && x.xItemValue <= portMAX_DELAY
      requires Linked(Spliced(ring, k, x))
      modifies this`uxNumberOfItems, this`ring, this`cursor, x`pxContainer
      ensures Valid() && ring == old(Spliced(ring, k, x))
      ensures cursor == old(if k <= cursor then cursor + 1 else cursor)
    {
      x.pxContainer := this;
      uxNumberOfItems := uxNumberOfItems + 1;
      cursor := if k <= cursor then cursor + 1 else cursor;
      ring := Spliced(ring, k, x);
    }

    /** vListInsertEnd: just behind the cursor. With the cursor on an item that item comes round after
        the new one; only with the cursor on the end marker is the new item the last to be visited. */
    method InsertEnd(x: ListItem)
      requires Valid() && x !in ring && x.pxContainer == null && x.xItemValue <= portMAX_DELAY
      modifies this, ring`pxNext, ring`pxPrevious, x`pxNext, x`pxPrevious, x`pxContainer
      ensures Valid()
      ensures ring == old(Spliced(ring, if cursor == 0 then |ring| else cursor, x))
      ensures var v := old(VisitOrder());
        VisitOrder() == if old(cursor) == 0 then v + [x] else v[..|v| - 1] + [x] + v[|v| - 1..]
    {
      ghost var r, c := ring, cursor;
      ghost var k := if c == 0 then |r| else c;
      assert Next(k - 1, |r|) == c && r[k - 1] == pxIndex.pxPrevious;
      x.pxNext := pxIndex;
      x.pxPrevious := pxIndex.pxPrevious;
      pxIndex.pxPrevious.pxNext := x;
      pxIndex.pxPrevious := x;
      SplicedLinked(r, k, x);
      Adopt(x, k);
      InsertEndVisits(r, c, x);
    }

    /** vListInsertBefore */
    static method InsertBefore(current: ListItem, x: ListItem, ghost k: nat)
      requires current.pxContainer != null
      requires var list := current.pxContainer;
        && list.Valid() && 0 < k < |list.ring| && list.ring[k] == current
        && x !in list.ring && x.pxContainer == null && x.xItemValue <= list.portMAX_DELAY
      modifies current.pxContainer, current.pxContainer.ring`pxNext, current.pxContainer.ring`pxPrevious,
        x`pxNext, x`pxPrevious, x`pxContainer
      ensures current.pxContainer == old(current.pxContainer)
      ensures var list := current.pxContainer;
        && list.Valid() && list.pxIndex == old(list.pxIndex)
        && list.ring == old(Spliced(list.ring, k, x))
    {
      var pxList := current.pxContainer;
      ghost var r := pxList.ring;
      assert Next(k - 1, |r|) == k && r[k - 1] == current.pxPrevious;
      x.pxNext := current;
      x.pxPrevious := current.pxPrevious;
      current.pxPrevious.pxNext := x;
      current.pxPrevious := x;
      SplicedLinked(r, k, x);
      pxList.Adopt(x, k);
    }

    /** The position vListInsert inserts at. The search ends because the end marker holds the largest
        value, which no searched value reaches. */
    method FindPosition(value: nat) returns (pxIterator: ListItem, ghost p: nat)
      requires Valid() && value <= portMAX_DELAY
      ensures p < |ring| && pxIterator == ring[p] && StopsAt(Contents(), value, p)
    {
      if value == portMAX_DELAY {
        p := |ring| - 1;
        assert Next(p, |ring|) == 0;
        pxIterator := xListEnd.pxPrevious;
      } else {
        pxIterator, p := xListEnd, 0;
        assert pxIterator.pxNext == ring[Next(0, |ring|)];
        while pxIterator.pxNext.xItemValue <= value
          invariant p < |ring| && pxIterator == ring[p] && pxIterator.pxNext == ring[Next(p, |ring|)]
          invariant forall i :: 0 < i <= p ==> ring[i].xItemValue <= value
          decreases |ring| - p
        {
          pxIterator := pxIterator.pxNext;
          p := p + 1;
          assert pxIterator.pxNext == ring[Next(p, |ring|)];
        }
      }
    }

    /** vListInsert. The item itself is in the ring, behind all items of no greater value. */
    method Insert(x: ListItem) returns (ghost p: nat)
      requires Valid() && x !in ring && x.pxContainer == null && x.xItemValue <= portMAX_DELAY
      modifies this, ring`pxNext, ring`pxPrevious, x`pxNext, x`pxPrevious, x`pxContainer
      ensures Valid() && pxIndex == old(pxIndex)
      ensures p < |old(ring)| && StopsAt(old(Contents()), x.xItemValue, p) && ring == old(Spliced(ring, p + 1, x))
      ensures Contents() == SortedLists.Insert(old(Contents()), Item(x.xItemValue, x.pvOwner))
    {
      ghost var was := Contents();
      var pxIterator;
      pxIterator, p := FindPosition(x.xItemValue);
      Link(pxIterator, x, p);
      InsertAt(was, Item(x.xItemValue, x.pvOwner), p);
      assert Contents() == was[..p] + [Item(x.xItemValue, x.pvOwner)] + was[p..];
    }

    /** The tail of vListInsert: x goes after the pxIterator. */
    method Link(pxIterator: ListItem, x: ListItem, ghost p: nat)
      requires Valid() && x !in ring && x.pxContainer == null && x.xItemValue <= portMAX_DELAY
      requires p < |ring| && ring[p] == pxIterator
      modifies this, ring`pxNext, ring`pxPrevious, x`pxNext, x`pxPrevious, x`pxContainer
      ensures Valid() && pxIndex == old(pxIndex)
      ensures ring == old(Spliced(ring, p + 1, x))
    {
      assert pxIterator.pxNext == ring[Next(p, |ring|)];
      x.pxNext := pxIterator.pxNext;
      x.pxNext.pxPrevious := x;
      x.pxPrevious := pxIterator;
      pxIterator.pxNext := x;
      SplicedLinked(ring, p + 1, x);
      Adopt(x, p + 1);
    }

    /** Where the cursor is once the item at position k is gone: a cursor on it steps back. */
    ghost function CursorWithout(k: nat): nat
      requires 0 < k
      reads this
    {
      if k <= cursor then cursor - 1 else cursor
    }

    /** The tail of a removal: forget the container and count the item out. */
    method Disown(x: ListItem, ghost k: nat) returns (left: nat)
      requires Members() && 0 < k < |ring| && ring[k] == x && cursor < |ring|
      requires Linked(Without(ring, k)) && pxIndex == Without(ring, k)[CursorWithout(k)]
      modifies this`uxNumberOfItems, this`ring, this`cursor, x`pxContainer
      ensures Valid() && x.pxContainer == null
      ensures ring == old(Without(ring, k)) && left == |ring| - 1 && cursor == old(CursorWithout(k))
    {
      x.pxContainer := null;
      uxNumberOfItems := uxNumberOfItems - 1;
      cursor := CursorWithout(k);
      ring := Without(ring, k);
      left := uxNumberOfItems;
    }

    /** uxListRemove, listREMOVE_ITEM */
    static method Remove(x: ListItem, ghost k: nat) returns (left: nat)
      requires x.pxContainer != null
      requires var list := x.pxContainer; list.Valid() && 0 < k < |list.ring| && list.ring[k] == x
      modifies x.pxContainer, x.pxContainer.ring`pxNext, x.pxContainer.ring`pxPrevious, x`pxContainer
      ensures var list := old(x.pxContainer);
        && list.Valid() && x.pxContainer == null
        && list.ring == old(Without(list.ring, k)) && left == |list.ring| - 1
        && list.cursor == old(list.CursorWithout(k))
    {
      var pxList := x.pxContainer;
      ghost var r := pxList.ring;
      assert Next(k - 1, |r|) == k && x.pxPrevious == r[k - 1] && x.pxNext == r[Next(k, |r|)];
      x.pxNext.pxPrevious := x.pxPrevious;
      x.pxPrevious.pxNext := x.pxNext;
      UnsplicedLinked(r, k);
      if pxList.pxIndex == x {
        pxList.pxIndex := x.pxPrevious;
      }
      left := pxList.Disown(x, k);
    }

    /** listGET_OWNER_OF_NEXT_ENTRY: advance, stepping over the end marker. */
    method NextEntry() returns (owner: nat)
      requires Valid() && 1 < |ring|
      modifies this`pxIndex, this`cursor
      ensures Valid()
      ensures var v := old(VisitOrder());
        owner == v[0].pvOwner && pxIndex == v[0] && VisitOrder() == v[1..] + [v[0]]
    {
      AdvanceVisits(ring, cursor);
      assert pxIndex.pxNext == ring[Next(cursor, |ring|)] && xListEnd.pxNext == ring[Next(0, |ring|)];
      pxIndex := pxIndex.pxNext;
      if pxIndex == xListEnd {
        pxIndex := xListEnd.pxNext;
      }
      cursor := if cursor + 1 < |ring| then cursor + 1 else 1;
      owner := pxIndex.pvOwner;
    }
  }
}
