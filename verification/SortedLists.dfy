/** The order vListInsert gives a list, on plain sequences.

    Every other module keeps its kernel lists as sequences of Item; KernelLists proves that
    the linked list of OS/list.c refines these functions. */
module SortedLists {

  /** A list item: the value it is sorted by and the object that contains it. */
  datatype Item = Item(value: nat, id: nat)

  ghost predicate Sorted(s: seq<Item>) {
    forall i, j :: 0 <= i < j < |s| ==> s[i].value <= s[j].value
  }

  /** In front of the first item with a greater value. */
  function Insert(s: seq<Item>, x: Item): seq<Item> {
    if s == [] || x.value < s[0].value then [x] + s else [s[0]] + Insert(s[1..], x)
  }

  /** k is the first position whose item has a value greater than v: where the search loop stops. */
  ghost predicate StopsAt(s: seq<Item>, v: nat, k: nat) {
    && k <= |s|
    && (forall i :: 0 <= i < k ==> s[i].value <= v)
    && (k < |s| ==> v < s[k].value)
  }

  lemma {:induction false} StopsTail(s: seq<Item>, v: nat, k: nat)
    requires StopsAt(s, v, k) && 0 < k
    ensures StopsAt(s[1..], v, k - 1) && s[0].value <= v
    ensures [s[0]] + s[1..][..k - 1] == s[..k] && s[1..][k - 1..] == s[k..]
  {
  }

  lemma {:induction false} InsertAt(s: seq<Item>, x: Item, k: nat)
    requires StopsAt(s, x.value, k)
    ensures Insert(s, x) == s[..k] + [x] + s[k..]
  {
    if k != 0 {
      StopsTail(s, x.value, k);
      InsertAt(s[1..], x, k - 1);
    }
  }

  lemma {:induction false} StopExists(s: seq<Item>, v: nat) returns (k: nat)
    ensures StopsAt(s, v, k)
  {
    k := 0;
    while k < |s| && s[k].value <= v
      invariant k <= |s| && forall i :: 0 <= i < k ==> s[i].value <= v
    {
      k := k + 1;
    }
  }

  lemma {:induction false} SortedTail(s: seq<Item>)
    requires Sorted(s) && s != []
    ensures Sorted(s[1..])
    ensures forall y :: y in s[1..] ==> s[0].value <= y.value
  {
    forall i, j | 0 <= i < j < |s| - 1
      ensures s[1..][i].value <= s[1..][j].value
    {
      assert s[i + 1].value <= s[j + 1].value;
    }
  }

  /** Insertion keeps a sorted list sorted. */
  lemma {:induction false} InsertSorted(s: seq<Item>, x: Item)
    requires Sorted(s)
    ensures Sorted(Insert(s, x))
  {
    var k := StopExists(s, x.value);
    InsertAt(s, x, k);
    var r := s[..k] + [x] + s[k..];
    forall i, j | 0 <= i < j < |r|
      ensures r[i].value <= r[j].value
    {
      assert k < |s| ==> s[k].value <= s[|s| - 1].value;
    }
  }

  /** Stability: in a sorted list the new item goes after every item of no greater value, and the
      others keep their places. */
  lemma {:induction false} InsertStable(s: seq<Item>, x: Item) returns (k: nat)
    requires Sorted(s)
    ensures k <= |s| && Insert(s, x) == s[..k] + [x] + s[k..]
    ensures forall i :: 0 <= i < |s| ==> (s[i].value <= x.value <==> i < k)
  {
    k := StopExists(s, x.value);
    InsertAt(s, x, k);
    forall i | k <= i < |s|
      ensures x.value < s[i].value
    {
      assert s[k].value <= s[i].value;
    }
  }

  /** Inserting below everything in b leaves b alone. */
  lemma {:induction false} InsertLeft(a: seq<Item>, b: seq<Item>, x: Item)
    requires b != [] ==> x.value < b[0].value
    ensures Insert(a + b, x) == Insert(a, x) + b
  {
    if a == [] {
      assert a + b == b;
      assert b == [] ==> [x] + b == [x];
    } else {
      assert (a + b)[0] == a[0] && (a + b)[1..] == a[1..] + b;
      InsertLeft(a[1..], b, x);
      if x.value < a[0].value {
        assert [x] + (a + b) == [x] + a + b;
      } else {
        assert [a[0]] + (Insert(a[1..], x) + b) == [a[0]] + Insert(a[1..], x) + b;
      }
    }
  }

  /** Inserting at or above everything in a leaves a alone. */
  lemma {:induction false} InsertRight(a: seq<Item>, b: seq<Item>, x: Item)
    requires forall i :: 0 <= i < |a| ==> a[i].value <= x.value
    ensures Insert(a + b, x) == a + Insert(b, x)
  {
    if a == [] {
      assert a + b == b;
    } else {
      assert (a + b)[0] == a[0] && (a + b)[1..] == a[1..] + b;
      InsertRight(a[1..], b, x);
    }
  }

  lemma {:induction false} InsertMembers(s: seq<Item>, x: Item, y: Item)
    ensures y in Insert(s, x) <==> y in s || y == x
  {
    if s != [] && s[0].value <= x.value {
      InsertMembers(s[1..], x, y);
      assert s == [s[0]] + s[1..];
    }
  }

  /** s without the items of one owner. */
  function Drop(s: seq<Item>, id: nat): seq<Item> {
    if s == [] then [] else if s[0].id == id then Drop(s[1..], id) else [s[0]] + Drop(s[1..], id)
  }

  lemma {:induction false} DropMembers(s: seq<Item>, id: nat, x: Item)
    ensures x in Drop(s, id) <==> x in s && x.id != id
  {
    if s != [] {
      DropMembers(s[1..], id, x);
      assert s == [s[0]] + s[1..];
    }
  }

  lemma {:induction false} DropKeepsSorted(s: seq<Item>, id: nat)
    requires Sorted(s)
    ensures Sorted(Drop(s, id))
  {
    if s != [] {
      SortedTail(s);
      DropKeepsSorted(s[1..], id);
      var r := Drop(s[1..], id);
      forall y | y in r ensures s[0].value <= y.value {
        DropMembers(s[1..], id, y);
      }
      assert forall i :: 0 <= i < |r| ==> r[i] in r;
    }
  }

  ghost predicate HasId(s: seq<Item>, id: nat) {
    exists x :: x in s && x.id == id
  }

  ghost predicate Unique(s: seq<Item>) {
    s == [] || (!HasId(s[1..], s[0].id) && Unique(s[1..]))
  }

  lemma {:induction false} UniqueInsert(s: seq<Item>, x: Item)
    requires Unique(s) && !HasId(s, x.id)
    ensures Unique(Insert(s, x))
  {
    if s != [] && s[0].value <= x.value {
      var r := Insert(s[1..], x);
      assert forall y :: y in s[1..] ==> y in s;
      UniqueInsert(s[1..], x);
      forall y | y in r ensures y.id != s[0].id {
        InsertMembers(s[1..], x, y);
        assert s[0] in s;
      }
      assert ([s[0]] + r)[1..] == r;
    } else {
      assert ([x] + s)[1..] == s;
    }
  }

  lemma {:induction false} UniqueDrop(s: seq<Item>, id: nat)
    requires Unique(s)
    ensures Unique(Drop(s, id)) && !HasId(Drop(s, id), id)
  {
    forall y | y in Drop(s, id) ensures y.id != id {
      DropMembers(s, id, y);
    }
    if s != [] {
      UniqueDrop(s[1..], id);
      if s[0].id != id {
        var r := Drop(s[1..], id);
        forall y | y in r ensures y.id != s[0].id {
          DropMembers(s[1..], id, y);
        }
        assert ([s[0]] + r)[1..] == r;
      }
    }
  }

  ghost function IdSet(s: seq<Item>): set<nat> {
    set x | x in s :: x.id
  }

  lemma {:induction false} IdSetCons(x: Item, s: seq<Item>)
    ensures IdSet([x] + s) == {x.id} + IdSet(s)
  {
    var r := [x] + s;
    assert x in r && forall y :: y in s ==> y in r;
  }

  lemma {:induction false} UniqueSize(s: seq<Item>)
    requires Unique(s)
    ensures |IdSet(s)| == |s|
  {
    if s != [] {
      UniqueSize(s[1..]);
      IdSetCons(s[0], s[1..]);
      assert [s[0]] + s[1..] == s;
    }
  }
}
