/** The two-list time wheel that OS/tasks.c, OS/timers.c and OS/croutine.c each carry.

    A tick counter of M values wraps to 0. Times at or after the counter are kept in the current list and
    times that wrap below it in the overflow list, both sorted by the wrapped value. Given the
    absolute time base at which the counter was last 0, the two lists stand for one sorted agenda of
    absolute times, on which the wrap does not show. */
module TimeWheel {
  import opened SortedLists

  /** Unsigned addition and subtraction of tick counts, for operands below M. */
  function WrapAdd(a: nat, b: nat, M: nat): (r: nat)
    requires a < M && b < M
    ensures r < M
  {
    if a + b < M then a + b else a + b - M
  }

  function WrapSub(a: nat, b: nat, M: nat): (r: nat)
    requires a < M && b < M
    ensures r < M && WrapAdd(b, r, M) == a
  {
    if b <= a then a - b else a + M - b
  }

  /** The tick count at absolute time t, for a time less than M before or after the last wrap. */
  function TickAt(t: nat, base: nat, M: nat): (r: nat)
    requires base < t + M && t < base + M
    ensures r < M
  {
    if base <= t then t - base else t + M - base
  }

  /** The absolute time at which epoch e starts, and what xNumOfOverflows then reads. */
  ghost function EpochStart(e: nat, M: nat): nat {
    if e == 0 then 0 else EpochStart(e - 1, M) + M
  }

  const BASE_TYPE_VALUES := 0x1_0000_0000

  ghost function OverflowsRead(e: nat): (r: nat)
    ensures r < BASE_TYPE_VALUES
  {
    if e == 0 then 0 else WrapAdd(OverflowsRead(e - 1), 1, BASE_TYPE_VALUES)
  }

  /** The items of s at times d later. */
  function Shift(s: seq<Item>, d: nat): seq<Item> {
    if s == [] then [] else [Item(s[0].value + d, s[0].id)] + Shift(s[1..], d)
  }

  function Agenda(current: seq<Item>, overflow: seq<Item>, base: nat, M: nat): seq<Item> {
    if current == [] then Shift(overflow, base + M)
    else [Item(base + current[0].value, current[0].id)] + Agenda(current[1..], overflow, base, M)
  }

  lemma {:induction false} AgendaIs(current: seq<Item>, overflow: seq<Item>, base: nat, M: nat)
    ensures Agenda(current, overflow, base, M) == Shift(current, base) + Shift(overflow, base + M)
  {
    if current != [] {
      AgendaIs(current[1..], overflow, base, M);
    }
  }

  lemma {:induction false} ShiftAt(s: seq<Item>, d: nat, i: nat)
    requires i < |s|
    ensures |Shift(s, d)| == |s| && Shift(s, d)[i] == Item(s[i].value + d, s[i].id)
  {
    if i != 0 {
      ShiftAt(s[1..], d, i - 1);
    } else {
      ShiftLength(s, d);
    }
  }

  lemma ShiftLength(s: seq<Item>, d: nat)
    ensures |Shift(s, d)| == |s|
  {
  }

  /** Sorted, every value above lo and below M. */
  ghost predicate Within(s: seq<Item>, lo: int, M: nat) {
    && Sorted(s)
    && (forall i :: 0 <= i < |s| ==> lo < s[i].value < M)
  }

  function HeadValue(s: seq<Item>): nat {
    if s == [] then 0 else s[0].value
  }

  /** At the last tick before the wrap there is nothing later left for the current list to hold. */
  lemma {:induction false} NothingAfterLast(s: seq<Item>, M: nat)
    requires Within(s, M - 1, M)
    ensures s == []
  {
    var head := HeadValue(s);
  }

  lemma {:induction false} InsertWithin(s: seq<Item>, x: Item, lo: int, M: nat)
    requires Within(s, lo, M) && lo < x.value < M
    ensures var r := Insert(s, x);
      && Within(r, lo, M) && r != []
      && r[0].value == if s == [] || x.value < s[0].value then x.value else s[0].value
  {
    InsertSorted(s, x);
    var k := StopExists(s, x.value);
    InsertAt(s, x, k);
  }

  lemma {:induction false} ShiftInsert(s: seq<Item>, x: Item, d: nat)
    ensures Shift(Insert(s, x), d) == Insert(Shift(s, d), Item(x.value + d, x.id))
  {
    if s == [] || x.value < s[0].value {
      assert ([x] + s)[1..] == s;
    } else {
      assert ([s[0]] + Insert(s[1..], x))[1..] == Insert(s[1..], x);
      assert Shift(s, d)[1..] == Shift(s[1..], d);
      ShiftInsert(s[1..], x, d);
    }
  }

  /** Filing a time of the running epoch into the current list, or one of the next epoch into the
      overflow list, is sorted insertion of the absolute time into the agenda. */
  lemma {:induction false} FileCurrent(current: seq<Item>, overflow: seq<Item>, x: Item, base: nat, M: nat)
    requires x.value < M
    ensures Agenda(Insert(current, x), overflow, base, M)
         == Insert(Agenda(current, overflow, base, M), Item(base + x.value, x.id))
  {
    AgendaIs(current, overflow, base, M);
    AgendaIs(Insert(current, x), overflow, base, M);
    ShiftInsert(current, x, base);
    InsertLeft(Shift(current, base), Shift(overflow, base + M), Item(base + x.value, x.id));
  }

  lemma {:induction false} FileOverflow(current: seq<Item>, overflow: seq<Item>, x: Item, base: nat, M: nat)
    requires forall i :: 0 <= i < |current| ==> current[i].value < M
    ensures Agenda(current, Insert(overflow, x), base, M)
         == Insert(Agenda(current, overflow, base, M), Item(base + M + x.value, x.id))
  {
    AgendaIs(current, overflow, base, M);
    AgendaIs(current, Insert(overflow, x), base, M);
    ShiftInsert(overflow, x, base + M);
    var a := Shift(current, base);
    ShiftLength(current, base);
    forall i | 0 <= i < |a| ensures a[i].value <= base + M + x.value {
      ShiftAt(current, base, i);
    }
    InsertRight(a, Shift(overflow, base + M), Item(base + M + x.value, x.id));
  }

  /** Where a positive wait files, for every tick count and every wait: the comparison of the wrapped
      time with the tick count picks the right list. */
  lemma {:induction false} FileWait(current: seq<Item>, overflow: seq<Item>, now: nat, wait: nat, id: nat, base: nat, M: nat)
    requires now < M && 0 < wait < M && Within(current, now, M) && Within(overflow, -1, M)
    ensures var x := Item(WrapAdd(now, wait, M), id);
      var agenda := Insert(Agenda(current, overflow, base, M), Item(base + now + wait, id));
      if x.value < now then
        Agenda(current, Insert(overflow, x), base, M) == agenda && Within(Insert(overflow, x), -1, M)
      else
        && Agenda(Insert(current, x), overflow, base, M) == agenda && Within(Insert(current, x), now, M)
        && Insert(current, x) != []
        && Insert(current, x)[0].value == if current == [] || x.value < current[0].value then x.value else current[0].value
  {
    var x := Item(WrapAdd(now, wait, M), id);
    if x.value < now {
      FileOverflow(current, overflow, x, base, M);
      InsertWithin(overflow, x, -1, M);
    } else {
      FileCurrent(current, overflow, x, base, M);
      InsertWithin(current, x, now, M);
    }
  }

  /** Once the current list is empty, exchanging the lists while the counter wraps changes no absolute time. */
  lemma {:induction false} SwitchKeepsAgenda(overflow: seq<Item>, base: nat, M: nat)
    ensures Agenda([], overflow, base, M) == Agenda(overflow, [], base + M, M)
  {
    AgendaIs(overflow, [], base + M, M);
  }

  lemma {:induction false} AgendaLength(current: seq<Item>, overflow: seq<Item>, base: nat, M: nat)
    ensures |Agenda(current, overflow, base, M)| == |current| + |overflow|
  {
    AgendaIs(current, overflow, base, M);
    ShiftLength(current, base);
    ShiftLength(overflow, base + M);
  }

  lemma {:induction false} AgendaSorted(current: seq<Item>, overflow: seq<Item>, base: nat, M: nat)
    requires Within(current, -1, M) && Within(overflow, -1, M)
    ensures Sorted(Agenda(current, overflow, base, M))
  {
    AgendaLength(current, overflow, base, M);
    forall i, j | 0 <= i < j < |current| + |overflow|
      ensures Agenda(current, overflow, base, M)[i].value <= Agenda(current, overflow, base, M)[j].value
    {
      AgendaAt(current, overflow, base, M, i);
      AgendaAt(current, overflow, base, M, j);
      if j < |current| {
        assert current[i].value <= current[j].value;
      } else if |current| <= i {
        assert overflow[i - |current|].value <= overflow[j - |current|].value;
      }
    }
  }

  lemma {:induction false} AgendaAt(current: seq<Item>, overflow: seq<Item>, base: nat, M: nat, i: nat)
    requires i < |current| + |overflow|
    ensures var a := Agenda(current, overflow, base, M);
      && |a| == |current| + |overflow|
      && a[i] == if i < |current| then Item(base + current[i].value, current[i].id)
                 else Item(base + M + overflow[i - |current|].value, overflow[i - |current|].id)
  {
    AgendaIs(current, overflow, base, M);
    ShiftLength(current, base);
    ShiftLength(overflow, base + M);
    if i < |current| {
      ShiftAt(current, base, i);
    } else {
      ShiftAt(overflow, base + M, i - |current|);
    }
  }

  /** The items due by time t, in order, and the others. */
  function Due(s: seq<Item>, t: nat): seq<Item> {
    if s == [] || t < s[0].value then [] else [s[0]] + Due(s[1..], t)
  }

  function Rest(s: seq<Item>, t: nat): seq<Item> {
    if s == [] || t < s[0].value then s else Rest(s[1..], t)
  }

  /** With the current list past the tick count nothing is due, whatever the overflow list holds. */
  lemma {:induction false} NothingDue(current: seq<Item>, overflow: seq<Item>, now: nat, base: nat, M: nat)
    requires now < M && Within(current, -1, M) && (current != [] ==> now < current[0].value)
    ensures var a := Agenda(current, overflow, base, M);
      Due(a, base + now) == [] && Rest(a, base + now) == a
    ensures Within(current, now, M)
  {
    if current == [] && overflow != [] {
      assert Shift(overflow, base + M)[0].value >= base + M;
    }
  }

  /** An expired head of the current list is the first thing due. */
  lemma {:induction false} HeadDue(current: seq<Item>, overflow: seq<Item>, now: nat, base: nat, M: nat)
    requires current != [] && current[0].value <= now
    ensures var a, rest := Agenda(current, overflow, base, M), Agenda(current[1..], overflow, base, M);
      && Due(a, base + now) == [Item(base + current[0].value, current[0].id)] + Due(rest, base + now)
      && Rest(a, base + now) == Rest(rest, base + now)
  {
    var a := Agenda(current, overflow, base, M);
    assert a[1..] == Agenda(current[1..], overflow, base, M);
  }

  /** On a sorted agenda Due is exactly what has a time of at most t. */
  lemma {:induction false} DueExactly(s: seq<Item>, t: nat, x: Item)
    requires Sorted(s)
    ensures x in Due(s, t) <==> x in s && x.value <= t
    ensures x in Rest(s, t) <==> x in s && t < x.value
    ensures Sorted(Rest(s, t))
  {
    if s != [] {
      SortedTail(s);
      assert s == [s[0]] + s[1..];
      if s[0].value <= t {
        DueExactly(s[1..], t, x);
      }
    }
  }

  lemma {:induction false} DropAgenda(current: seq<Item>, overflow: seq<Item>, id: nat, base: nat, M: nat)
    ensures Agenda(Drop(current, id), Drop(overflow, id), base, M) == Drop(Agenda(current, overflow, base, M), id)
  {
    if current == [] {
      DropShift(overflow, id, base + M);
    } else {
      var a := Agenda(current, overflow, base, M);
      assert a[1..] == Agenda(current[1..], overflow, base, M);
      DropAgenda(current[1..], overflow, id, base, M);
      if current[0].id != id {
        var d := Drop(current, id);
        assert d[1..] == Drop(current[1..], id);
      }
    }
  }

  lemma {:induction false} DropShift(s: seq<Item>, id: nat, d: nat)
    ensures Shift(Drop(s, id), d) == Drop(Shift(s, d), id)
  {
    if s != [] {
      DropShift(s[1..], id, d);
      assert Shift(s, d)[1..] == Shift(s[1..], d);
      if s[0].id != id {
        assert Drop(s, id)[1..] == Drop(s[1..], id);
      }
    }
  }

  lemma {:induction false} DropWithin(s: seq<Item>, id: nat, lo: int, M: nat)
    requires Within(s, lo, M)
    ensures Within(Drop(s, id), lo, M)
    ensures Drop(s, id) != [] ==> s != [] && s[0].value <= Drop(s, id)[0].value
  {
    DropKeepsSorted(s, id);
    var r := Drop(s, id);
    forall i | 0 <= i < |r|
      ensures lo < r[i].value < M && s != [] && s[0].value <= r[i].value
    {
      DropMembers(s, id, r[i]);
      var j :| 0 <= j < |s| && s[j] == r[i];
    }
  }
}
