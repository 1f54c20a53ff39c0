/** Lists of tasks, where only who is in them and in which order matters. */
module TaskLists {
  ghost predicate NoDuplicates(s: seq<nat>) {
    s == [] || (s[0] !in s[1..] && NoDuplicates(s[1..]))
  }

  function Without(s: seq<nat>, t: nat): seq<nat> {
    if s == [] then [] else if s[0] == t then Without(s[1..], t) else [s[0]] + Without(s[1..], t)
  }

  lemma {:induction false} WithoutMembers(s: seq<nat>, t: nat)
    ensures forall u :: u in Without(s, t) <==> u in s && u != t
    ensures t !in s ==> Without(s, t) == s
  {
    if s != [] {
      WithoutMembers(s[1..], t);
      assert s == [s[0]] + s[1..];
    }
  }

  lemma {:induction false} WithoutOnce(s: seq<nat>, t: nat)
    requires NoDuplicates(s)
    ensures NoDuplicates(Without(s, t)) && |Without(s, t)| == |s| - if t in s then 1 else 0
  {
    if s != [] {
      WithoutMembers(s[1..], t);
      WithoutOnce(s[1..], t);
      assert s == [s[0]] + s[1..];
      var r := Without(s[1..], t);
      assert ([s[0]] + r)[1..] == r;
    }
  }

  /** Taking out a task closes the list up behind it. */
  lemma {:induction false} WithoutMiddle(before: seq<nat>, t: nat, after: seq<nat>)
    requires NoDuplicates(before + [t] + after)
    ensures Without(before + [t] + after, t) == before + after
  {
    var s := before + [t] + after;
    if before == [] {
      assert s[1..] == after;
      WithoutMembers(after, t);
      assert before + after == after;
    } else {
      assert s[1..] == before[1..] + [t] + after;
      WithoutMiddle(before[1..], t, after);
      assert t in s[1..];
      assert before + after == [before[0]] + (before[1..] + after);
    }
  }

  lemma {:induction false} InsertedMembers(s: seq<nat>, t: nat, k: nat)
    requires NoDuplicates(s) && t !in s && k <= |s|
    ensures NoDuplicates(s[..k] + [t] + s[k..]) && forall u :: u in s[..k] + [t] + s[k..] <==> u in s || u == t
    decreases k
  {
    var r := s[..k] + [t] + s[k..];
    assert s == s[..k] + s[k..];
    if k == 0 {
      assert r[1..] == s;
    } else {
      assert s == [s[0]] + s[1..];
      InsertedMembers(s[1..], t, k - 1);
      assert r[1..] == s[1..][..k - 1] + [t] + s[1..][k - 1..];
    }
  }

  lemma {:induction false} AppendKeepsUnique(s: seq<nat>, t: nat)
    requires NoDuplicates(s) && t !in s
    ensures NoDuplicates(s + [t])
  {
    InsertedMembers(s, t, |s|);
    assert s[..|s|] + [t] + s[|s|..] == s + [t];
  }

  lemma {:induction false} SubsetSize(a: set<nat>, b: set<nat>)
    requires a <= b
    ensures |a| <= |b|
  {
    if a != {} {
      var x :| x in a;
      SubsetSize(a - {x}, b - {x});
    }
  }
}
