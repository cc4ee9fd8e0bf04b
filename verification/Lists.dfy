/** Lists threaded through an array of slots by index, and small facts about
    sequences that several components share. */
module Lists {

  /** The empty index that ends every list. */
  const NIL := -1

  /** One slot's pair of list indices. */
  datatype Link = Link(next: int, prev: int)

  datatype Option<+T> = None | Some(value: T)

  ghost predicate Distinct<T>(l: seq<T>) {
    forall i, j :: 0 <= i < j < |l| ==> l[i] != l[j]
  }

  /** The list without its k-th element. */
  function RemoveAt<T>(l: seq<T>, k: nat): (r: seq<T>)
    requires k < |l|
    ensures |r| == |l| - 1
    ensures forall i :: 0 <= i < |r| ==> r[i] == l[if i < k then i else i + 1]
  {
    l[..k] + l[k + 1..]
  }

  lemma {:induction false} RemoveAtMembers<T>(l: seq<T>, k: nat)
    requires k < |l| && Distinct(l)
    ensures Distinct(RemoveAt(l, k))
    ensures forall x :: x in RemoveAt(l, k) <==> x in l && x != l[k]
  {
    var r := RemoveAt(l, k);
    forall x | x in l && x != l[k] ensures x in r {
      var i :| 0 <= i < |l| && l[i] == x;
      assert r[if i < k then i else i - 1] == x;
    }
  }

  /** The element at a position, or NIL when the position is off either end. */
  function At(l: seq<nat>, i: int): (r: int) {
    if 0 <= i < |l| then l[i] else NIL
  }

  ghost predicate InRange(l: seq<nat>, n: nat) {
    forall i :: 0 <= i < |l| ==> l[i] < n
  }

  /** The links spell out exactly the list l, forwards and backwards. */
  ghost predicate Doubly(links: seq<Link>, l: seq<nat>) {
    && Distinct(l)
    && InRange(l, |links|)
    && forall i {:trigger links[l[i]]} :: 0 <= i < |l| ==> links[l[i]] == Link(At(l, i + 1), At(l, i - 1))
  }

  /** The links spell out the list l forwards; the back links are all NIL. */
  ghost predicate Singly(links: seq<Link>, l: seq<nat>) {
    && Distinct(l)
    && InRange(l, |links|)
    && forall i {:trigger links[l[i]]} :: 0 <= i < |l| ==> links[l[i]] == Link(At(l, i + 1), NIL)
  }

  /** Links after slot i has been taken out from between its neighbours. */
  function Unlinked(links: seq<Link>, i: nat): (r: seq<Link>)
    requires i < |links|
    requires NIL <= links[i].next < |links|
    requires NIL <= links[i].prev < |links|
    ensures |r| == |links|
    ensures forall s :: 0 <= s < |links| && s != i ==>
              r[s] == Link(if s == links[i].prev then links[i].next else links[s].next,
                           if s == links[i].next then links[i].prev else links[s].prev)
    ensures r[i] == Link(NIL, NIL)
  {
    var n, p := links[i].next, links[i].prev;
    var a := if p != NIL then links[p := links[p].(next := n)] else links;
    var b := if n != NIL then a[n := a[n].(prev := p)] else a;
    b[i := Link(NIL, NIL)]
  }

  lemma {:induction false} UnlinkDoubly(links: seq<Link>, l: seq<nat>, k: nat)
    requires Doubly(links, l) && k < |l|
    ensures NIL <= links[l[k]].next < |links| && NIL <= links[l[k]].prev < |links|
    ensures Doubly(Unlinked(links, l[k]), RemoveAt(l, k))
    ensures forall s :: 0 <= s < |links| && s !in l ==> Unlinked(links, l[k])[s] == links[s]
  {
    assert links[l[k]] == Link(At(l, k + 1), At(l, k - 1));
    RemoveAtMembers(l, k);
    var u, r := Unlinked(links, l[k]), RemoveAt(l, k);
    forall i | 0 <= i < |r| ensures u[r[i]] == Link(At(r, i + 1), At(r, i - 1)) {
      UnlinkedAt(links, l, k, i);
    }
  }

  lemma {:induction false} UnlinkedAt(links: seq<Link>, l: seq<nat>, k: nat, i: nat)
    requires Doubly(links, l) && k < |l| && i < |l| - 1
    ensures NIL <= links[l[k]].next < |links| && NIL <= links[l[k]].prev < |links|
    ensures var r := RemoveAt(l, k);
            Unlinked(links, l[k])[r[i]] == Link(At(r, i + 1), At(r, i - 1))
  {
    var j := if i < k then i else i + 1;
    assert links[l[k]] == Link(At(l, k + 1), At(l, k - 1));
    assert links[l[j]] == Link(At(l, j + 1), At(l, j - 1));
  }

  /** Links after slot i has been put in front of the list headed by h. */
  function Pushed(links: seq<Link>, i: nat, h: int): (r: seq<Link>)
    requires i < |links| && NIL <= h < |links|
    ensures |r| == |links|
  {
    var a := links[i := Link(h, NIL)];
    if h == NIL then a else a[h := a[h].(prev := i)]
  }

  lemma {:induction false} PushDoubly(links: seq<Link>, l: seq<nat>, i: nat)
    requires Doubly(links, l) && i < |links| && i !in l
    ensures NIL <= At(l, 0) < |links|
    ensures Doubly(Pushed(links, i, At(l, 0)), [i] + l)
    ensures forall s :: 0 <= s < |links| && s !in l && s != i ==> Pushed(links, i, At(l, 0))[s] == links[s]
  {
    var u, r := Pushed(links, i, At(l, 0)), [i] + l;
    forall k | 0 <= k < |r| ensures u[r[k]] == Link(At(r, k + 1), At(r, k - 1)) {
      if 0 < k {
        assert links[l[k - 1]] == Link(At(l, k), At(l, k - 2));
      }
    }
  }

  /** Rewriting slots off a list leaves the list as it was. */
  lemma {:induction false} FrameDoubly(links: seq<Link>, links': seq<Link>, l: seq<nat>)
    requires Doubly(links, l) && |links'| == |links|
    requires forall i :: 0 <= i < |l| ==> links'[l[i]] == links[l[i]]
    ensures Doubly(links', l)
  {
  }

  lemma {:induction false} FrameSingly(links: seq<Link>, links': seq<Link>, l: seq<nat>)
    requires Singly(links, l) && |links'| == |links|
    requires forall i :: 0 <= i < |l| ==> links'[l[i]] == links[l[i]]
    ensures Singly(links', l)
  {
  }

  /** Where x first stands in l. */
  function IndexOf<T(==)>(l: seq<T>, x: T): (k: nat)
    requires x in l
    ensures k < |l| && l[k] == x
  {
    if l[0] == x then 0 else 1 + IndexOf(l[1..], x)
  }

  function Without<T(==)>(l: seq<T>, x: T): (r: seq<T>)
    requires x in l
  {
    RemoveAt(l, IndexOf(l, x))
  }

  ghost function Elements<T>(l: seq<T>): (r: set<T>) {
    set x | x in l
  }

  lemma {:induction false} CardDistinct<T>(l: seq<T>)
    requires Distinct(l)
    ensures |Elements(l)| == |l|
  {
    if l != [] {
      CardDistinct(l[1..]);
      assert Elements(l) == {l[0]} + Elements(l[1..]);
    }
  }

  /** The first n naturals. */
  ghost function UpTo(n: nat): (r: set<nat>)
    ensures |r| == n
    ensures forall x :: x in r <==> 0 <= x < n
  {
    if n == 0 then {} else UpTo(n - 1) + {n - 1}
  }

  /** Two disjoint lists that cover the first n slots have n elements together. */
  lemma {:induction false} CoverCount(a: seq<nat>, b: seq<nat>, n: nat)
    requires Distinct(a) && Distinct(b) && InRange(a, n) && InRange(b, n)
    requires forall x :: x in a ==> x !in b
    requires forall x :: 0 <= x < n ==> x in a || x in b
    ensures |a| + |b| == n
  {
    CardDistinct(a);
    CardDistinct(b);
    assert Elements(a) * Elements(b) == {};
    assert UpTo(n) == Elements(a) + Elements(b);
  }

  /** One if the condition holds, for counting. */
  function OneIf(b: bool): (n: nat) { if b then 1 else 0 }

  function Occurs<T(==)>(l: seq<T>, x: T): (n: nat) {
    if l == [] then 0 else OneIf(l[0] == x) + Occurs(l[1..], x)
  }

  lemma {:induction false} OccursIn<T>(l: seq<T>, x: T)
    ensures Occurs(l, x) <= |l| && (Occurs(l, x) >= 1 <==> x in l)
  {
    if l != [] {
      OccursIn(l[1..], x);
      assert l == [l[0]] + l[1..];
    }
  }

  lemma {:induction false} OccursPush<T>(l: seq<T>, y: T, x: T)
    ensures Occurs(l + [y], x) == Occurs(l, x) + OneIf(y == x)
  {
    if l == [] {
      assert l + [y] == [y] && [y][1..] == [];
    } else {
      assert (l + [y])[1..] == l[1..] + [y];
      OccursPush(l[1..], y, x);
    }
  }

  lemma {:induction false} OccursSet<T>(l: seq<T>, k: nat, y: T, x: T)
    requires k < |l|
    ensures Occurs(l[k := y], x) == Occurs(l, x) - OneIf(l[k] == x) + OneIf(y == x)
  {
    if k == 0 {
      assert l[k := y][1..] == l[1..];
    } else {
      assert l[k := y][1..] == l[1..][k - 1 := y];
      OccursSet(l[1..], k - 1, y, x);
    }
  }

  /** The sequence with x written over it from a place on. */
  function Overwrite<T>(s: seq<T>, at: nat, x: seq<T>): (r: seq<T>)
    requires at + |x| <= |s|
    ensures |r| == |s|
  {
    s[..at] + x + s[at + |x|..]
  }
}
