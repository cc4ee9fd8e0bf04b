/** The userver's open-addressing cache of mapped files: two hash positions and
    then a linear scan, slots that remember an eviction, and the CLOCK hand. */
module OpenCache {
  import opened Lists

  /** len is 0 in a slot never used, -1 in one whose file was evicted. */
  datatype Slot = Slot(name: string, len: int, ref: bool, uses: nat)

  const EVICTED := -1
  const NAME_MAX := 64
  const BLANK := Slot("", 0, false, 0)

  predicate Used(s: Slot) { s.len != 0 }
  predicate Live(s: Slot) { s.len > 0 }

  // ------------------------------------------------------------------
  // Where a name may be

  /** The slot e places behind slot b, going round: (b + e) mod n, by SpotIsRemainder. */
  function Spot(b: nat, e: nat, n: nat): (p: nat)
    requires b < n && e <= n
    ensures p < n
  {
    if b + e < n then b + e else b + e - n
  }

  /** The d-th slot looked at for a name: the first hash position, then all
      slots starting from the second. */
  function Place(a: nat, b: nat, n: nat, d: nat): (p: nat)
    requires a < n && b < n && d <= n + 1
    ensures p < n
  {
    if d == 0 then a else Spot(b, d - 1, n)
  }

  ghost predicate UsedBefore(t: seq<Slot>, a: nat, b: nat, d: nat) {
    a < |t| && b < |t| && d <= |t| + 2 && forall c: nat :: c < d ==> Used(t[Place(a, b, |t|, c)])
  }

  /** A search for the name gets as far as slot p. */
  ghost predicate Reachable(t: seq<Slot>, a: nat, b: nat, p: nat) {
    exists d: nat :: d <= |t| + 1 && UsedBefore(t, a, b, d) && Place(a, b, |t|, d) == p
  }

  /** The hash functions: rehash takes the name and the first position. */
  datatype Hashes = Hashes(hash: string -> nat, rehash: (string, nat) -> nat)

  function First(h: Hashes, name: string, n: nat): (p: nat)
    requires n > 0
    ensures p < n
  {
    h.hash(name) % n
  }

  function Second(h: Hashes, name: string, n: nat): (p: nat)
    requires n > 0
    ensures p < n
  {
    h.rehash(name, First(h, name, n)) % n
  }

  // ------------------------------------------------------------------
  // What holds of every table

  ghost predicate SlotsSound(t: seq<Slot>) {
    forall p :: 0 <= p < |t| ==> t[p].len >= EVICTED && (!Live(t[p]) ==> t[p].name == "")
  }

  ghost predicate NamesDiffer(t: seq<Slot>) {
    forall p, q :: 0 <= p < q < |t| && Live(t[p]) && Live(t[q]) ==> t[p].name != t[q].name
  }

  ghost predicate AllReachable(h: Hashes, t: seq<Slot>) {
    forall p :: 0 <= p < |t| && Live(t[p]) ==>
      Reachable(t, First(h, t[p].name, |t|), Second(h, t[p].name, |t|), p)
  }

  ghost predicate Sound(h: Hashes, t: seq<Slot>) {
    |t| > 0 && SlotsSound(t) && NamesDiffer(t) && AllReachable(h, t)
  }

  ghost predicate Stored(t: seq<Slot>, name: string) {
    exists p :: 0 <= p < |t| && Live(t[p]) && t[p].name == name
  }

  function Bytes(t: seq<Slot>): (b: nat) {
    if t == [] then 0 else LenOf(t[0]) + Bytes(t[1..])
  }

  function Count(t: seq<Slot>): (c: nat)
    ensures c <= |t|
  {
    if t == [] then 0 else OneIf(Live(t[0])) + Count(t[1..])
  }

  function LenOf(s: Slot): (b: nat) { if Live(s) then s.len else 0 }

  lemma {:induction false} SumsSet(t: seq<Slot>, p: nat, s: Slot)
    requires p < |t|
    ensures Bytes(t[p := s]) == Bytes(t) - LenOf(t[p]) + LenOf(s)
    ensures Count(t[p := s]) == Count(t) - OneIf(Live(t[p])) + OneIf(Live(s))
  {
    if p > 0 {
      assert t[p := s][1..] == t[1..][p - 1 := s];
      SumsSet(t[1..], p - 1, s);
    } else {
      assert t[p := s][1..] == t[1..];
    }
  }

  /** Changing only reference bits and use counts changes no sum. */
  lemma {:induction false} SumsSame(t: seq<Slot>, u: seq<Slot>)
    requires |t| == |u| && forall p :: 0 <= p < |t| ==> u[p].len == t[p].len
    ensures Bytes(u) == Bytes(t) && Count(u) == Count(t)
  {
    if t != [] {
      SumsSame(t[1..], u[1..]);
    }
  }

  lemma {:induction false} SumsZero(t: seq<Slot>)
    ensures Count(t) == |t| <==> forall p :: 0 <= p < |t| ==> Live(t[p])
    ensures Count(t) == 0 <==> forall p :: 0 <= p < |t| ==> !Live(t[p])
    ensures Count(t) == 0 ==> Bytes(t) == 0
  {
    if t != [] {
      SumsZero(t[1..]);
      assert t == [t[0]] + t[1..];
    }
  }

  // ------------------------------------------------------------------
  // The lookup

  /** The slots that a search looks at are all the slots. */
  lemma {:induction false} Covered(a: nat, b: nat, n: nat, p: nat) returns (d: nat)
    requires a < n && b < n && p < n
    ensures 1 <= d <= n && Place(a, b, n, d) == p
  {
    d := if p >= b then p - b + 1 else p - b + n + 1;
  }

  /** First position from d on whose slot was never used. */
  function FreshFrom(t: seq<Slot>, a: nat, b: nat, d: nat): (f: nat)
    requires a < |t| && b < |t| && d <= |t| + 2
    ensures d <= f <= |t| + 2
    ensures f < |t| + 2 ==> !Used(t[Place(a, b, |t|, f)])
    ensures forall c: nat :: d <= c < f ==> Used(t[Place(a, b, |t|, c)])
    decreases |t| + 2 - d
  {
    if d == |t| + 2 || !Used(t[Place(a, b, |t|, d)]) then d else FreshFrom(t, a, b, d + 1)
  }

  /** First position from d on whose slot holds an evicted file. */
  function EvictedFrom(t: seq<Slot>, a: nat, b: nat, d: nat): (f: nat)
    requires a < |t| && b < |t| && d <= |t| + 2
    ensures d <= f <= |t| + 2
    ensures f < |t| + 2 ==> t[Place(a, b, |t|, f)].len == EVICTED
    ensures forall c: nat :: d <= c < f ==> t[Place(a, b, |t|, c)].len != EVICTED
    decreases |t| + 2 - d
  {
    if d == |t| + 2 || t[Place(a, b, |t|, d)].len == EVICTED then d else EvictedFrom(t, a, b, d + 1)
  }

  /** Where a name that is not stored goes: the first slot never used; when all
      have been, the first one free in the linear scan; when none is, nowhere. */
  function Vacancy(t: seq<Slot>, a: nat, b: nat): (p: int)
    requires a < |t| && b < |t|
    ensures NIL <= p < |t|
  {
    var f, e := FreshFrom(t, a, b, 0), EvictedFrom(t, a, b, 2);
    if f < |t| + 2 then Place(a, b, |t|, f) else if e < |t| + 2 then Place(a, b, |t|, e) else NIL
  }

  lemma {:induction false} VacancyMeans(t: seq<Slot>, a: nat, b: nat)
    requires a < |t| && b < |t| && SlotsSound(t)
    ensures Vacancy(t, a, b) == NIL <==> forall p :: 0 <= p < |t| ==> Live(t[p])
    ensures Vacancy(t, a, b) != NIL ==> !Live(t[Vacancy(t, a, b)]) && Reachable(t, a, b, Vacancy(t, a, b))
  {
    var f, e, n := FreshFrom(t, a, b, 0), EvictedFrom(t, a, b, 2), |t|;
    if f < n + 2 {
      assert UsedBefore(t, a, b, f);
    } else if e < n + 2 {
      assert UsedBefore(t, a, b, e);
    } else {
      forall p | 0 <= p < n ensures Live(t[p]) {
        var d := Covered(a, b, n, p);
        var c := if d == 1 then n + 1 else d;
        assert Place(a, b, n, c) == p;
      }
    }
  }

  /** Which place it is: the first slot never used that the search comes by, or,
      when all have been used, the first evicted one of the linear scan. */
  lemma {:induction false} VacancyFirst(t: seq<Slot>, a: nat, b: nat, d: nat)
    requires a < |t| && b < |t| && d <= |t| + 1
    requires forall c: nat :: c < d ==> t[Place(a, b, |t|, c)].len != 0
    ensures t[Place(a, b, |t|, d)].len == 0 ==> Vacancy(t, a, b) == Place(a, b, |t|, d)
    ensures d >= 2 && t[Place(a, b, |t|, d)].len == -1 && (forall p :: 0 <= p < |t| ==> t[p].len != 0)
            && (forall c: nat :: 2 <= c < d ==> t[Place(a, b, |t|, c)].len != -1)
            ==> Vacancy(t, a, b) == Place(a, b, |t|, d)
  {
  }

  /** The search for a name succeeds at place d: names are compared in every
      slot once used, except in the first evicted one of the linear scan, which
      is only remembered. */
  predicate MatchAt(t: seq<Slot>, a: nat, b: nat, name: string, d: nat)
    requires a < |t| && b < |t| && d <= |t| + 1
  {
    var s := t[Place(a, b, |t|, d)];
    Used(s) && s.name == name && d != EvictedFrom(t, a, b, 2)
  }

  /** Where the search from place d on ends: at a match or at a slot never used. */
  function EndFrom(t: seq<Slot>, a: nat, b: nat, name: string, d: nat): (e: nat)
    requires a < |t| && b < |t| && d <= |t| + 2
    ensures d <= e <= |t| + 2
    ensures e < |t| + 2 ==> !Used(t[Place(a, b, |t|, e)]) || MatchAt(t, a, b, name, e)
    ensures forall c: nat :: d <= c < e ==> Used(t[Place(a, b, |t|, c)]) && !MatchAt(t, a, b, name, c)
    decreases |t| + 2 - d
  {
    if d == |t| + 2 || !Used(t[Place(a, b, |t|, d)]) || MatchAt(t, a, b, name, d) then d
    else EndFrom(t, a, b, name, d + 1)
  }

  /** First place from d on that was never used or holds a file of the empty name. */
  function StopFrom(t: seq<Slot>, a: nat, b: nat, d: nat): (e: nat)
    requires a < |t| && b < |t| && d <= |t| + 2
    ensures d <= e <= |t| + 2
    ensures e < |t| + 2 ==> var s := t[Place(a, b, |t|, e)]; !Used(s) || (Live(s) && s.name == "")
    ensures forall c: nat :: d <= c < e ==> var s := t[Place(a, b, |t|, c)]; Used(s) && !(Live(s) && s.name == "")
    decreases |t| + 2 - d
  {
    var stops := d < |t| + 2 && var s := t[Place(a, b, |t|, d)]; !Used(s) || (Live(s) && s.name == "");
    if d == |t| + 2 || stops then d else StopFrom(t, a, b, d + 1)
  }

  /** Before its end the search for the empty name comes to an evicted slot other
      than the first one of the linear scan, whose wiped name it takes for a match. */
  ghost predicate MeetsEvicted(t: seq<Slot>, a: nat, b: nat)
    requires a < |t| && b < |t|
  {
    exists d: nat :: d < StopFrom(t, a, b, 0) && t[Place(a, b, |t|, d)].len == EVICTED && d != EvictedFrom(t, a, b, 2)
  }

  /** The search takes an evicted slot for the file. */
  ghost predicate Mistaken(h: Hashes, t: seq<Slot>, name: string)
    requires |t| > 0
  {
    name == "" && MeetsEvicted(t, First(h, name, |t|), Second(h, name, |t|))
  }

  /** The search answers that the file is there. */
  ghost predicate Answered(h: Hashes, t: seq<Slot>, name: string)
    requires |t| > 0
  {
    Stored(t, name) || Mistaken(h, t, name)
  }

  /** Where the search for a stored name comes to it, if not before. */
  lemma {:induction false} StoredPlace(h: Hashes, t: seq<Slot>, name: string) returns (c: nat)
    requires Sound(h, t) && Stored(t, name)
    ensures var a, b := First(h, name, |t|), Second(h, name, |t|);
            && c <= |t| + 1 && UsedBefore(t, a, b, c)
            && Live(t[Place(a, b, |t|, c)]) && t[Place(a, b, |t|, c)].name == name
  {
    var p :| 0 <= p < |t| && Live(t[p]) && t[p].name == name;
    var a, b := First(h, name, |t|), Second(h, name, |t|);
    assert Reachable(t, a, b, p);
    c :| c <= |t| + 1 && UsedBefore(t, a, b, c) && Place(a, b, |t|, c) == p;
  }

  lemma {:induction false} IsStored(t: seq<Slot>, p: nat)
    requires p < |t| && Live(t[p])
    ensures Stored(t, t[p].name)
  {
  }

  /** A search that ends at a slot never used, or has been through all slots, has
      shown the name to be absent; one that ends at a match has found the file,
      or, for the empty name alone, may have found an evicted slot. */
  lemma {:induction false} SearchMeans(h: Hashes, t: seq<Slot>, name: string)
    requires Sound(h, t)
    ensures var a, b, n := First(h, name, |t|), Second(h, name, |t|), |t|;
            var e := EndFrom(t, a, b, name, 0);
            var found := e < n + 2 && Used(t[Place(a, b, n, e)]);
            && (found <==> Answered(h, t, name))
            && (found ==> (Live(t[Place(a, b, n, e)]) <==> !Mistaken(h, t, name)))
  {
    hide AllReachable, NamesDiffer, EndFrom, StopFrom, EvictedFrom, First, Second, Place, Stored, UsedBefore;
    var a, b, n := First(h, name, |t|), Second(h, name, |t|), |t|;
    var e := EndFrom(t, a, b, name, 0);
    if Stored(t, name) {
      var c := StoredPlace(h, t, name);
      UsedAt(t, a, b, c);
      assert MatchAt(t, a, b, name, c);
    }
    if e < n + 2 && Used(t[Place(a, b, n, e)]) {
      if Live(t[Place(a, b, n, e)]) {
        IsStored(t, Place(a, b, n, e));
      } else {
        assert name == "";
        assert e < StopFrom(t, a, b, 0);
      }
    }
    if Mistaken(h, t, name) {
      var d: nat :| d < StopFrom(t, a, b, 0) && t[Place(a, b, n, d)].len == EVICTED && d != EvictedFrom(t, a, b, 2);
      assert MatchAt(t, a, b, name, d);
    }
  }

  lemma {:induction false} UsedAt(t: seq<Slot>, a: nat, b: nat, d: nat)
    requires UsedBefore(t, a, b, d)
    ensures forall c: nat :: c < d ==> Used(t[Place(a, b, |t|, c)])
  {
  }

  /** A table with one evicted slot stores nothing and yet answers that the file
      of the empty name is there. */
  lemma {:induction false} EvictedAnswers(h: Hashes)
    ensures var t := [Slot("", EVICTED, false, 0)];
            Sound(h, t) && !Stored(t, "") && Answered(h, t, "")
  {
    var t := [Slot("", EVICTED, false, 0)];
    var a, b := First(h, "", 1), Second(h, "", 1);
    assert Place(a, b, 1, 0) == 0 && t[Place(a, b, 1, 0)].len == EVICTED;
    assert 0 < StopFrom(t, a, b, 0);
  }

  // ------------------------------------------------------------------
  // Storing and dropping names

  function Emptied(s: Slot): (r: Slot) { Slot("", EVICTED, s.ref, 0) }

  /** Slots once used stay used, so what was reachable stays reachable. */
  lemma {:induction false} ReachableStill(t: seq<Slot>, u: seq<Slot>, a: nat, b: nat, p: nat)
    requires |u| == |t| && Reachable(t, a, b, p)
    requires forall q :: 0 <= q < |t| && Used(t[q]) ==> Used(u[q])
    ensures Reachable(u, a, b, p)
  {
    var d: nat :| d <= |t| + 1 && UsedBefore(t, a, b, d) && Place(a, b, |t|, d) == p;
    assert UsedBefore(u, a, b, d);
  }

  lemma {:induction false} StoreSound(h: Hashes, t: seq<Slot>, name: string, p: nat, s: Slot)
    requires Sound(h, t) && !Stored(t, name) && p < |t| && !Live(t[p])
    requires Reachable(t, First(h, name, |t|), Second(h, name, |t|), p)
    requires Live(s) && s.name == name
    ensures Sound(h, t[p := s])
    ensures forall x :: Stored(t[p := s], x) <==> x == name || Stored(t, x)
  {
    var u := t[p := s];
    forall q | 0 <= q < |u| && Live(u[q]) ensures Reachable(u, First(h, u[q].name, |u|), Second(h, u[q].name, |u|), q) {
      ReachableStill(t, u, First(h, u[q].name, |u|), Second(h, u[q].name, |u|), q);
    }
    assert u[p] == s;
    forall x | Stored(t, x) ensures Stored(u, x) {
      var q :| 0 <= q < |t| && Live(t[q]) && t[q].name == x;
      assert u[q] == t[q];
    }
    forall x | Stored(u, x) && x != name ensures Stored(t, x) {
      var q :| 0 <= q < |t| && Live(u[q]) && u[q].name == x;
      assert u[q] == t[q];
    }
  }

  /** Slots of u are those of t up to reference bits and use counts, save that
      the file in slot v has been evicted. */
  ghost predicate Drops(t: seq<Slot>, u: seq<Slot>, v: int) {
    && |u| == |t|
    && (forall p :: 0 <= p < |t| && p != v ==> u[p].name == t[p].name && u[p].len == t[p].len)
    && (0 <= v < |t| ==> Live(t[v]) && u[v].name == "" && u[v].len == EVICTED)
  }

  lemma {:induction false} DropSound(h: Hashes, t: seq<Slot>, u: seq<Slot>, v: int)
    requires Sound(h, t) && Drops(t, u, v)
    ensures Sound(h, u)
    ensures forall x :: Stored(u, x) <==> Stored(t, x) && !(0 <= v < |t| && t[v].name == x)
  {
    forall q | 0 <= q < |u| && Live(u[q]) ensures Reachable(u, First(h, u[q].name, |u|), Second(h, u[q].name, |u|), q) {
      ReachableStill(t, u, First(h, u[q].name, |u|), Second(h, u[q].name, |u|), q);
    }
    forall x | Stored(t, x) && !(0 <= v < |t| && t[v].name == x) ensures Stored(u, x) {
      var q :| 0 <= q < |t| && Live(t[q]) && t[q].name == x;
      assert Live(u[q]) && u[q].name == x;
    }
    forall x | Stored(u, x) ensures Stored(t, x) && !(0 <= v < |t| && t[v].name == x) {
      var q :| 0 <= q < |u| && Live(u[q]) && u[q].name == x;
      assert Live(t[q]) && t[q].name == x && q != v;
      assert 0 <= v < |t| ==> t[v].name != t[q].name;
    }
  }

  lemma {:induction false} DropSums(t: seq<Slot>, u: seq<Slot>, v: nat)
    requires Drops(t, u, v) && v < |t|
    ensures Bytes(u) == Bytes(t) - t[v].len && Count(u) == Count(t) - 1
  {
    var mid := t[v := Emptied(t[v])];
    SumsSet(t, v, Emptied(t[v]));
    SumsSame(mid, u);
  }

  // ------------------------------------------------------------------
  // The CLOCK hand

  /** How far slot p is ahead of the hand. */
  function Ahead(hand: nat, p: nat, n: nat): (d: nat)
    requires hand < n && p < n
    ensures d < n && Spot(hand, d, n) == p
  {
    if p >= hand then p - hand else p - hand + n
  }

  /** First slot from d places ahead of the hand that holds a file which has not been referenced. */
  function IdleFrom(t: seq<Slot>, hand: nat, d: nat): (f: nat)
    requires hand < |t| && d <= |t|
    ensures d <= f <= |t|
    ensures f < |t| ==> Live(t[Spot(hand, f, |t|)]) && !t[Spot(hand, f, |t|)].ref
    ensures forall c: nat :: d <= c < f ==> !Live(t[Spot(hand, c, |t|)]) || t[Spot(hand, c, |t|)].ref
    decreases |t| - d
  {
    if d == |t| || (Live(t[Spot(hand, d, |t|)]) && !t[Spot(hand, d, |t|)].ref) then d else IdleFrom(t, hand, d + 1)
  }

  function LiveFrom(t: seq<Slot>, hand: nat, d: nat): (f: nat)
    requires hand < |t| && d <= |t|
    ensures d <= f <= |t|
    ensures f < |t| ==> Live(t[Spot(hand, f, |t|)])
    ensures forall c: nat :: d <= c < f ==> !Live(t[Spot(hand, c, |t|)])
    decreases |t| - d
  {
    if d == |t| || Live(t[Spot(hand, d, |t|)]) then d else LiveFrom(t, hand, d + 1)
  }

  /** The file to evict: the first one not referenced, or, where all have been,
      the first one. */
  function VictimOf(t: seq<Slot>, hand: nat): (v: nat)
    requires hand < |t| && Count(t) > 0
    ensures v < |t| && Live(t[v])
  {
    SomeLive(t, hand);
    var f := IdleFrom(t, hand, 0);
    Spot(hand, if f < |t| then f else LiveFrom(t, hand, 0), |t|)
  }

  lemma {:induction false} SomeLive(t: seq<Slot>, hand: nat)
    requires hand < |t| && Count(t) > 0
    ensures LiveFrom(t, hand, 0) < |t|
  {
    SumsZero(t);
    var p :| 0 <= p < |t| && Live(t[p]);
    var d := Ahead(hand, p, |t|);
    assert Live(t[Spot(hand, d, |t|)]);
  }

  /** What the hand does to the slot as it goes over it. */
  function Passed(s: Slot): (r: Slot) { if Live(s) then s.(ref := false) else s }

  /** The table after the hand has gone over its first k slots. */
  function Swept(t: seq<Slot>, hand: nat, k: nat): (u: seq<Slot>)
    requires hand < |t|
    ensures |u| == |t|
    ensures forall p :: 0 <= p < |t| ==> u[p] == if Ahead(hand, p, |t|) < k then Passed(t[p]) else t[p]
  {
    seq(|t|, p requires 0 <= p < |t| => if Ahead(hand, p, |t|) < k then Passed(t[p]) else t[p])
  }

  /** The table after an eviction: files passed over lose their reference. */
  function Evict(t: seq<Slot>, hand: nat): (u: seq<Slot>)
    requires hand < |t| && Count(t) > 0
  {
    var v := VictimOf(t, hand);
    var w := Swept(t, hand, IdleFrom(t, hand, 0));
    w[v := Emptied(w[v])]
  }

  lemma {:induction false} EvictDrops(t: seq<Slot>, hand: nat)
    requires hand < |t| && Count(t) > 0
    ensures Drops(t, Evict(t, hand), VictimOf(t, hand))
    ensures Bytes(Evict(t, hand)) == Bytes(t) - t[VictimOf(t, hand)].len && Count(Evict(t, hand)) == Count(t) - 1
  {
    DropSums(t, Evict(t, hand), VictimOf(t, hand));
  }

  /** Second chance: a referenced file goes only when every file is referenced. */
  lemma {:induction false} SecondChance(t: seq<Slot>, hand: nat, p: nat)
    requires hand < |t| && Count(t) > 0 && p < |t| && Live(t[p])
    ensures t[VictimOf(t, hand)].ref ==> t[p].ref
    ensures t[VictimOf(t, hand)].ref ==> forall q :: 0 <= q < |t| && Live(Evict(t, hand)[q]) ==> !Evict(t, hand)[q].ref
  {
    var f := IdleFrom(t, hand, 0);
    if f == |t| {
      assert Spot(hand, Ahead(hand, p, |t|), |t|) == p;
    }
  }

  /** The victim is the first file from the hand that has not been referenced, or,
      when all have been, the first file. */
  lemma {:induction false} VictimIsFirst(t: seq<Slot>, hand: nat, p: nat)
    requires hand < |t| && Count(t) > 0 && p < |t| && t[p].len > 0
    ensures var v := VictimOf(t, hand);
            && t[v].len > 0
            && (!t[p].ref ==> !t[v].ref && Ahead(hand, v, |t|) <= Ahead(hand, p, |t|))
            && (t[v].ref ==> Ahead(hand, v, |t|) <= Ahead(hand, p, |t|))
  {
    var n, v, d := |t|, VictimOf(t, hand), Ahead(hand, p, |t|);
    SomeLive(t, hand);
    assert Spot(hand, d, n) == p;
    var f := IdleFrom(t, hand, 0);
    AheadOf(hand, if f < n then f else LiveFrom(t, hand, 0), n);
  }

  lemma {:induction false} AheadOf(hand: nat, d: nat, n: nat)
    requires hand < n && d < n
    ensures Ahead(hand, Spot(hand, d, n), n) == d
  {
  }

  /** What an eviction does to every slot: the victim is wiped, the files that the
      hand passed on its way to it, all of them if all were referenced, lose
      their reference, and the rest stay as they are. */
  lemma {:induction false} EvictMeans(t: seq<Slot>, hand: nat, p: nat)
    requires hand < |t| && Count(t) > 0 && p < |t|
    ensures var v, u := VictimOf(t, hand), Evict(t, hand);
            && |u| == |t|
            && u[p] == if p == v then Slot("", -1, false, 0)
                       else if t[p].len > 0 && (t[v].ref || Ahead(hand, p, |t|) < Ahead(hand, v, |t|))
                            then Slot(t[p].name, t[p].len, false, t[p].uses)
                       else t[p]
  {
    var n, v := |t|, VictimOf(t, hand);
    SomeLive(t, hand);
    var f := IdleFrom(t, hand, 0);
    AheadOf(hand, if f < n then f else LiveFrom(t, hand, 0), n);
  }

  /** A file just handed out is not the next victim as long as some file has not
      been referenced. */
  lemma {:induction false} HitSurvives(t: seq<Slot>, hand: nat, i: nat, p: nat)
    requires hand < |t| && i < |t| && p < |t| && i != p && t[i].len > 0 && t[p].len > 0 && !t[p].ref
    ensures var u := t[i := Slot(t[i].name, t[i].len, true, t[i].uses + 1)];
            Count(u) > 0 && VictimOf(u, hand) != i && Evict(u, hand)[i].name == t[i].name
            && Evict(u, hand)[i].len == t[i].len
  {
    var u := t[i := Slot(t[i].name, t[i].len, true, t[i].uses + 1)];
    SumsZero(u);
    assert Live(u[p]);
    VictimIsFirst(u, hand, p);
    EvictMeans(u, hand, i);
  }

  // ------------------------------------------------------------------
  // Making room

  /** Table and hand after m evictions. */
  ghost function Rounds(t: seq<Slot>, hand: nat, m: nat): (r: (seq<Slot>, nat))
    requires hand < |t| && m <= Count(t)
    ensures |r.0| == |t| && r.1 < |t| && Count(r.0) == Count(t) - m
    decreases m
  {
    if m == 0 then (t, hand)
    else
      EvictDrops(t, hand);
      Rounds(Evict(t, hand), VictimOf(t, hand), m - 1)
  }

  /** Making room evicts files one by one, as long as too many bytes are left and
      no longer. */
  lemma {:induction false} ShrinkStops(t: seq<Slot>, hand: nat, room: nat) returns (m: nat)
    requires hand < |t|
    ensures m <= Count(t) && Shrink(t, hand, room) == Rounds(t, hand, m) && Bytes(Rounds(t, hand, m).0) <= room
    ensures forall k :: 0 <= k < m ==> Bytes(Rounds(t, hand, k).0) > room
    decreases Count(t)
  {
    hide Count, Bytes, Evict, VictimOf;
    if Bytes(t) <= room {
      return 0;
    }
    SumsZero(t);
    EvictDrops(t, hand);
    var m' := ShrinkStops(Evict(t, hand), VictimOf(t, hand), room);
    m := m' + 1;
    forall k | 0 <= k < m ensures Bytes(Rounds(t, hand, k).0) > room {
      assert k > 0 ==> Rounds(t, hand, k) == Rounds(Evict(t, hand), VictimOf(t, hand), k - 1);
    }
  }

  /** The table and the hand once files have been evicted, one after the other,
      until no more than room bytes are left. */
  ghost function Shrink(t: seq<Slot>, hand: nat, room: nat): (r: (seq<Slot>, nat))
    requires hand < |t|
    ensures |r.0| == |t| && r.1 < |t| && Bytes(r.0) <= room
    decreases Count(t)
  {
    if Bytes(t) <= room then (t, hand)
    else
      SumsZero(t);
      EvictDrops(t, hand);
      Shrink(Evict(t, hand), VictimOf(t, hand), room)
  }

  lemma {:induction false} ShrinkSound(h: Hashes, t: seq<Slot>, hand: nat, room: nat)
    requires Sound(h, t) && hand < |t|
    ensures var (u, _) := Shrink(t, hand, room);
            && Sound(h, u) && (forall x :: Stored(u, x) ==> Stored(t, x))
            && (Bytes(t) > room ==> Count(u) < |u|) && Count(u) <= Count(t)
    decreases Count(t)
  {
    hide Sound, Stored, Evict, VictimOf;
    if Bytes(t) > room {
      SumsZero(t);
      EvictDrops(t, hand);
      DropSound(h, t, Evict(t, hand), VictimOf(t, hand));
      ShrinkSound(h, Evict(t, hand), VictimOf(t, hand), room);
    }
  }

  // ------------------------------------------------------------------
  // Loading a file

  datatype Limits = Limits(maxBytes: nat, maxFileSize: int, maxLoad: int)

  /** What open and fstat say. */
  datatype File = Unavailable | File(size: nat)

  datatype Outcome = Hit(index: nat) | Loaded(index: nat) | Refused | Halted

  predicate Cacheable(lim: Limits, file: File) {
    file.File? && file.size <= lim.maxFileSize && file.size <= lim.maxBytes
  }

  /** The source's test of the load factor. */
  predicate Overloaded(t: seq<Slot>, lim: Limits)
    requires |t| > 0
  {
    Count(t) * 100 / |t| > lim.maxLoad
  }

  /** The server stops instead of loading the file: mmap refuses an empty file,
      the name is too long, the table is full and the bytes fit exactly, so that
      nothing is evicted and yet a place is asked for, or the second search for
      the empty name takes one of the slots just evicted for the file. */
  ghost predicate LoadHalts(h: Hashes, t: seq<Slot>, hand: nat, lim: Limits, uri: string, size: nat)
    requires hand < |t| && size <= lim.maxBytes
  {
    || size == 0 || |uri| >= 64
    || (Count(t) == |t| && Bytes(t) + size == lim.maxBytes)
    || (Bytes(t) + size >= lim.maxBytes && Mistaken(h, Shrink(t, hand, lim.maxBytes - size).0, uri))
  }

  /** Such a table: one slot, one byte stored of two, and a file of one byte. */
  lemma {:induction false} ExactFitHalts(h: Hashes)
    ensures var t, lim := [Slot("a", 1, true, 1)], Limits(2, 2, 100);
            !Overloaded(t, lim) && Cacheable(lim, File(1)) && LoadHalts(h, t, 0, lim, "b", 1)
  {
    var t := [Slot("a", 1, true, 1)];
    assert t[1..] == [];
    assert Count(t) == 1 && Bytes(t) == 1;
  }

  /** Another: the one file stored is evicted for a file of the empty name, and the
      second search takes the slot just evicted. */
  lemma {:induction false} RootPageHalts(h: Hashes)
    ensures var t, lim := [Slot("a", 1, false, 1)], Limits(1, 1, 100);
            && Sound(h, t) && !Overloaded(t, lim) && !Answered(h, t, "") && Cacheable(lim, File(1))
            && LoadHalts(h, t, 0, lim, "", 1) && Count(t) == 1 && Bytes(t) + 1 != lim.maxBytes
  {
    var t, u := [Slot("a", 1, false, 1)], [Slot("", EVICTED, false, 0)];
    assert t[1..] == [];
    assert Count(t) == 1 && Bytes(t) == 1;
    OneSlot(h, t);
    assert VictimOf(t, 0) == 0 && Evict(t, 0) == u;
    assert Shrink(t, 0, 0).0 == u by {
      assert u[1..] == [] && Bytes(u) == 0;
      assert Shrink(u, 0, 0) == (u, 0);
    }
    EvictedAnswers(h);
  }

  /** A table of one slot is searched at once. */
  lemma {:induction false} OneSlot(h: Hashes, t: seq<Slot>)
    requires |t| == 1 && Live(t[0])
    ensures Sound(h, t) && !Mistaken(h, t, "")
  {
    assert Place(First(h, t[0].name, 1), Second(h, t[0].name, 1), 1, 0) == 0;
  }

  /** Table, hand and place for a new file of the size. */
  ghost function Opened(h: Hashes, t: seq<Slot>, hand: nat, lim: Limits, uri: string, size: nat)
    : (r: (seq<Slot>, nat, nat))
    requires hand < |t| && size <= lim.maxBytes
    ensures |r.0| == |t| && r.1 < |t| && r.2 < |t|
  {
    var (u, j) := if Bytes(t) + size >= lim.maxBytes then Shrink(t, hand, lim.maxBytes - size) else (t, hand);
    var i := Vacancy(u, First(h, uri, |u|), Second(h, uri, |u|));
    if i != NIL then (u, j, i)
    else if Count(u) > 0 then (Evict(u, j), VictimOf(u, j), VictimOf(u, j))
    else (u, j, 0)
  }

  ghost function Load(h: Hashes, t: seq<Slot>, hand: nat, lim: Limits, uri: string, size: nat): (r: seq<Slot>)
    requires hand < |t| && size <= lim.maxBytes
  {
    var (u, _, i) := Opened(h, t, hand, lim, uri, size);
    u[i := Slot(uri, size, true, 1)]
  }

  /** The place opened for a file is free and a search for the name gets there. */
  lemma {:induction false} OpenedSound(h: Hashes, t: seq<Slot>, hand: nat, lim: Limits, uri: string, size: nat)
    requires Sound(h, t) && hand < |t| && 0 < size <= lim.maxBytes && Bytes(t) <= lim.maxBytes
    ensures var (u, _, i) := Opened(h, t, hand, lim, uri, size);
            && Sound(h, u) && !Live(u[i]) && Reachable(u, First(h, uri, |u|), Second(h, uri, |u|), i)
            && Bytes(u) + size <= lim.maxBytes
            && (forall x :: Stored(u, x) ==> Stored(t, x))
            && (Bytes(t) + size <= lim.maxBytes && Count(t) < |t| ==> u == t)
  {
    hide AllReachable, Reachable, Stored, Evict, VictimOf, Vacancy, NamesDiffer, SlotsSound;
    var shrinks := Bytes(t) + size >= lim.maxBytes;
    var (u, j) := if shrinks then Shrink(t, hand, lim.maxBytes - size) else (t, hand);
    if shrinks {
      ShrinkSound(h, t, hand, lim.maxBytes - size);
    }
    var a, b := First(h, uri, |u|), Second(h, uri, |u|);
    VacancyMeans(u, a, b);
    SumsZero(u);
    if Vacancy(u, a, b) == NIL {
      EvictDrops(u, j);
      DropSound(h, u, Evict(u, j), VictimOf(u, j));
      AllUsed(u, Evict(u, j), VictimOf(u, j), a, b);
    }
  }

  /** What loading evicts and where the file goes: evictions in the order of the
      hand, as many as the bytes ask for, and one more only if all slots are then
      still taken, whose slot the file gets. */
  lemma {:induction false} LoadEvicts(h: Hashes, t: seq<Slot>, hand: nat, lim: Limits, uri: string, size: nat)
      returns (m: nat, i: nat)
    requires Sound(h, t) && hand < |t| && 0 < size <= lim.maxBytes && Bytes(t) <= lim.maxBytes
    ensures m <= Count(t) && i < |t|
    ensures var (u, j) := Rounds(t, hand, m);
            && Load(h, t, hand, lim, uri, size) == u[i := Slot(uri, size, true, 1)]
            && Opened(h, t, hand, lim, uri, size).1 == j
            && Bytes(u) + size <= lim.maxBytes && u[i].len <= 0
            && (i == j || i == Vacancy(u, First(h, uri, |u|), Second(h, uri, |u|)))
    ensures forall k :: 0 <= k < m ==>
              || Bytes(Rounds(t, hand, k).0) + size > lim.maxBytes
              || (k == m - 1 && Count(Rounds(t, hand, k).0) == |t| && i == Rounds(t, hand, m).1)
  {
    hide Count, Bytes, Evict, VictimOf, Vacancy, Sound, Stored, Reachable, First, Second;
    var room := lim.maxBytes - size;
    m := 0;
    if Bytes(t) + size >= lim.maxBytes {
      m := ShrinkStops(t, hand, room);
      ShrinkSound(h, t, hand, room);
    }
    var (u, j) := Rounds(t, hand, m);
    FullMeans(h, u, uri);
    OpenedSound(h, t, hand, lim, uri, size);
    i := Opened(h, t, hand, lim, uri, size).2;
    if Count(u) == |u| {
      RoundsNext(t, hand, m);
      m := m + 1;
    }
  }

  lemma {:induction false} RoundsNext(t: seq<Slot>, hand: nat, m: nat)
    requires hand < |t| && m < Count(t)
    ensures var (u, j) := Rounds(t, hand, m); Rounds(t, hand, m + 1) == (Evict(u, j), VictimOf(u, j))
    decreases m
  {
    hide Count, Evict, VictimOf;
    if m > 0 {
      EvictDrops(t, hand);
      RoundsNext(Evict(t, hand), VictimOf(t, hand), m - 1);
    }
  }

  /** In a table with all slots used every name may be anywhere. */
  lemma {:induction false} AllUsed(t: seq<Slot>, u: seq<Slot>, v: nat, a: nat, b: nat)
    requires Drops(t, u, v) && v < |t| && a < |t| && b < |t| && forall p :: 0 <= p < |t| ==> Live(t[p])
    ensures Reachable(u, a, b, v)
  {
    var d := Covered(a, b, |t|, v);
    assert UsedBefore(u, a, b, d);
  }

  /** A file once loaded is stored, no other name appears, the bytes stay within
      the limit, and when there was room for it nothing else is lost. */
  lemma {:induction false} LoadHolds(h: Hashes, t: seq<Slot>, hand: nat, lim: Limits, uri: string, size: nat)
    requires Sound(h, t) && hand < |t| && 0 < size <= lim.maxBytes && Bytes(t) <= lim.maxBytes
    requires !Stored(t, uri)
    ensures var u := Load(h, t, hand, lim, uri, size);
            && Sound(h, u) && Bytes(u) <= lim.maxBytes
            && Stored(u, uri) && (forall x :: x != uri && Stored(u, x) ==> Stored(t, x))
            && (Bytes(t) + size <= lim.maxBytes && Count(t) < |t| ==> forall x :: Stored(t, x) ==> Stored(u, x))
  {
    hide Sound, Stored, Reachable, Opened;
    var (u, _, i) := Opened(h, t, hand, lim, uri, size);
    OpenedSound(h, t, hand, lim, uri, size);
    StoreSound(h, u, uri, i, Slot(uri, size, true, 1));
    SumsSet(u, i, Slot(uri, size, true, 1));
  }

  /** With the largest load factor that initCache accepts the test never fails. */
  lemma {:induction false} NeverOverloaded(t: seq<Slot>, lim: Limits)
    requires |t| > 0 && lim.maxLoad == 100
    ensures !Overloaded(t, lim)
  {
    var c := Count(t);
    assert c * 100 <= |t| * 100;
    assert c * 100 / |t| <= 100;
  }

  // ------------------------------------------------------------------
  // The cache

  class Cache {
    const h: Hashes
    const lim: Limits
    const hashTable: array<Slot>
    var clockHand: nat
    var numEntries: int
    var numBytes: int

    ghost predicate Counted() reads this, hashTable {
      clockHand < hashTable.Length && numBytes == Bytes(hashTable[..]) && numEntries == Count(hashTable[..])
    }

    ghost predicate Valid() reads this, hashTable {
      Counted() && Sound(h, hashTable[..]) && numBytes <= lim.maxBytes
    }

    constructor (hashes: Hashes, limits: Limits, tableSize: nat)
      requires tableSize > 0
      ensures Valid() && fresh(hashTable) && hashTable.Length == tableSize && h == hashes && lim == limits
      ensures numEntries == 0 && forall x :: !Stored(hashTable[..], x)
    {
      h, lim := hashes, limits;
      hashTable := new Slot[tableSize](i => BLANK);
      clockHand, numEntries, numBytes := 0, 0, 0;
      new;
      SumsZero(hashTable[..]);
    }

    /** Whether the file is cached, and where; or else where it should go. */
    method Lookup(uri: string) returns (found: bool, index: int)
      requires Sound(h, hashTable[..])
      ensures found <==> Answered(h, hashTable[..], uri)
      ensures found ==> 0 <= index < hashTable.Length && hashTable[index].name == uri
      ensures found ==> (Live(hashTable[index]) <==> !Mistaken(h, hashTable[..], uri))
      ensures !found ==>
                index == Vacancy(hashTable[..], First(h, uri, hashTable.Length), Second(h, uri, hashTable.Length))
    {
      hide AllReachable, NamesDiffer, Answered, Mistaken, FreshFrom, EvictedFrom, EndFrom, First, Second;
      var n := hashTable.Length;
      ghost var t := hashTable[..];
      SearchMeans(h, t, uri);
      var a, b := First(h, uri, n), Second(h, uri, n);
      assert Place(a, b, n, 0) == a && Place(a, b, n, 1) == b;
      if hashTable[a].len == 0 {
        return false, a;
      } else if hashTable[a].name == uri {
        assert MatchAt(t, a, b, uri, 0);
        return true, a;
      }
      if hashTable[b].len == 0 {
        return false, b;
      } else if hashTable[b].name == uri {
        assert MatchAt(t, a, b, uri, 1);
        return true, b;
      }
      found, index := ScanOn(uri, a, b);
    }

    /** The linear scan, after the two hash positions. */
    method ScanOn(uri: string, a: nat, b: nat) returns (found: bool, index: int)
      requires a < hashTable.Length && b < hashTable.Length && EndFrom(hashTable[..], a, b, uri, 0) >= 2
      ensures var e, n := EndFrom(hashTable[..], a, b, uri, 0), hashTable.Length;
              && (found <==> e < n + 2 && Used(hashTable[Place(a, b, n, e)]))
              && index == if found then Place(a, b, n, e) else Vacancy(hashTable[..], a, b)
    {
      hide FreshFrom, EvictedFrom, EndFrom;
      var n := hashTable.Length;
      ghost var t := hashTable[..];
      var i, goodBucket := 0, false;
      index := b;
      while i < n
        invariant 0 <= i <= n && EndFrom(t, a, b, uri, 0) >= i + 2
        invariant if goodBucket then EvictedFrom(t, a, b, 2) < i + 2 && index == Place(a, b, n, EvictedFrom(t, a, b, 2))
                  else EvictedFrom(t, a, b, 2) >= i + 2
      {
        var p := Spot(b, i + 1, n);
        assert p == Place(a, b, n, i + 2);
        assert EndFrom(t, a, b, uri, 0) == i + 2 <==> !Used(t[p]) || MatchAt(t, a, b, uri, i + 2);
        if hashTable[p].len == 0 {
          return false, p;
        } else if hashTable[p].len == EVICTED && !goodBucket {
          assert EvictedFrom(t, a, b, 2) == i + 2;
          index, goodBucket := p, true;
        } else if hashTable[p].name == uri {
          return true, p;
        }
        i := i + 1;
      }
      return false, if goodBucket then index else NIL;
    }

    /** Evicts one file. */
    method Victim() returns (victim: nat)
      requires Counted() && numEntries > 0
      modifies this`clockHand, this`numEntries, this`numBytes, hashTable
      ensures Counted()
      ensures victim == clockHand == VictimOf(old(hashTable[..]), old(clockHand))
      ensures hashTable[..] == Evict(old(hashTable[..]), old(clockHand))
    {
      hide Count, Bytes, Sweeping, HandAt, Evict, VictimOf;
      ghost var t, hand, n := hashTable[..], clockHand, hashTable.Length;
      EvictDrops(t, hand);
      ghost var k := 0;
      SweepStarts(t, hand);
      while !(hashTable[clockHand].len > 0 && !hashTable[clockHand].ref)
        invariant 0 <= k < 2 * n && clockHand == HandAt(hand, k, n)
        invariant Sweeping(t, hand, k, hashTable[..])
        invariant numBytes == Bytes(t) && numEntries == Count(t)
        decreases 2 * n - k
      {
        ghost var u := hashTable[..];
        SweepOn(t, hand, k, u);
        HandNext(hand, k, n);
        if hashTable[clockHand].len > 0 {
          hashTable[clockHand] := hashTable[clockHand].(ref := false);
        }
        assert hashTable[..] == u[clockHand := Passed(u[clockHand])];
        clockHand := clockHand + 1;
        if clockHand == hashTable.Length {
          clockHand := 0;
        }
        k := k + 1;
      }
      SweepStops(t, hand, k, hashTable[..]);
      victim := clockHand;
      numBytes := numBytes - hashTable[victim].len;
      hashTable[victim] := Slot("", EVICTED, hashTable[victim].ref, 0);
      numEntries := numEntries - 1;
    }

    /** Evicts files until a file of the size would fit. */
    method MakeRoom(size: nat)
      requires Counted() && size <= lim.maxBytes
      modifies this`clockHand, this`numEntries, this`numBytes, hashTable
      ensures Counted()
      ensures (hashTable[..], clockHand) == Shrink(old(hashTable[..]), old(clockHand), lim.maxBytes - size)
    {
      hide Count, Bytes, Evict, VictimOf;
      ghost var room := lim.maxBytes - size;
      ghost var goal := Shrink(hashTable[..], clockHand, room);
      while lim.maxBytes - numBytes < size
        invariant Counted() && Shrink(hashTable[..], clockHand, room) == goal
        decreases numEntries
      {
        SumsZero(hashTable[..]);
        EvictDrops(hashTable[..], clockHand);
        var _ := Victim();
      }
    }

    /** The source's cache_add: looks the file up and loads it if it can be. */
    method Add(uri: string, file: File) returns (outcome: Outcome)
      requires Valid()
      modifies this`clockHand, this`numEntries, this`numBytes, hashTable
      ensures outcome == Halted <==>
                var t := old(hashTable[..]);
                || Count(t) * 100 / |t| > lim.maxLoad
                || (&& !Answered(h, t, uri) && file.File? && file.size <= lim.maxFileSize && file.size <= lim.maxBytes
                    && LoadHalts(h, t, old(clockHand), lim, uri, file.size))
      ensures outcome != Halted ==> Valid()
      ensures outcome.Hit? <==> outcome != Halted && Answered(h, old(hashTable[..]), uri)
      ensures outcome.Hit? ==>
                var i := outcome.index;
                && i < hashTable.Length && clockHand == old(clockHand)
                && old(hashTable[..])[i].name == uri
                && (Live(old(hashTable[..])[i]) <==> !Mistaken(h, old(hashTable[..]), uri))
                && var was := old(hashTable[..])[i];
                   hashTable[..] == old(hashTable[..])[i := Slot(uri, was.len, true, was.uses + 1)]
      ensures outcome == Refused
              <==> outcome != Halted && !Answered(h, old(hashTable[..]), uri)
                   && (file.Unavailable? || file.size > lim.maxFileSize || file.size > lim.maxBytes)
      ensures outcome == Refused ==> hashTable[..] == old(hashTable[..]) && clockHand == old(clockHand)
      ensures outcome.Loaded? ==>
                && file.File? && hashTable[..] == Load(h, old(hashTable[..]), old(clockHand), lim, uri, file.size)
                && outcome.index < hashTable.Length && hashTable[outcome.index] == Slot(uri, file.size, true, 1)
                && clockHand == Opened(h, old(hashTable[..]), old(clockHand), lim, uri, file.size).1
    {
      hide Sound, Stored, Mistaken, Vacancy, Count, Bytes, First, Second, Load, Opened, Shrink;
      ghost var t := hashTable[..];
      var overloaded := LoadExceeded();
      if overloaded {
        return Halted;
      }
      var found, index := Lookup(uri);
      if found {
        TouchSound(h, t, index);
        hashTable[index] := hashTable[index].(ref := true, uses := hashTable[index].uses + 1);
        assert hashTable[..] == t[index := Touched(t[index])];
        return Hit(index);
      }
      if file.Unavailable? || file.size > lim.maxFileSize || file.size > lim.maxBytes {
        return Refused;
      }
      index := OpenPlace(uri, file.size, index);
      if index == NIL || |uri| >= NAME_MAX || file.size == 0 {
        return Halted;
      }
      ghost var s, u := Slot(uri, file.size, true, 1), hashTable[..];
      Loading(h, t, old(clockHand), lim, uri, file.size);
      hashTable[index] := Slot(uri, file.size, true, 1);
      assert hashTable[..] == u[index := s];
      numEntries := numEntries + 1;
      numBytes := numBytes + file.size;
      return Loaded(index);
    }

    method LoadExceeded() returns (exceeded: bool)
      requires Counted()
      ensures exceeded == Overloaded(hashTable[..], lim)
    {
      exceeded := numEntries * 100 / hashTable.Length > lim.maxLoad;
    }

    /** Finds or makes a free slot for a file that is not cached, where a lookup
        has just given index; NIL is the assertion that fails. */
    method OpenPlace(uri: string, size: nat, spot: int) returns (index: int)
      requires Valid() && !Answered(h, hashTable[..], uri) && size <= lim.maxBytes
      requires spot == Vacancy(hashTable[..], First(h, uri, hashTable.Length), Second(h, uri, hashTable.Length))
      modifies this`clockHand, this`numEntries, this`numBytes, hashTable
      ensures index == NIL <==>
                var t := old(hashTable[..]);
                || (Count(t) == |t| && Bytes(t) + size == lim.maxBytes)
                || (Bytes(t) + size >= lim.maxBytes
                    && Mistaken(h, Shrink(t, old(clockHand), lim.maxBytes - size).0, uri))
      ensures index != NIL ==>
                Counted() && (hashTable[..], clockHand, index)
                  == Opened(h, old(hashTable[..]), old(clockHand), lim, uri, size)
    {
      hide Sound, Stored, Mistaken, Vacancy, Count, Bytes, Evict, VictimOf, Shrink, First, Second;
      ghost var t, room := hashTable[..], lim.maxBytes - size;
      index := spot;
      FullMeans(h, t, uri);
      if numBytes + size >= lim.maxBytes {
        MakeRoom(size);
        ghost var u := hashTable[..];
        ShrinkSound(h, t, old(clockHand), room);
        if Bytes(t) == room {
          ShrinkKeeps(t, old(clockHand), room);
        }
        FullMeans(h, u, uri);
        var found;
        found, index := Lookup(uri);
        if found || index == NIL {
          return NIL;
        }
      }
      if index == NIL {
        index := Victim();
      }
    }
  }

  /** There is no place for a new name exactly when the table is full. */
  lemma {:induction false} FullMeans(h: Hashes, t: seq<Slot>, uri: string)
    requires Sound(h, t)
    ensures Vacancy(t, First(h, uri, |t|), Second(h, uri, |t|)) == NIL <==> Count(t) == |t|
    ensures |t| > 0
  {
    SumsZero(t);
    VacancyMeans(t, First(h, uri, |t|), Second(h, uri, |t|));
  }

  lemma {:induction false} Loading(h: Hashes, t: seq<Slot>, hand: nat, lim: Limits, uri: string, size: nat)
    requires Sound(h, t) && hand < |t| && 0 < size <= lim.maxBytes && Bytes(t) <= lim.maxBytes
    requires !Stored(t, uri)
    ensures var (u, _, i) := Opened(h, t, hand, lim, uri, size);
            var r := u[i := Slot(uri, size, true, 1)];
            && r == Load(h, t, hand, lim, uri, size) && Sound(h, r)
            && Bytes(r) == Bytes(u) + size <= lim.maxBytes && Count(r) == Count(u) + 1
  {
    hide Sound, Stored, Reachable, Opened;
    var (u, _, i) := Opened(h, t, hand, lim, uri, size);
    OpenedSound(h, t, hand, lim, uri, size);
    LoadHolds(h, t, hand, lim, uri, size);
    SumsSet(u, i, Slot(uri, size, true, 1));
  }

  function Touched(s: Slot): (r: Slot) { s.(ref := true, uses := s.uses + 1) }

  lemma {:induction false} TouchSound(h: Hashes, t: seq<Slot>, p: int)
    requires Sound(h, t) && 0 <= p < |t|
    ensures var u := t[p := Touched(t[p])];
            Sound(h, u) && Bytes(u) == Bytes(t) && Count(u) == Count(t) && forall x :: Stored(u, x) <==> Stored(t, x)
  {
    var u := t[p := Touched(t[p])];
    assert Drops(t, u, NIL);
    DropSound(h, t, u, NIL);
    SumsSame(t, u);
  }

  /** Nothing is evicted when enough room is left already. */
  lemma {:induction false} ShrinkKeeps(t: seq<Slot>, hand: nat, room: nat)
    requires hand < |t| && Bytes(t) <= room
    ensures Shrink(t, hand, room) == (t, hand)
  {
  }

  lemma {:induction false} SweepStarts(t: seq<Slot>, hand: nat)
    requires hand < |t|
    ensures Sweeping(t, hand, 0, t) && HandAt(hand, 0, |t|) == hand
  {
    assert Swept(t, hand, 0) == t;
  }

  lemma {:induction false} SpotIsRemainder(b: nat, e: nat, n: nat)
    requires b < n && e <= n
    ensures Spot(b, e, n) == (b + e) % n
  {
    var q := (b + e) / n;
    Multiples(q, n);
    assert b + e == q * n + (b + e) % n;
  }

  lemma {:induction false} Multiples(q: int, n: nat)
    ensures q >= 2 ==> q * n >= n + n
    ensures q == 1 ==> q * n == n
    ensures q == 0 ==> q * n == 0
  {
  }

  /** One step of the hand in its first round, k slots after its start. */
  lemma {:induction false} SweepStep(t: seq<Slot>, hand: nat, k: nat)
    requires hand < |t| && k < |t|
    ensures var p, u := Spot(hand, k, |t|), Swept(t, hand, k);
            u[p] == t[p] && Swept(t, hand, k + 1) == u[p := Passed(u[p])]
  {
    var p := Spot(hand, k, |t|);
    assert Ahead(hand, p, |t|) == k;
    forall q | 0 <= q < |t| && q != p ensures Ahead(hand, q, |t|) != k {
      assert Spot(hand, Ahead(hand, q, |t|), |t|) == q;
    }
  }

  /** After a full round no file has its reference bit. */
  lemma {:induction false} SweptClean(t: seq<Slot>, hand: nat, p: nat)
    requires hand < |t| && p < |t|
    ensures Swept(t, hand, |t|)[p] == Passed(t[p])
  {
  }

  /** Where the hand is after k steps, and after one more. */
  function HandAt(hand: nat, k: nat, n: nat): (p: nat)
    requires hand < n && k < 2 * n
    ensures p < n
  {
    Spot(hand, if k < n then k else k - n, n)
  }

  lemma {:induction false} HandNext(hand: nat, k: nat, n: nat)
    requires hand < n && k + 1 < 2 * n
    ensures HandAt(hand, k + 1, n) == if HandAt(hand, k, n) + 1 == n then 0 else HandAt(hand, k, n) + 1
  {
  }

  /** What the hand has found out and done after k steps. */
  ghost predicate Sweeping(t: seq<Slot>, hand: nat, k: nat, u: seq<Slot>) {
    && hand < |t| && k < 2 * |t|
    && u == Swept(t, hand, if k < |t| then k else |t|)
    && (if k < |t| then k <= IdleFrom(t, hand, 0) else IdleFrom(t, hand, 0) == |t| && k - |t| <= LiveFrom(t, hand, 0))
  }

  /** The hand goes on from a slot without a file, or with a referenced one. */
  lemma {:induction false} SweepOn(t: seq<Slot>, hand: nat, k: nat, u: seq<Slot>)
    requires Sweeping(t, hand, k, u) && Count(t) > 0
    requires !Live(u[HandAt(hand, k, |t|)]) || u[HandAt(hand, k, |t|)].ref
    ensures k + 1 < 2 * |t|
    ensures Sweeping(t, hand, k + 1, u[HandAt(hand, k, |t|) := Passed(u[HandAt(hand, k, |t|)])])
  {
    hide Swept, Count;
    var p, n := HandAt(hand, k, |t|), |t|;
    SomeLive(t, hand);
    if k < n {
      SweepStep(t, hand, k);
    } else {
      SweptClean(t, hand, p);
      assert u[p := Passed(u[p])] == u;
    }
  }

  /** The hand stops at a file that is not referenced. */
  lemma {:induction false} SweepStops(t: seq<Slot>, hand: nat, k: nat, u: seq<Slot>)
    requires Sweeping(t, hand, k, u) && Count(t) > 0
    requires Live(u[HandAt(hand, k, |t|)]) && !u[HandAt(hand, k, |t|)].ref
    ensures var v := HandAt(hand, k, |t|);
            v == VictimOf(t, hand) && Evict(t, hand) == u[v := Emptied(u[v])] && u[v].len == t[v].len
  {
    hide Swept, Count;
    if k < |t| {
      SweepStep(t, hand, k);
    } else {
      SweptClean(t, hand, HandAt(hand, k, |t|));
    }
  }
}
