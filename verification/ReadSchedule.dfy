/** What flash's read master does with connections that need disk data: groups
    of connections that want the same piece, some at a helper process, the rest
    waiting in line.  ReadMaster proves that the linked records refine this. */
module ReadSchedule {
  import opened Lists

  /** The piece of a file that is wanted: its cache entry and first byte. */
  datatype Key = Key(entry: int, start: int)

  /** Connections that wait for the same piece, the one that asked first in front;
      ended are those among them that a timer has ended, and that stay linked. */
  datatype Group = Group(key: Key, members: seq<nat>, ended: set<nat>)

  /** A helper process, by the descriptor of its socket, and its current group. */
  datatype Slot = Slot(fd: int, group: Option<Group>)

  datatype State = State(slots: seq<Slot>, waiting: seq<Group>)

  /** The connection in front has not ended. */
  predicate Alive(g: Group) { g.members == [] || g.members[0] !in g.ended }

  /** Some connection of the group has ended. */
  predicate Spoiled(g: Group) { exists c | c in g.members :: c in g.ended }

  /** A request for the piece may join: the source compares it with the file and
      the place of the connection in front, and one that has ended has no file. */
  predicate Wanting(g: Group, key: Key) { g.key == key && Alive(g) }

  /** Position of the first helper working on the piece. */
  function Reading(slots: seq<Slot>, key: Key): (i: nat)
    ensures i <= |slots|
    ensures i < |slots| ==> slots[i].group.Some? && Wanting(slots[i].group.value, key)
    ensures forall j :: 0 <= j < i ==> slots[j].group.None? || !Wanting(slots[j].group.value, key)
  {
    if slots == [] || (slots[0].group.Some? && Wanting(slots[0].group.value, key)) then 0
    else 1 + Reading(slots[1..], key)
  }

  /** Position of the first helper with nothing to do. */
  function Spare(slots: seq<Slot>): (i: nat)
    ensures i <= |slots|
    ensures i < |slots| ==> slots[i].group.None?
    ensures forall j :: 0 <= j < i ==> slots[j].group.Some?
  {
    if slots == [] || slots[0].group.None? then 0 else 1 + Spare(slots[1..])
  }

  /** Position of the first group in line for the piece. */
  function Queued(waiting: seq<Group>, key: Key): (i: nat)
    ensures i <= |waiting|
    ensures i < |waiting| ==> Wanting(waiting[i], key)
    ensures forall j :: 0 <= j < i ==> !Wanting(waiting[j], key)
  {
    if waiting == [] || Wanting(waiting[0], key) then 0 else 1 + Queued(waiting[1..], key)
  }

  /** A connection joins behind the one that asked first. */
  function Join(g: Group, c: nat): (r: Group)
    requires g.members != []
  {
    g.(members := [g.members[0], c] + g.members[1..], ended := g.ended - {c})
  }

  predicate Full(s: State) {
    forall i :: 0 <= i < |s.slots| ==> s.slots[i].group.Some?
  }

  /** A new helper is wanted and can be had: fd is its socket, or NIL. */
  predicate Forks(s: State, maxHelp: nat, timely: bool, fd: int) {
    (|s.slots| == 0 || (|s.slots| < maxHelp && timely)) && fd >= 0
  }

  /** A connection is blocked until a piece has been read. */
  function Request(s: State, maxHelp: nat, c: nat, key: Key, timely: bool, fd: int): (r: State)
    requires forall i :: 0 <= i < |s.slots| && s.slots[i].group.Some? ==> s.slots[i].group.value.members != []
    requires forall i :: 0 <= i < |s.waiting| ==> s.waiting[i].members != []
  {
    var i, j, k := Reading(s.slots, key), Spare(s.slots), Queued(s.waiting, key);
    if i < |s.slots| then
      s.(slots := s.slots[i := s.slots[i].(group := Some(Join(s.slots[i].group.value, c)))])
    else if j < |s.slots| then
      s.(slots := s.slots[j := s.slots[j].(group := Some(Group(key, [c], {})))])
    else if k < |s.waiting| then
      s.(waiting := s.waiting[k := Join(s.waiting[k], c)])
    else if Forks(s, maxHelp, timely, fd) then
      s.(slots := s.slots + [Slot(fd, Some(Group(key, [c], {})))])
    else
      s.(waiting := s.waiting + [Group(key, [c], {})])
  }

  /** The connections that helper i has blocked. */
  function Resumed(s: State, i: nat): (r: seq<nat>)
    requires i < |s.slots| && s.slots[i].group.Some?
  {
    s.slots[i].group.value.members
  }

  /** Helper i has finished; the group first in line goes to helper j. */
  function Complete(s: State, i: nat, j: int): (r: State)
    requires i < |s.slots|
  {
    var freed := s.slots[i := s.slots[i].(group := None)];
    if s.waiting == [] then State(freed, [])
    else State(if 0 <= j < |s.slots| then freed[j := freed[j].(group := Some(s.waiting[0]))] else freed, s.waiting[1..])
  }

  /** An idle helper has gone away; those behind it move up. */
  function Leave(s: State, i: nat): (r: State)
    requires i < |s.slots|
  {
    s.(slots := RemoveAt(s.slots, i))
  }

  // ------------------------------------------------------------------
  // The pieces wanted and the connections blocked

  /** How many times a place with an optional group wants the piece: 0 or 1. */
  function WantsAt(g: Option<Group>, key: Key): (n: nat) {
    OneIf(g.Some? && Wanting(g.value, key))
  }

  function BlocksAt(g: Option<Group>, c: nat): (n: nat) {
    if g.Some? then Occurs(g.value.members, c) else 0
  }

  /** How many groups of the list want the piece. */
  function Wants(gs: seq<Option<Group>>, key: Key): (n: nat) {
    if gs == [] then 0 else WantsAt(gs[0], key) + Wants(gs[1..], key)
  }

  /** How many times the connection stands in groups of the list. */
  function Blocks(gs: seq<Option<Group>>, c: nat): (n: nat) {
    if gs == [] then 0 else BlocksAt(gs[0], c) + Blocks(gs[1..], c)
  }

  /** What each helper works on, then what stands in line. */
  ghost function All(s: State): (gs: seq<Option<Group>>)
    ensures |gs| == |s.slots| + |s.waiting|
    ensures forall i :: 0 <= i < |s.slots| ==> gs[i] == s.slots[i].group
    ensures forall i :: |s.slots| <= i < |gs| ==> gs[i] == Some(s.waiting[i - |s.slots|])
  {
    seq(|s.slots|, i requires 0 <= i < |s.slots| => s.slots[i].group)
    + seq(|s.waiting|, i requires 0 <= i < |s.waiting| => Some(s.waiting[i]))
  }

  ghost predicate Inhabited(gs: seq<Option<Group>>) {
    forall i :: 0 <= i < |gs| && gs[i].Some? ==> gs[i].value.members != []
  }

  ghost predicate KeysOnce(gs: seq<Option<Group>>) {
    forall key :: Wants(gs, key) <= 1
  }

  ghost predicate ConnsOnce(gs: seq<Option<Group>>) {
    forall c :: Blocks(gs, c) <= 1
  }

  ghost predicate Sound(gs: seq<Option<Group>>) {
    Inhabited(gs) && KeysOnce(gs) && ConnsOnce(gs)
  }

  /** Each blocked connection is in exactly one group and exactly once, the
      groups that can be joined want different pieces, none waits while a helper
      is free, and there are no more helpers than allowed. */
  ghost predicate Inv(s: State, maxHelp: nat) {
    && Sound(All(s))
    && (s.waiting != [] ==> Full(s) && s.slots != [])
    && |s.slots| <= maxHelp
  }

  lemma {:induction false} CountsAppend(a: seq<Option<Group>>, b: seq<Option<Group>>, key: Key, c: nat)
    ensures Wants(a + b, key) == Wants(a, key) + Wants(b, key)
    ensures Blocks(a + b, c) == Blocks(a, c) + Blocks(b, c)
  {
    if a == [] {
      assert a + b == b;
    } else {
      assert (a + b)[1..] == a[1..] + b;
      CountsAppend(a[1..], b, key, c);
    }
  }

  /** Taking one group out of the list takes out its key and its members. */
  lemma {:induction false} CountsSplit(gs: seq<Option<Group>>, i: nat, key: Key, c: nat)
    requires i < |gs|
    ensures Wants(gs, key) == Wants(RemoveAt(gs, i), key) + WantsAt(gs[i], key)
    ensures Blocks(gs, c) == Blocks(RemoveAt(gs, i), c) + BlocksAt(gs[i], c)
  {
    if i == 0 {
      assert RemoveAt(gs, 0) == gs[1..];
    } else {
      CountsSplit(gs[1..], i - 1, key, c);
      assert RemoveAt(gs, i) == [gs[0]] + RemoveAt(gs[1..], i - 1);
      assert RemoveAt(gs, i)[1..] == RemoveAt(gs[1..], i - 1);
    }
  }

  lemma {:induction false} CountsSet(gs: seq<Option<Group>>, i: nat, g: Option<Group>, key: Key, c: nat)
    requires i < |gs|
    ensures Wants(gs[i := g], key) == Wants(gs, key) - WantsAt(gs[i], key) + WantsAt(g, key)
    ensures Blocks(gs[i := g], c) == Blocks(gs, c) - BlocksAt(gs[i], c) + BlocksAt(g, c)
  {
    CountsSplit(gs, i, key, c);
    CountsSplit(gs[i := g], i, key, c);
    assert RemoveAt(gs[i := g], i) == RemoveAt(gs, i);
  }

  lemma {:induction false} CountsInsert(gs: seq<Option<Group>>, i: nat, g: Option<Group>, key: Key, c: nat)
    requires i <= |gs|
    ensures var gs' := gs[..i] + ([g] + gs[i..]);
            && Wants(gs', key) == Wants(gs, key) + WantsAt(g, key)
            && Blocks(gs', c) == Blocks(gs, c) + BlocksAt(g, c)
  {
    var gs' := gs[..i] + ([g] + gs[i..]);
    CountsSplit(gs', i, key, c);
    assert RemoveAt(gs', i) == gs;
  }

  lemma {:induction false} KeyAbsent(gs: seq<Option<Group>>, key: Key)
    requires forall i :: 0 <= i < |gs| ==> gs[i].None? || !Wanting(gs[i].value, key)
    ensures Wants(gs, key) == 0
  {
    if gs != [] {
      KeyAbsent(gs[1..], key);
    }
  }

  lemma {:induction false} OccursAppend<T>(a: seq<T>, b: seq<T>, x: T)
    ensures Occurs(a + b, x) == Occurs(a, x) + Occurs(b, x)
  {
    if a == [] {
      assert a + b == b;
    } else {
      assert (a + b)[1..] == a[1..] + b;
      OccursAppend(a[1..], b, x);
    }
  }

  /** A member of a group of the list is blocked. */
  lemma {:induction false} MemberBlocks(gs: seq<Option<Group>>, i: nat, c: nat)
    requires i < |gs| && gs[i].Some? && c in gs[i].value.members
    ensures Blocks(gs, c) >= 1
  {
    CountsSplit(gs, i, Key(0, 0), c);
    OccursIn(gs[i].value.members, c);
  }

  lemma {:induction false} OccursOne<T>(y: T, x: T)
    ensures Occurs([y], x) == if x == y then 1 else 0
  {
    assert [y][1..] == [];
  }

  lemma {:induction false} JoinOccurs(g: Group, c: nat, x: nat)
    requires g.members != []
    ensures Occurs(Join(g, c).members, x) == Occurs(g.members, x) + (if x == c then 1 else 0)
  {
    assert g.members == [g.members[0]] + g.members[1..];
    OccursAppend([g.members[0]], g.members[1..], x);
    OccursAppend([g.members[0], c], g.members[1..], x);
    OccursAppend([g.members[0]], [c], x);
    assert [g.members[0], c] == [g.members[0]] + [c];
    OccursOne(c, x);
  }

  // ------------------------------------------------------------------
  // A connection that is not blocked may block: it joins or forms one group

  /** The lists of groups before and after c has been added to the group at i,
      or, where no group wanted the piece, a group of its own has been. */
  ghost predicate Adds(gs: seq<Option<Group>>, gs': seq<Option<Group>>, c: nat) {
    && Sound(gs')
    && (forall x :: Blocks(gs', x) == Blocks(gs, x) + if x == c then 1 else 0)
  }

  lemma {:induction false} JoinAdds(gs: seq<Option<Group>>, i: nat, c: nat)
    requires i < |gs| && gs[i].Some? && Alive(gs[i].value) && Sound(gs) && Blocks(gs, c) == 0
    ensures gs[i].value.members != [] && Adds(gs, gs[i := Some(Join(gs[i].value, c))], c)
  {
    var gs' := gs[i := Some(Join(gs[i].value, c))];
    forall key ensures Wants(gs', key) == Wants(gs, key) {
      CountsSet(gs, i, gs'[i], key, c);
    }
    forall x ensures Blocks(gs', x) == Blocks(gs, x) + if x == c then 1 else 0 {
      CountsSet(gs, i, gs'[i], gs[i].value.key, x);
      JoinOccurs(gs[i].value, c, x);
    }
  }

  lemma {:induction false} SetAdds(gs: seq<Option<Group>>, i: nat, c: nat, key: Key)
    requires i < |gs| && gs[i].None? && Sound(gs) && Blocks(gs, c) == 0 && Wants(gs, key) == 0
    ensures Adds(gs, gs[i := Some(Group(key, [c], {}))], c)
  {
    var gs' := gs[i := Some(Group(key, [c], {}))];
    forall k, x ensures Wants(gs', k) == Wants(gs, k) + (if k == key then 1 else 0)
                        && Blocks(gs', x) == Blocks(gs, x) + (if x == c then 1 else 0) {
      CountsSet(gs, i, gs'[i], k, x);
      OccursOne(c, x);
    }
  }

  lemma {:induction false} InsertAdds(gs: seq<Option<Group>>, i: nat, c: nat, key: Key)
    requires i <= |gs| && Sound(gs) && Blocks(gs, c) == 0 && Wants(gs, key) == 0
    ensures Adds(gs, gs[..i] + ([Some(Group(key, [c], {}))] + gs[i..]), c)
  {
    var g := Some(Group(key, [c], {}));
    var gs' := gs[..i] + ([g] + gs[i..]);
    forall k, x ensures Wants(gs', k) == Wants(gs, k) + (if k == key then 1 else 0)
                        && Blocks(gs', x) == Blocks(gs, x) + (if x == c then 1 else 0) {
      CountsInsert(gs, i, g, k, x);
      OccursOne(c, x);
    }
    forall j | 0 <= j < |gs'| && gs'[j].Some? ensures gs'[j].value.members != [] {
      assert j < i ==> gs'[j] == gs[j];
      assert j > i ==> gs'[j] == gs[j - 1];
    }
  }

  /** A group at a new helper, or at the end of the line, is one more group. */
  lemma {:induction false} AllNew(s: State, fd: int, g: Group)
    ensures var gs, n := All(s), |s.slots|;
            && All(s.(slots := s.slots + [Slot(fd, Some(g))])) == gs[..n] + ([Some(g)] + gs[n..])
            && All(s.(waiting := s.waiting + [g])) == gs[..|gs|] + ([Some(g)] + gs[|gs|..])
  {
    var gs, n := All(s), |s.slots|;
    var a, b := All(s.(slots := s.slots + [Slot(fd, Some(g))])), gs[..n] + ([Some(g)] + gs[n..]);
    forall i | 0 <= i < |a| ensures a[i] == b[i] {
      assert i > n ==> b[i] == gs[i - 1];
    }
  }

  /** What a request does to the list of groups: the connection joins the group
      at a place, or a group of its own takes a free place or is put in between. */
  datatype Way = JoinAt(at: nat) | TakeAt(at: nat) | InsertAt(at: nat)

  predicate WayFits(gs: seq<Option<Group>>, way: Way, key: Key) {
    match way
    case JoinAt(i) => i < |gs| && gs[i].Some? && Wanting(gs[i].value, key) && gs[i].value.members != []
    case TakeAt(i) => i < |gs| && gs[i].None?
    case InsertAt(i) => i <= |gs|
  }

  function Placed(gs: seq<Option<Group>>, way: Way, key: Key, c: nat): (gs': seq<Option<Group>>)
    requires WayFits(gs, way, key)
  {
    match way
    case JoinAt(i) => gs[i := Some(Join(gs[i].value, c))]
    case TakeAt(i) => gs[i := Some(Group(key, [c], {}))]
    case InsertAt(i) => gs[..i] + ([Some(Group(key, [c], {}))] + gs[i..])
  }

  function WayOf(s: State, maxHelp: nat, key: Key, timely: bool, fd: int): (way: Way) {
    var i, j, k, n := Reading(s.slots, key), Spare(s.slots), Queued(s.waiting, key), |s.slots|;
    if i < n then JoinAt(i)
    else if j < n then TakeAt(j)
    else if k < |s.waiting| then JoinAt(n + k)
    else InsertAt(if Forks(s, maxHelp, timely, fd) then n else n + |s.waiting|)
  }

  lemma {:induction false} RequestWay(s: State, maxHelp: nat, c: nat, key: Key, timely: bool, fd: int)
    requires Requestable(s)
    ensures WayFits(All(s), WayOf(s, maxHelp, key, timely, fd), key)
    ensures All(Request(s, maxHelp, c, key, timely, fd)) == Placed(All(s), WayOf(s, maxHelp, key, timely, fd), key, c)
  {
    hide All, Request, Reading, Spare, Queued;
    if Reading(s.slots, key) < |s.slots| {
      RequestAtHelper(s, maxHelp, c, key, timely, fd);
    } else if Spare(s.slots) < |s.slots| {
      RequestTakesHelper(s, maxHelp, c, key, timely, fd);
    } else if Queued(s.waiting, key) < |s.waiting| {
      RequestAtLine(s, maxHelp, c, key, timely, fd);
    } else {
      RequestNew(s, maxHelp, c, key, timely, fd);
    }
  }

  lemma {:induction false} RequestAtLine(s: State, maxHelp: nat, c: nat, key: Key, timely: bool, fd: int)
    requires Requestable(s) && Reading(s.slots, key) == |s.slots| == Spare(s.slots)
    requires Queued(s.waiting, key) < |s.waiting|
    ensures var gs, i := All(s), |s.slots| + Queued(s.waiting, key);
            && gs[i] == Some(s.waiting[Queued(s.waiting, key)]) && gs[i].value.members != []
            && All(Request(s, maxHelp, c, key, timely, fd)) == gs[i := Some(Join(gs[i].value, c))]
  {
  }

  lemma {:induction false} RequestNew(s: State, maxHelp: nat, c: nat, key: Key, timely: bool, fd: int)
    requires Requestable(s) && Reading(s.slots, key) == |s.slots| == Spare(s.slots)
    requires Queued(s.waiting, key) == |s.waiting|
    ensures var gs, i := All(s), if Forks(s, maxHelp, timely, fd) then |s.slots| else |s.slots| + |s.waiting|;
            All(Request(s, maxHelp, c, key, timely, fd)) == gs[..i] + ([Some(Group(key, [c], {}))] + gs[i..])
  {
    hide All;
    AllNew(s, fd, Group(key, [c], {}));
  }

  lemma {:induction false} RequestAtHelper(s: State, maxHelp: nat, c: nat, key: Key, timely: bool, fd: int)
    requires Requestable(s) && Reading(s.slots, key) < |s.slots|
    ensures var gs, i := All(s), Reading(s.slots, key);
            && gs[i] == s.slots[i].group && gs[i].value.members != []
            && All(Request(s, maxHelp, c, key, timely, fd)) == gs[i := Some(Join(gs[i].value, c))]
  {
  }

  lemma {:induction false} RequestTakesHelper(s: State, maxHelp: nat, c: nat, key: Key, timely: bool, fd: int)
    requires Requestable(s) && Reading(s.slots, key) == |s.slots| && Spare(s.slots) < |s.slots|
    ensures var gs, j := All(s), Spare(s.slots);
            gs[j].None? && All(Request(s, maxHelp, c, key, timely, fd)) == gs[j := Some(Group(key, [c], {}))]
  {
  }

  /** A request keeps the invariant and blocks exactly the connection that asked. */
  lemma {:induction false} RequestInv(s: State, maxHelp: nat, c: nat, key: Key, timely: bool, fd: int)
    requires Inv(s, maxHelp) && maxHelp > 0 && Blocks(All(s), c) == 0
    requires |s.slots| == 0 ==> fd >= 0
    ensures Requestable(s)
    ensures var s' := Request(s, maxHelp, c, key, timely, fd);
            Inv(s', maxHelp) && Adds(All(s), All(s'), c)
  {
    hide Wants, Blocks, Sound, All, WayOf, WayFits, Placed;
    InvRequestable(s, maxHelp);
    RequestWay(s, maxHelp, c, key, timely, fd);
    KeyNowhere(s, maxHelp, key, timely, fd);
    PlacedAdds(All(s), WayOf(s, maxHelp, key, timely, fd), key, c);
    RequestFull(s, maxHelp, c, key, timely, fd);
  }

  /** A group of its own is formed only for a piece that nobody wants yet. */
  lemma {:induction false} KeyNowhere(s: State, maxHelp: nat, key: Key, timely: bool, fd: int)
    requires Inv(s, maxHelp)
    ensures WayOf(s, maxHelp, key, timely, fd).JoinAt? || Wants(All(s), key) == 0
  {
    hide Wants, Blocks, Sound;
    if !WayOf(s, maxHelp, key, timely, fd).JoinAt? {
      KeyAbsent(All(s), key);
    }
  }

  lemma {:induction false} PlacedAdds(gs: seq<Option<Group>>, way: Way, key: Key, c: nat)
    requires WayFits(gs, way, key) && Sound(gs) && Blocks(gs, c) == 0 && (way.JoinAt? || Wants(gs, key) == 0)
    ensures Adds(gs, Placed(gs, way, key, c), c)
  {
    hide Wants, Blocks, Sound, Adds;
    match way {
      case JoinAt(i) => JoinAdds(gs, i, c);
      case TakeAt(i) => SetAdds(gs, i, c, key);
      case InsertAt(i) => InsertAdds(gs, i, c, key);
    }
  }

  /** Nobody waits while a helper is free, and there are not too many helpers. */
  lemma {:induction false} RequestFull(s: State, maxHelp: nat, c: nat, key: Key, timely: bool, fd: int)
    requires Requestable(s) && (s.waiting != [] ==> Full(s) && s.slots != []) && |s.slots| <= maxHelp && maxHelp > 0
    requires |s.slots| == 0 ==> fd >= 0
    ensures var s' := Request(s, maxHelp, c, key, timely, fd);
            (s'.waiting != [] ==> Full(s') && s'.slots != []) && |s'.slots| <= maxHelp
  {
  }

  /** What Request needs of a state, which Inv gives. */
  ghost predicate Requestable(s: State) {
    && (forall i :: 0 <= i < |s.slots| && s.slots[i].group.Some? ==> s.slots[i].group.value.members != [])
    && (forall i :: 0 <= i < |s.waiting| ==> s.waiting[i].members != [])
  }

  lemma {:induction false} InvRequestable(s: State, maxHelp: nat)
    requires Inv(s, maxHelp)
    ensures Requestable(s)
  {
    var gs := All(s);
    forall i | 0 <= i < |s.waiting| ensures s.waiting[i].members != [] {
      assert gs[|s.slots| + i] == Some(s.waiting[i]);
    }
    forall i | 0 <= i < |s.slots| && s.slots[i].group.Some? ensures s.slots[i].group.value.members != [] {
      assert gs[i] == s.slots[i].group;
    }
  }

  // ------------------------------------------------------------------
  // What a request does, on the helpers and the line

  /** A request for the piece may join the group: its front asked for that piece
      and has not ended. */
  ghost predicate Joinable(g: Option<Group>, key: Key) {
    g.Some? && g.value.key == key && g.value.members != [] && g.value.members[0] !in g.value.ended
  }

  /** The group with one more connection, behind its front. */
  ghost predicate Joined(g: Group, c: nat, h: Group) {
    && g.members != [] && h.key == g.key
    && h.members == [g.members[0], c] + g.members[1..] && h.ended == g.ended - {c}
  }

  /** With a helper at work on the piece, the connection joins the first such. */
  lemma {:induction false} JoinsReader(s: State, maxHelp: nat, c: nat, key: Key, timely: bool, fd: int, i: nat)
    requires Requestable(s) && i < |s.slots| && Joinable(s.slots[i].group, key)
    requires forall j :: 0 <= j < i ==> !Joinable(s.slots[j].group, key)
    ensures var s', x := Request(s, maxHelp, c, key, timely, fd), s.slots[i];
            && s'.waiting == s.waiting && |s'.slots| == |s.slots| && s'.slots[i].fd == x.fd
            && s'.slots[i].group.Some? && Joined(x.group.value, c, s'.slots[i].group.value)
            && (forall j :: 0 <= j < |s.slots| && j != i ==> s'.slots[j] == s.slots[j])
  {
    assert Reading(s.slots, key) == i;
  }

  /** Otherwise an idle helper, the first of them, gets the connection as a group of its own. */
  lemma {:induction false} TakesIdle(s: State, maxHelp: nat, c: nat, key: Key, timely: bool, fd: int, i: nat)
    requires Requestable(s) && forall j :: 0 <= j < |s.slots| ==> !Joinable(s.slots[j].group, key)
    requires i < |s.slots| && s.slots[i].group.None? && forall j :: 0 <= j < i ==> s.slots[j].group.Some?
    ensures Request(s, maxHelp, c, key, timely, fd)
            == State(s.slots[i := Slot(s.slots[i].fd, Some(Group(key, [c], {})))], s.waiting)
  {
    assert Reading(s.slots, key) == |s.slots| && Spare(s.slots) == i;
  }

  /** Otherwise, with a group in line for the piece, the connection joins the first such. */
  lemma {:induction false} JoinsWaiting(s: State, maxHelp: nat, c: nat, key: Key, timely: bool, fd: int, k: nat)
    requires Requestable(s) && k < |s.waiting| && Joinable(Some(s.waiting[k]), key)
    requires forall j :: 0 <= j < |s.slots| ==> s.slots[j].group.Some? && !Joinable(s.slots[j].group, key)
    requires forall j :: 0 <= j < k ==> !Joinable(Some(s.waiting[j]), key)
    ensures var s' := Request(s, maxHelp, c, key, timely, fd);
            && s'.slots == s.slots && |s'.waiting| == |s.waiting| && Joined(s.waiting[k], c, s'.waiting[k])
            && (forall j :: 0 <= j < |s.waiting| && j != k ==> s'.waiting[j] == s.waiting[j])
  {
    assert Reading(s.slots, key) == |s.slots| == Spare(s.slots) && Queued(s.waiting, key) == k;
  }

  /** Otherwise a helper is started for it, if there is none yet, or there may be
      another and the moment is right, and the start succeeds; if not, it goes to
      the end of the line. */
  lemma {:induction false} StartsOrWaits(s: State, maxHelp: nat, c: nat, key: Key, timely: bool, fd: int)
    requires Requestable(s)
    requires forall j :: 0 <= j < |s.slots| ==> s.slots[j].group.Some? && !Joinable(s.slots[j].group, key)
    requires forall j :: 0 <= j < |s.waiting| ==> !Joinable(Some(s.waiting[j]), key)
    ensures var starts := (|s.slots| == 0 || (|s.slots| < maxHelp && timely)) && fd >= 0;
            Request(s, maxHelp, c, key, timely, fd)
            == if starts then State(s.slots + [Slot(fd, Some(Group(key, [c], {})))], s.waiting)
               else State(s.slots, s.waiting + [Group(key, [c], {})])
  {
    assert Reading(s.slots, key) == |s.slots| == Spare(s.slots) && Queued(s.waiting, key) == |s.waiting|;
  }

  /** The line gets longer only when every helper is at work, nobody reads the
      piece or waits for it, and there is no room for another helper, or the
      moment is not right, or it cannot be started. */
  lemma {:induction false} WaitsExactly(s: State, maxHelp: nat, c: nat, key: Key, timely: bool, fd: int)
    requires Requestable(s)
    ensures |Request(s, maxHelp, c, key, timely, fd).waiting| > |s.waiting|
            <==> && (forall j :: 0 <= j < |s.slots| ==> s.slots[j].group.Some? && !Joinable(s.slots[j].group, key))
                 && (forall j :: 0 <= j < |s.waiting| ==> !Joinable(Some(s.waiting[j]), key))
                 && ((|s.slots| > 0 && (|s.slots| >= maxHelp || !timely)) || fd < 0)
  {
    var i, j, k := Reading(s.slots, key), Spare(s.slots), Queued(s.waiting, key);
    if i < |s.slots| {
      assert Joinable(s.slots[i].group, key);
    } else if j < |s.slots| {
      assert s.slots[j].group.None?;
    } else if k < |s.waiting| {
      assert Joinable(Some(s.waiting[k]), key);
    } else {
      StartsOrWaits(s, maxHelp, c, key, timely, fd);
    }
  }

  /** What a completion does: the helper is free, and the group first in line, if
      there is one, leaves it for row j. */
  lemma {:induction false} CompleteExactly(s: State, i: nat, j: nat, k: nat)
    requires i < |s.slots| && k < |s.slots|
    ensures var s', x := Complete(s, i, j), s.slots[k];
            && |s'.slots| == |s.slots| && s'.waiting == (if s.waiting == [] then [] else s.waiting[1..])
            && s'.slots[k] == if k == j && s.waiting != [] then Slot(x.fd, Some(s.waiting[0]))
                              else if k == i then Slot(x.fd, None) else x
  {
  }

  // ------------------------------------------------------------------
  // Completions

  /** The list of groups after helper i took over the group first in line. */
  lemma {:induction false} CompleteCounts(s: State, i: nat, key: Key, c: nat)
    requires i < |s.slots| && s.slots[i].group.Some?
    ensures Wants(All(Complete(s, i, i)), key) == Wants(All(s), key) - WantsAt(s.slots[i].group, key)
    ensures Blocks(All(Complete(s, i, i)), c) == Blocks(All(s), c) - Occurs(Resumed(s, i), c)
  {
    var gs, n, s' := All(s), |s.slots|, Complete(s, i, i);
    if s.waiting == [] {
      assert All(s') == gs[i := None];
      CountsSet(gs, i, None, key, c);
    } else {
      var moved := gs[i := gs[n]];
      assert All(s') == RemoveAt(moved, n);
      CountsSet(gs, i, gs[n], key, c);
      CountsSplit(moved, n, key, c);
    }
  }

  /** A completion after which the group first in line, if there is one, goes to
      the helper that finished resumes its own group and nobody else, and
      everybody else stays blocked. */
  lemma {:induction false} CompleteInv(s: State, maxHelp: nat, i: nat, j: nat)
    requires Inv(s, maxHelp) && i < |s.slots| && s.slots[i].group.Some? && (s.waiting == [] || j == i)
    ensures Inv(Complete(s, i, j), maxHelp)
    ensures Conserves(s, i, Complete(s, i, j))
  {
    hide Wants, Blocks;
    var s' := Complete(s, i, i);
    assert Complete(s, i, j) == s';
    forall key ensures Wants(All(s'), key) <= 1 {
      CompleteCounts(s, i, key, 0);
      assert Wants(All(s), key) <= 1;
    }
    forall c ensures Conserved(s, i, s', c) {
      CompleteCounts(s, i, s.slots[i].group.value.key, c);
    }
    InvRequestable(s, maxHelp);
    forall c ensures Blocks(All(s'), c) <= 1 {
      assert Conserved(s, i, s', c) && Blocks(All(s), c) <= 1;
    }
  }

  /** After helper i finished, a connection is blocked unless it was resumed. */
  ghost predicate Conserved(s: State, i: nat, s': State, c: nat)
    requires i < |s.slots| && s.slots[i].group.Some?
  {
    Blocks(All(s'), c) == Blocks(All(s), c) - Occurs(Resumed(s, i), c)
  }

  ghost predicate Conserves(s: State, i: nat, s': State)
    requires i < |s.slots| && s.slots[i].group.Some?
  {
    forall c :: Conserved(s, i, s', c)
  }

  /** The group that is lost when the group first in line goes to row j: the one
      that row j works on, or, when there is no row j, the one that was to go. */
  function Lost(s: State, i: nat, j: nat): (g: Option<Group>) {
    if s.waiting == [] || j == i then None
    else if j < |s.slots| then s.slots[j].group
    else Some(s.waiting[0])
  }

  function LostMembers(s: State, i: nat, j: nat): (m: seq<nat>) {
    if Lost(s, i, j).Some? then Lost(s, i, j).value.members else []
  }

  /** Whatever the row: those resumed and those lost are no longer blocked. */
  lemma {:induction false} CompleteBlocks(s: State, i: nat, j: nat, c: nat)
    requires i < |s.slots| && s.slots[i].group.Some?
    ensures Blocks(All(Complete(s, i, j)), c)
            == Blocks(All(s), c) - Occurs(Resumed(s, i), c) - Occurs(LostMembers(s, i, j), c)
  {
    hide Wants, Blocks, Occurs;
    var gs, n, s', k := All(s), |s.slots|, Complete(s, i, j), Key(0, 0);
    OccursNone(c);
    if s.waiting == [] || j == i {
      assert s' == Complete(s, i, i);
      CompleteCounts(s, i, k, c);
    } else {
      var a := gs[i := None];
      var b := if j < n then a[j := gs[n]] else a;
      AllMisplaced(s, i, j);
      CountsSet(gs, i, None, k, c);
      if j < n {
        CountsSet(a, j, gs[n], k, c);
      }
      CountsSplit(b, n, k, c);
    }
  }

  lemma {:induction false} OccursNone(c: nat)
    ensures Occurs([], c) == 0
  {
  }

  lemma {:induction false} AllMisplaced(s: State, i: nat, j: nat)
    requires i < |s.slots| && s.waiting != [] && j != i
    ensures var gs, n := All(s), |s.slots|;
            var a := gs[i := None];
            All(Complete(s, i, j)) == RemoveAt(if j < n then a[j := gs[n]] else a, n)
  {
  }

  /** The source hands the group first in line to row j.  No connection is lost
      exactly when nothing is in line or j is the row that finished. */
  lemma {:induction false} NobodyLostExactly(s: State, maxHelp: nat, i: nat, j: nat)
    requires Inv(s, maxHelp) && i < |s.slots| && s.slots[i].group.Some?
    ensures Conserves(s, i, Complete(s, i, j)) <==> s.waiting == [] || j == i
  {
    hide Blocks, Occurs;
    if s.waiting == [] || j == i {
      CompleteInv(s, maxHelp, i, j);
    } else {
      InvRequestable(s, maxHelp);
      var c := LostMembers(s, i, j)[0];
      CompleteBlocks(s, i, j, c);
      OccursIn(LostMembers(s, i, j), c);
      assert !Conserved(s, i, Complete(s, i, j), c);
    }
  }

  /** An idle helper may leave at any time. */
  lemma {:induction false} LeaveInv(s: State, maxHelp: nat, i: nat)
    requires Inv(s, maxHelp) && i < |s.slots| && s.slots[i].group.None?
    ensures Inv(Leave(s, i), maxHelp)
    ensures forall c :: Blocks(All(Leave(s, i)), c) == Blocks(All(s), c)
  {
    var s', gs := Leave(s, i), All(s);
    assert s.waiting == [];
    assert All(s') == RemoveAt(gs, i);
    forall key ensures Wants(All(s'), key) <= 1 {
      CountsSplit(gs, i, key, 0);
      assert Wants(gs, key) <= 1;
    }
    forall c ensures Blocks(All(s'), c) == Blocks(gs, c) {
      CountsSplit(gs, i, Key(0, 0), c);
    }
    forall c ensures Blocks(All(s'), c) <= 1 {
      assert Blocks(gs, c) <= 1;
    }
  }

  // ------------------------------------------------------------------
  // Runs

  /** The connection has ended, if the group has it. */
  function EndGroup(g: Group, c: nat): (r: Group) {
    if c in g.members then g.(ended := g.ended + {c}) else g
  }

  function EndAt(g: Option<Group>, c: nat): (r: Option<Group>) {
    if g.Some? then Some(EndGroup(g.value, c)) else None
  }

  /** A timer has ended the connection: it loses its file, and stays linked. */
  function End(s: State, c: nat): (r: State)
    ensures |r.slots| == |s.slots| && |r.waiting| == |s.waiting|
    ensures forall i :: 0 <= i < |s.slots| ==> r.slots[i] == s.slots[i].(group := EndAt(s.slots[i].group, c))
    ensures forall i :: 0 <= i < |s.waiting| ==> r.waiting[i] == EndGroup(s.waiting[i], c)
  {
    State(seq(|s.slots|, i requires 0 <= i < |s.slots| => s.slots[i].(group := EndAt(s.slots[i].group, c))),
          seq(|s.waiting|, i requires 0 <= i < |s.waiting| => EndGroup(s.waiting[i], c)))
  }

  /** A connection asks for a piece; helper i finishes and the group first in line
      goes to row j; helper i's message was a stale idle alone, and its request is
      sent again; an idle helper leaves; a connection's timer ends it. */
  datatype Event =
    | Ask(c: nat, key: Key, timely: bool, fd: int)
    | Finish(i: nat, j: nat)
    | Again(i: nat)
    | Gone(i: nat)
    | Expire(c: nat)

  predicate Busy(s: State, i: nat) { i < |s.slots| && s.slots[i].group.Some? }

  /** The server uses the file of a connection that has ended, and has none: to
      resume it, or to send its request to a helper. */
  predicate Faults(s: State, e: Event) {
    match e
    case Finish(i, _) =>
      Busy(s, i) && (Spoiled(s.slots[i].group.value) || (s.waiting != [] && !Alive(s.waiting[0])))
    case Again(i) => Busy(s, i) && !Alive(s.slots[i].group.value)
    case _ => false
  }

  /** The request that the event writes: the row of the helper, and the piece. */
  function Written(s: State, maxHelp: nat, e: Event): (r: Option<(nat, Key)>) {
    match e
    case Ask(_, key, timely, fd) =>
      var way := WayOf(s, maxHelp, key, timely, fd);
      if way.TakeAt? || (way.InsertAt? && Forks(s, maxHelp, timely, fd)) then Some((way.at, key)) else None
    case Finish(_, j) => if s.waiting == [] then None else Some((j, s.waiting[0].key))
    case Again(i) => if Busy(s, i) then Some((i, s.slots[i].group.value.key)) else None
    case _ => None
  }

  /** None when the event cannot happen or ends in a fault.  A blocked connection
      asks for nothing, only a busy helper finishes, only an idle one leaves, and
      the server exits when it cannot have a first helper. */
  ghost function Step(s: State, maxHelp: nat, e: Event): (r: Option<State>) {
    match e
    case Ask(c, key, timely, fd) =>
      if Requestable(s) && Blocks(All(s), c) == 0 && (|s.slots| == 0 ==> fd >= 0) then
        Some(Request(s, maxHelp, c, key, timely, fd))
      else None
    case Finish(i, j) => if Busy(s, i) && !Faults(s, e) then Some(Complete(s, i, j)) else None
    case Again(i) => if Busy(s, i) && !Faults(s, e) then Some(s) else None
    case Gone(i) => if i < |s.slots| && s.slots[i].group.None? then Some(Leave(s, i)) else None
    case Expire(c) => Some(End(s, c))
  }

  ghost function Run(s: State, maxHelp: nat, es: seq<Event>): (r: Option<State>)
    decreases |es|
  {
    if es == [] then Some(s)
    else
      var s' := Step(s, maxHelp, es[0]);
      if s'.None? then None else Run(s'.value, maxHelp, es[1..])
  }

  /** How often the connection asked, was resumed, and was lost. */
  function Asked(es: seq<Event>, c: nat): (n: nat) {
    if es == [] then 0 else (if es[0].Ask? && es[0].c == c then 1 else 0) + Asked(es[1..], c)
  }

  function ResumedBy(s: State, e: Event): (m: seq<nat>) {
    if e.Finish? && e.i < |s.slots| && s.slots[e.i].group.Some? then Resumed(s, e.i) else []
  }

  function LostBy(s: State, e: Event): (m: seq<nat>) {
    if e.Finish? then LostMembers(s, e.i, e.j) else []
  }

  ghost function WasResumed(s: State, maxHelp: nat, es: seq<Event>, c: nat): (n: nat)
    decreases |es|
  {
    if es == [] || Step(s, maxHelp, es[0]).None? then 0
    else Occurs(ResumedBy(s, es[0]), c) + WasResumed(Step(s, maxHelp, es[0]).value, maxHelp, es[1..], c)
  }

  ghost function WasLost(s: State, maxHelp: nat, es: seq<Event>, c: nat): (n: nat)
    decreases |es|
  {
    if es == [] || Step(s, maxHelp, es[0]).None? then 0
    else Occurs(LostBy(s, es[0]), c) + WasLost(Step(s, maxHelp, es[0]).value, maxHelp, es[1..], c)
  }

  /** A request, in any state: the connection that asked is blocked once more. */
  lemma {:induction false} RequestBlocks(s: State, maxHelp: nat, c: nat, key: Key, timely: bool, fd: int, x: nat)
    requires Requestable(s)
    ensures Blocks(All(Request(s, maxHelp, c, key, timely, fd)), x) == Blocks(All(s), x) + if x == c then 1 else 0
  {
    hide Blocks, WayOf, WayFits, Placed, All;
    RequestWay(s, maxHelp, c, key, timely, fd);
    PlacedBlocks(All(s), WayOf(s, maxHelp, key, timely, fd), key, c, x);
  }

  lemma {:induction false} PlacedBlocks(gs: seq<Option<Group>>, way: Way, key: Key, c: nat, x: nat)
    requires WayFits(gs, way, key)
    ensures Blocks(Placed(gs, way, key, c), x) == Blocks(gs, x) + if x == c then 1 else 0
  {
    hide Blocks, Wants, Occurs;
    OccursOne(c, x);
    match way {
      case JoinAt(i) =>
        CountsSet(gs, i, Some(Join(gs[i].value, c)), key, x);
        JoinOccurs(gs[i].value, c, x);
      case TakeAt(i) => CountsSet(gs, i, Some(Group(key, [c], {})), key, x);
      case InsertAt(i) => CountsInsert(gs, i, Some(Group(key, [c], {})), key, x);
    }
  }

  lemma {:induction false} LeaveBlocks(s: State, i: nat, c: nat)
    requires i < |s.slots| && s.slots[i].group.None?
    ensures Blocks(All(Leave(s, i)), c) == Blocks(All(s), c)
  {
    hide Blocks, Wants;
    assert All(Leave(s, i)) == RemoveAt(All(s), i);
    CountsSplit(All(s), i, Key(0, 0), c);
  }

  /** Ending a connection leaves everybody blocked, and no group wants more. */
  lemma {:induction false} EndCounts(s: State, x: nat, key: Key, c: nat)
    ensures Blocks(All(End(s, x)), c) == Blocks(All(s), c)
    ensures Wants(All(End(s, x)), key) <= Wants(All(s), key)
  {
    hide Wants, Blocks;
    var gs, gs' := All(s), All(End(s, x));
    forall i | 0 <= i < |gs| ensures gs'[i] == EndAt(gs[i], x) {
      assert i >= |s.slots| ==> gs'[i] == Some(End(s, x).waiting[i - |s.slots|]);
    }
    EndedCounts(gs, gs', x, key, c);
  }

  lemma {:induction false} EndedCounts(gs: seq<Option<Group>>, gs': seq<Option<Group>>, x: nat, key: Key, c: nat)
    requires |gs'| == |gs| && forall i :: 0 <= i < |gs| ==> gs'[i] == EndAt(gs[i], x)
    ensures Blocks(gs', c) == Blocks(gs, c) && Wants(gs', key) <= Wants(gs, key)
  {
    if gs != [] {
      EndedCounts(gs[1..], gs'[1..], x, key, c);
    }
  }

  /** One event, in any state. */
  lemma {:induction false} StepBlocks(s: State, maxHelp: nat, e: Event, c: nat)
    requires Step(s, maxHelp, e).Some?
    ensures Blocks(All(Step(s, maxHelp, e).value), c)
            == Blocks(All(s), c) + (if e.Ask? && e.c == c then 1 else 0)
               - Occurs(ResumedBy(s, e), c) - Occurs(LostBy(s, e), c)
  {
    hide Blocks, Wants, Occurs, All;
    OccursNone(c);
    match e {
      case Ask(x, key, timely, fd) => RequestBlocks(s, maxHelp, x, key, timely, fd, c);
      case Finish(i, j) => CompleteBlocks(s, i, j, c);
      case Again(_) =>
      case Gone(i) => LeaveBlocks(s, i, c);
      case Expire(x) => EndCounts(s, x, Key(0, 0), c);
    }
  }

  /** In every run, wherever completions send the next group: a connection is
      blocked as often as it asked, less the times it was resumed or lost. */
  lemma {:induction false} RunBlocks(s: State, maxHelp: nat, es: seq<Event>, c: nat)
    requires Run(s, maxHelp, es).Some?
    ensures Blocks(All(Run(s, maxHelp, es).value), c)
            == Blocks(All(s), c) + Asked(es, c) - WasResumed(s, maxHelp, es, c) - WasLost(s, maxHelp, es, c)
    decreases |es|
  {
    hide Blocks, Occurs, All, Step, ResumedBy, LostBy;
    if es != [] {
      StepBlocks(s, maxHelp, es[0], c);
      RunBlocks(Step(s, maxHelp, es[0]).value, maxHelp, es[1..], c);
    }
  }

  /** The next group goes where it loses nobody. */
  predicate Lossless(s: State, e: Event) { e.Finish? ==> Lost(s, e.i, e.j).None? }

  /** The next group goes to the helper that finished. */
  predicate Direct(s: State, e: Event) { e.Finish? ==> s.waiting == [] || e.j == e.i }

  ghost predicate LosslessRun(s: State, maxHelp: nat, es: seq<Event>)
    decreases |es|
  {
    es == [] ||
    (Lossless(s, es[0]) && (Step(s, maxHelp, es[0]).Some? ==>
      LosslessRun(Step(s, maxHelp, es[0]).value, maxHelp, es[1..])))
  }

  ghost predicate DirectRun(s: State, maxHelp: nat, es: seq<Event>)
    decreases |es|
  {
    es == [] ||
    (Direct(s, es[0]) && (Step(s, maxHelp, es[0]).Some? ==> DirectRun(Step(s, maxHelp, es[0]).value, maxHelp, es[1..])))
  }

  lemma {:induction false} StepRequestable(s: State, maxHelp: nat, e: Event)
    requires Requestable(s) && Step(s, maxHelp, e).Some?
    ensures Requestable(Step(s, maxHelp, e).value)
  {
    hide Blocks, Reading, Spare, Queued, All, Faults;
    if e.Finish? {
      CompleteRequestable(s, e.i, e.j);
    }
  }

  lemma {:induction false} CompleteRequestable(s: State, i: nat, j: nat)
    requires Requestable(s) && i < |s.slots|
    ensures Requestable(Complete(s, i, j))
  {
  }

  lemma {:induction false} NobodyWasLost(s: State, maxHelp: nat, es: seq<Event>, c: nat)
    requires LosslessRun(s, maxHelp, es)
    ensures WasLost(s, maxHelp, es, c) == 0
    decreases |es|
  {
    hide Step, Occurs;
    OccursNone(c);
    if es != [] && Step(s, maxHelp, es[0]).Some? {
      NobodyWasLost(Step(s, maxHelp, es[0]).value, maxHelp, es[1..], c);
    }
  }

  lemma {:induction false} SomebodyWasLost(s: State, maxHelp: nat, es: seq<Event>) returns (c: nat)
    requires Requestable(s) && Run(s, maxHelp, es).Some? && !LosslessRun(s, maxHelp, es)
    ensures WasLost(s, maxHelp, es, c) > 0
    decreases |es|
  {
    hide Step, Occurs;
    if Lossless(s, es[0]) {
      StepRequestable(s, maxHelp, es[0]);
      c := SomebodyWasLost(Step(s, maxHelp, es[0]).value, maxHelp, es[1..]);
    } else {
      c := LostBy(s, es[0])[0];
      OccursIn(LostBy(s, es[0]), c);
    }
  }

  /** A connection is blocked as often as it asked, less the times it was resumed. */
  ghost predicate Accounted(s: State, maxHelp: nat, es: seq<Event>, c: nat)
    requires Run(s, maxHelp, es).Some?
  {
    Blocks(All(Run(s, maxHelp, es).value), c) == Blocks(All(s), c) + Asked(es, c) - WasResumed(s, maxHelp, es, c)
  }

  /** Every run of the code accounts for every connection exactly when no
      completion sends the next group where somebody is lost. */
  lemma {:induction false} AccountsExactly(s: State, maxHelp: nat, es: seq<Event>)
    requires Requestable(s) && Run(s, maxHelp, es).Some?
    ensures (forall c :: Accounted(s, maxHelp, es, c)) <==> LosslessRun(s, maxHelp, es)
  {
    hide Blocks, Run, LosslessRun;
    if LosslessRun(s, maxHelp, es) {
      forall c ensures Accounted(s, maxHelp, es, c) {
        RunBlocks(s, maxHelp, es, c);
        NobodyWasLost(s, maxHelp, es, c);
      }
    } else {
      var c := SomebodyWasLost(s, maxHelp, es);
      RunBlocks(s, maxHelp, es, c);
      assert !Accounted(s, maxHelp, es, c);
    }
  }

  lemma {:induction false} EndInv(s: State, maxHelp: nat, c: nat)
    requires Inv(s, maxHelp)
    ensures Inv(End(s, c), maxHelp)
  {
    hide Wants, Blocks;
    var gs, gs' := All(s), All(End(s, c));
    forall key ensures Wants(gs', key) <= 1 {
      EndCounts(s, c, key, 0);
      assert Wants(gs, key) <= 1;
    }
    forall x ensures Blocks(gs', x) <= 1 {
      EndCounts(s, c, Key(0, 0), x);
      assert Blocks(gs, x) <= 1;
    }
    InvRequestable(s, maxHelp);
  }

  lemma {:induction false} StepInv(s: State, maxHelp: nat, e: Event)
    requires Inv(s, maxHelp) && maxHelp > 0 && Step(s, maxHelp, e).Some? && Direct(s, e)
    ensures Inv(Step(s, maxHelp, e).value, maxHelp)
  {
    hide Blocks, Wants, Occurs, All, Sound;
    match e {
      case Ask(c, key, timely, fd) => RequestInv(s, maxHelp, c, key, timely, fd);
      case Finish(i, j) => CompleteInv(s, maxHelp, i, j);
      case Again(_) =>
      case Gone(i) => LeaveInv(s, maxHelp, i);
      case Expire(c) => EndInv(s, maxHelp, c);
    }
  }

  /** From a state in order, the runs that lose nobody are those in which every
      completion sends the next group to the helper that finished. */
  lemma {:induction false} LosslessIsDirect(s: State, maxHelp: nat, es: seq<Event>)
    requires Inv(s, maxHelp) && maxHelp > 0 && Run(s, maxHelp, es).Some?
    ensures LosslessRun(s, maxHelp, es) <==> DirectRun(s, maxHelp, es)
    decreases |es|
  {
    hide Step, Sound, All;
    if es != [] {
      FinishBusy(s, maxHelp, es[0]);
      if Direct(s, es[0]) {
        StepInv(s, maxHelp, es[0]);
        LosslessIsDirect(Step(s, maxHelp, es[0]).value, maxHelp, es[1..]);
      }
    }
  }

  /** While a group waits, every row has one to lose. */
  lemma {:induction false} FinishBusy(s: State, maxHelp: nat, e: Event)
    requires Inv(s, maxHelp) && Step(s, maxHelp, e).Some?
    ensures Lossless(s, e) <==> Direct(s, e)
  {
  }

  /** In every run in which completions send the next group to the helper that
      finished, the invariant holds, and a connection has been resumed once for
      each time it asked, save the last time while it is still blocked. */
  lemma {:induction false} RunHolds(s: State, maxHelp: nat, es: seq<Event>, c: nat)
    requires Inv(s, maxHelp) && maxHelp > 0 && Run(s, maxHelp, es).Some? && DirectRun(s, maxHelp, es)
    ensures Inv(Run(s, maxHelp, es).value, maxHelp)
    ensures Accounted(s, maxHelp, es, c)
  {
    hide Inv, Run, LosslessRun, DirectRun, Blocks;
    RunInv(s, maxHelp, es);
    LosslessIsDirect(s, maxHelp, es);
    RunBlocks(s, maxHelp, es, c);
    NobodyWasLost(s, maxHelp, es, c);
  }

  lemma {:induction false} RunInv(s: State, maxHelp: nat, es: seq<Event>)
    requires Inv(s, maxHelp) && maxHelp > 0 && Run(s, maxHelp, es).Some? && DirectRun(s, maxHelp, es)
    ensures Inv(Run(s, maxHelp, es).value, maxHelp)
    decreases |es|
  {
    hide Inv, Step;
    if es != [] {
      StepInv(s, maxHelp, es[0]);
      RunInv(Step(s, maxHelp, es[0]).value, maxHelp, es[1..]);
    }
  }

  /** From the start: resumed as often as asked, less one while blocked. */
  lemma {:induction false} ResumedOncePerRequest(maxHelp: nat, fds: seq<int>, es: seq<Event>, c: nat)
    requires |fds| <= maxHelp && maxHelp > 0
    requires Run(Fresh(fds), maxHelp, es).Some? && DirectRun(Fresh(fds), maxHelp, es)
    ensures var s := Run(Fresh(fds), maxHelp, es).value;
            && Inv(s, maxHelp)
            && Asked(es, c) - WasResumed(Fresh(fds), maxHelp, es, c) == Blocks(All(s), c) <= 1
  {
    FreshInv(fds, maxHelp);
    RunHolds(Fresh(fds), maxHelp, es, c);
  }

  /** Helpers started beforehand, all idle. */
  function Fresh(fds: seq<int>): (s: State) {
    State(seq(|fds|, i requires 0 <= i < |fds| => Slot(fds[i], None)), [])
  }

  lemma {:induction false} FreshInv(fds: seq<int>, maxHelp: nat)
    requires |fds| <= maxHelp
    ensures Inv(Fresh(fds), maxHelp) && forall c :: Blocks(All(Fresh(fds)), c) == 0
  {
    var gs := All(Fresh(fds));
    forall key ensures Wants(gs, key) == 0 {
      KeyAbsent(gs, key);
    }
    forall c ensures Blocks(gs, c) == 0 {
      NoneBlocked(gs, c);
    }
  }

  lemma {:induction false} NoneBlocked(gs: seq<Option<Group>>, c: nat)
    requires forall i :: 0 <= i < |gs| ==> gs[i].None?
    ensures Blocks(gs, c) == 0
  {
    if gs != [] {
      NoneBlocked(gs[1..], c);
    }
  }

  /** Over runs: a request that was put at the end of the line found every helper
      at work and maxHelp of them, or no right moment for another, or a failed start. */
  lemma {:induction false} LineOnlyWhenBusy(maxHelp: nat, fds: seq<int>, es: seq<Event>, e: Event)
    requires Run(Fresh(fds), maxHelp, es).Some? && e.Ask?
    requires Step(Run(Fresh(fds), maxHelp, es).value, maxHelp, e).Some?
    ensures var s := Run(Fresh(fds), maxHelp, es).value;
            var s' := Step(s, maxHelp, e).value;
            |s'.waiting| > |s.waiting| ==>
              && s.slots != [] && (forall j :: 0 <= j < |s.slots| ==> s.slots[j].group.Some?)
              && (|s.slots| >= maxHelp || !e.timely || e.fd < 0)
  {
    hide Run, Request;
    var s := Run(Fresh(fds), maxHelp, es).value;
    WaitsExactly(s, maxHelp, e.c, e.key, e.timely, e.fd);
  }

  // ------------------------------------------------------------------
  // Connections stand in groups for the piece they asked for

  /** The piece the connection asked for last, in es or before. */
  function Wanted(w: Option<Key>, es: seq<Event>, c: nat): (k: Option<Key>)
    decreases |es|
  {
    if es == [] then w else Wanted(if es[0].Ask? && es[0].c == c then Some(es[0].key) else w, es[1..], c)
  }

  /** Every group the connection stands in is for piece w. */
  ghost predicate Own(gs: seq<Option<Group>>, c: nat, w: Option<Key>) {
    forall i :: 0 <= i < |gs| && gs[i].Some? && c in gs[i].value.members ==> w == Some(gs[i].value.key)
  }

  lemma {:induction false} JoinMembers(g: Group, x: nat, c: nat)
    requires g.members != []
    ensures c in Join(g, x).members <==> c == x || c in g.members
  {
    assert g.members == [g.members[0]] + g.members[1..];
  }

  /** One group of the list grows by x or is new with x alone. */
  lemma {:induction false} OwnAdds(gs: seq<Option<Group>>, i: nat, g: Group, x: nat, c: nat, w: Option<Key>)
    requires i < |gs| && Own(gs, c, w) && (c == x ==> w == Some(g.key))
    requires gs[i].None? || gs[i].value.key == g.key
    requires c in g.members ==> c == x || (gs[i].Some? && c in gs[i].value.members)
    ensures Own(gs[i := Some(g)], c, w)
  {
  }

  lemma {:induction false} OwnInserts(gs: seq<Option<Group>>, i: nat, g: Group, c: nat, w: Option<Key>)
    requires i <= |gs| && Own(gs, c, w) && (c in g.members ==> w == Some(g.key))
    ensures Own(gs[..i] + ([Some(g)] + gs[i..]), c, w)
  {
    var gs' := gs[..i] + ([Some(g)] + gs[i..]);
    forall j | 0 <= j < |gs'| && gs'[j].Some? && c in gs'[j].value.members ensures w == Some(gs'[j].value.key) {
      assert gs'[j] == if j < i then gs[j] else if j == i then Some(g) else gs[j - 1];
    }
  }

  /** A connection that is not blocked stands in no group. */
  lemma {:induction false} OwnFree(gs: seq<Option<Group>>, c: nat, w: Option<Key>)
    requires Blocks(gs, c) == 0
    ensures Own(gs, c, w)
  {
    forall i | 0 <= i < |gs| && gs[i].Some? ensures c !in gs[i].value.members {
      if c in gs[i].value.members {
        MemberBlocks(gs, i, c);
      }
    }
  }

  lemma {:induction false} RequestOwn(s: State, maxHelp: nat, x: nat, key: Key, timely: bool, fd: int, c: nat,
                                      w: Option<Key>)
    requires Requestable(s) && Own(All(s), c, w) && (c == x ==> w == Some(key))
    ensures Own(All(Request(s, maxHelp, x, key, timely, fd)), c, w)
  {
    hide Own, WayOf, WayFits, Placed, All;
    RequestWay(s, maxHelp, x, key, timely, fd);
    PlacedOwn(All(s), WayOf(s, maxHelp, key, timely, fd), key, x, c, w);
  }

  lemma {:induction false} PlacedOwn(gs: seq<Option<Group>>, way: Way, key: Key, x: nat, c: nat, w: Option<Key>)
    requires WayFits(gs, way, key) && Own(gs, c, w) && (c == x ==> w == Some(key))
    ensures Own(Placed(gs, way, key, x), c, w)
  {
    hide Own;
    match way {
      case JoinAt(i) =>
        JoinMembers(gs[i].value, x, c);
        OwnAdds(gs, i, Join(gs[i].value, x), x, c, w);
      case TakeAt(i) => OwnAdds(gs, i, Group(key, [x], {}), x, c, w);
      case InsertAt(i) => OwnInserts(gs, i, Group(key, [x], {}), c, w);
    }
  }

  /** Groups that were there before are all that is left. */
  lemma {:induction false} OwnSub(gs: seq<Option<Group>>, gs': seq<Option<Group>>, c: nat, w: Option<Key>)
    requires Own(gs, c, w) && forall i :: 0 <= i < |gs'| && gs'[i].Some? ==> gs'[i] in gs
    ensures Own(gs', c, w)
  {
  }

  lemma {:induction false} StepOwn(s: State, maxHelp: nat, e: Event, c: nat, w: Option<Key>)
    requires Step(s, maxHelp, e).Some? && Own(All(s), c, w)
    ensures Own(All(Step(s, maxHelp, e).value), c, if e.Ask? && e.c == c then Some(e.key) else w)
  {
    hide Own, Blocks;
    var s' := Step(s, maxHelp, e).value;
    match e {
      case Ask(x, key, timely, fd) =>
        if x == c {
          OwnFree(All(s), c, Some(key));
        }
        RequestOwn(s, maxHelp, x, key, timely, fd, c, if x == c then Some(key) else w);
      case Finish(i, j) =>
        CompleteSub(s, i, j);
        OwnSub(All(s), All(s'), c, w);
      case Gone(i) =>
        assert All(s') == RemoveAt(All(s), i);
        OwnSub(All(s), All(s'), c, w);
      case Again(_) =>
      case Expire(x) => EndOwn(s, x, c, w);
    }
  }

  lemma {:induction false} EndOwn(s: State, x: nat, c: nat, w: Option<Key>)
    requires Own(All(s), c, w)
    ensures Own(All(End(s, x)), c, w)
  {
    var gs, gs' := All(s), All(End(s, x));
    forall i | 0 <= i < |gs| ensures gs'[i] == EndAt(gs[i], x) {
      assert i >= |s.slots| ==> gs'[i] == Some(End(s, x).waiting[i - |s.slots|]);
    }
  }

  lemma {:induction false} CompleteSub(s: State, i: nat, j: nat)
    requires i < |s.slots|
    ensures var gs' := All(Complete(s, i, j)); forall k :: 0 <= k < |gs'| && gs'[k].Some? ==> gs'[k] in All(s)
  {
    var gs, gs', n := All(s), All(Complete(s, i, j)), |s.slots|;
    forall k | 0 <= k < |gs'| && gs'[k].Some? ensures gs'[k] in gs {
      assert gs'[k] == gs[if k < n then (if k == j && s.waiting != [] then n else k) else k + 1];
    }
  }

  lemma {:induction false} RunOwn(s: State, maxHelp: nat, es: seq<Event>, c: nat, w: Option<Key>)
    requires Run(s, maxHelp, es).Some? && Own(All(s), c, w)
    ensures Own(All(Run(s, maxHelp, es).value), c, Wanted(w, es, c))
    decreases |es|
  {
    hide Own, Step, All;
    if es != [] {
      var w' := if es[0].Ask? && es[0].c == c then Some(es[0].key) else w;
      StepOwn(s, maxHelp, es[0], c, w);
      RunOwn(Step(s, maxHelp, es[0]).value, maxHelp, es[1..], c, w');
    }
  }

  /** In every run from the start, wherever completions send groups, a completion
      resumes a connection only for the piece that it asked for last. */
  lemma {:induction false} ResumedForOwnPiece(maxHelp: nat, fds: seq<int>, es: seq<Event>, i: nat, c: nat)
    requires Run(Fresh(fds), maxHelp, es).Some?
    requires var s := Run(Fresh(fds), maxHelp, es).value;
             i < |s.slots| && s.slots[i].group.Some? && c in Resumed(s, i)
    ensures Wanted(None, es, c) == Some(Run(Fresh(fds), maxHelp, es).value.slots[i].group.value.key)
  {
    var s := Run(Fresh(fds), maxHelp, es).value;
    assert Own(All(Fresh(fds)), c, None);
    RunOwn(Fresh(fds), maxHelp, es, c, None);
    assert All(s)[i] == s.slots[i].group;
  }

  /** The same of any two members of a group, at a helper or in line. */
  lemma {:induction false} GroupWantsOne(maxHelp: nat, fds: seq<int>, es: seq<Event>, i: nat, c: nat, d: nat)
    requires Run(Fresh(fds), maxHelp, es).Some?
    requires var gs := All(Run(Fresh(fds), maxHelp, es).value);
             i < |gs| && gs[i].Some? && c in gs[i].value.members && d in gs[i].value.members
    ensures Wanted(None, es, c) == Wanted(None, es, d) != None
  {
    assert Own(All(Fresh(fds)), c, None) && Own(All(Fresh(fds)), d, None);
    RunOwn(Fresh(fds), maxHelp, es, c, None);
    RunOwn(Fresh(fds), maxHelp, es, d, None);
  }

  // ------------------------------------------------------------------
  // Connections that have ended

  /** No connection that has ended is blocked. */
  ghost predicate Clean(s: State) {
    forall i :: 0 <= i < |All(s)| && All(s)[i].Some? ==> !Spoiled(All(s)[i].value)
  }

  /** Timers end only connections that are not blocked. */
  predicate Patient(gs: seq<Option<Group>>, e: Event) { e.Expire? ==> Blocks(gs, e.c) == 0 }

  ghost predicate PatientRun(s: State, maxHelp: nat, es: seq<Event>)
    decreases |es|
  {
    es == [] ||
    (&& Patient(All(s), es[0])
     && (Step(s, maxHelp, es[0]).Some? ==> PatientRun(Step(s, maxHelp, es[0]).value, maxHelp, es[1..])))
  }

  /** The run comes to an event at which the server faults. */
  ghost predicate Crashes(s: State, maxHelp: nat, es: seq<Event>)
    decreases |es|
  {
    && es != []
    && (|| Faults(s, es[0])
        || (Step(s, maxHelp, es[0]).Some? && Crashes(Step(s, maxHelp, es[0]).value, maxHelp, es[1..])))
  }

  /** No run from here crashes in which timers spare blocked connections. */
  ghost predicate Safe(s: State, maxHelp: nat) {
    forall es :: PatientRun(s, maxHelp, es) ==> !Crashes(s, maxHelp, es)
  }

  /** The group at place i of the list has an ended connection. */
  ghost predicate SpoiledAt(gs: seq<Option<Group>>, i: nat) {
    i < |gs| && gs[i].Some? && Spoiled(gs[i].value)
  }

  lemma {:induction false} JoinSpoiled(g: Group, c: nat)
    requires g.members != [] && c !in g.members
    ensures Spoiled(Join(g, c)) <==> Spoiled(g)
  {
    forall x ensures x in Join(g, c).members <==> x == c || x in g.members {
      JoinMembers(g, c, x);
    }
  }

  lemma {:induction false} NotMember(gs: seq<Option<Group>>, i: nat, c: nat)
    requires Blocks(gs, c) == 0 && i < |gs| && gs[i].Some?
    ensures c !in gs[i].value.members
  {
    if c in gs[i].value.members {
      MemberBlocks(gs, i, c);
    }
  }

  /** A new request spoils no group and mends none. */
  lemma {:induction false} PlacedSpoiled(gs: seq<Option<Group>>, way: Way, key: Key, c: nat)
    requires WayFits(gs, way, key) && Blocks(gs, c) == 0
    ensures (exists i :: SpoiledAt(Placed(gs, way, key, c), i)) <==> exists i :: SpoiledAt(gs, i)
  {
    hide Blocks, Spoiled, Join;
    var gs', at := Placed(gs, way, key, c), way.at;
    assert !Spoiled(Group(key, [c], {})) by { NewClean(key, c); }
    if way.JoinAt? {
      NotMember(gs, at, c);
      JoinSpoiled(gs[at].value, c);
    }
    if i :| SpoiledAt(gs', i) {
      assert SpoiledAt(gs, if way.InsertAt? && i > at then i - 1 else i);
    }
    if i :| SpoiledAt(gs, i) {
      assert SpoiledAt(gs', if way.InsertAt? && i >= at then i + 1 else i);
    }
  }

  lemma {:induction false} NewClean(key: Key, c: nat)
    ensures !Spoiled(Group(key, [c], {}))
  {
  }

  lemma {:induction false} CleanMeans(s: State)
    ensures Clean(s) <==> !exists i :: SpoiledAt(All(s), i)
  {
    if !Clean(s) {
      var i :| 0 <= i < |All(s)| && All(s)[i].Some? && Spoiled(All(s)[i].value);
      assert SpoiledAt(All(s), i);
    }
  }

  lemma {:induction false} RequestClean(s: State, maxHelp: nat, c: nat, key: Key, timely: bool, fd: int)
    requires Requestable(s) && Blocks(All(s), c) == 0
    ensures Clean(Request(s, maxHelp, c, key, timely, fd)) <==> Clean(s)
  {
    hide Blocks, WayOf, WayFits, Placed, All, SpoiledAt, Clean;
    var s' := Request(s, maxHelp, c, key, timely, fd);
    RequestWay(s, maxHelp, c, key, timely, fd);
    PlacedSpoiled(All(s), WayOf(s, maxHelp, key, timely, fd), key, c);
    CleanMeans(s);
    CleanMeans(s');
  }

  /** Ending a connection leaves a clean state exactly when it is not blocked. */
  lemma {:induction false} EndClean(s: State, c: nat)
    ensures Clean(End(s, c)) <==> Clean(s) && Blocks(All(s), c) == 0
  {
    hide Blocks;
    var gs, gs' := All(s), All(End(s, c));
    forall i | 0 <= i < |gs| ensures gs'[i] == EndAt(gs[i], c) {
      assert i >= |s.slots| ==> gs'[i] == Some(End(s, c).waiting[i - |s.slots|]);
    }
    if Blocks(gs, c) > 0 {
      var i := WhereBlocked(gs, c);
      assert Spoiled(gs'[i].value);
    } else {
      forall i | 0 <= i < |gs| && gs[i].Some? ensures gs'[i] == gs[i] {
        NotMember(gs, i, c);
      }
    }
    if !Clean(s) {
      var i :| 0 <= i < |gs| && gs[i].Some? && Spoiled(gs[i].value);
      assert Spoiled(gs'[i].value);
    }
  }

  lemma {:induction false} WhereBlocked(gs: seq<Option<Group>>, c: nat) returns (i: nat)
    requires Blocks(gs, c) > 0
    ensures i < |gs| && gs[i].Some? && c in gs[i].value.members
  {
    if BlocksAt(gs[0], c) > 0 {
      OccursIn(gs[0].value.members, c);
      return 0;
    }
    i := WhereBlocked(gs[1..], c);
    i := i + 1;
  }

  /** Helpers that leave or finish without a fault take no ended connection away,
      unless a group is lost, and spoil no group. */
  lemma {:induction false} FinishClean(s: State, i: nat, j: nat)
    requires Busy(s, i) && !Faults(s, Finish(i, j))
    ensures Clean(s) ==> Clean(Complete(s, i, j))
    ensures Clean(Complete(s, i, j)) && (s.waiting == [] || j == i) ==> Clean(s)
  {
    hide Spoiled;
    var gs, gs', n := All(s), All(Complete(s, i, j)), |s.slots|;
    CompleteSub(s, i, j);
    if s.waiting == [] || j == i {
      forall k | 0 <= k < |gs| && k != i && gs[k].Some? ensures gs[k] in gs' {
        assert gs[k] == gs'[if k < n then k else if k == n then i else k - 1];
      }
    }
  }

  lemma {:induction false} LeaveClean(s: State, i: nat)
    requires i < |s.slots| && s.slots[i].group.None?
    ensures Clean(Leave(s, i)) <==> Clean(s)
  {
    hide Spoiled;
    var gs, gs' := All(s), All(Leave(s, i));
    assert gs' == RemoveAt(gs, i);
    forall k | 0 <= k < |gs| && gs[k].Some? ensures gs[k] == gs'[if k < i then k else k - 1] {}
  }

  /** What an event does to a clean state, and to one that is not. */
  lemma {:induction false} StepClean(s: State, maxHelp: nat, e: Event)
    requires Step(s, maxHelp, e).Some?
    ensures Clean(s) && Patient(All(s), e) ==> Clean(Step(s, maxHelp, e).value)
    ensures Clean(Step(s, maxHelp, e).value) && Direct(s, e) ==> Clean(s) && Patient(All(s), e)
  {
    hide Blocks, Clean, Faults, All, Request, Complete, Leave, End;
    match e {
      case Ask(c, key, timely, fd) => RequestClean(s, maxHelp, c, key, timely, fd);
      case Finish(i, j) => FinishClean(s, i, j);
      case Again(_) =>
      case Gone(i) => LeaveClean(s, i);
      case Expire(c) => EndClean(s, c);
    }
  }

  /** In a clean state nothing faults. */
  lemma {:induction false} CleanFine(s: State, e: Event)
    requires Clean(s)
    ensures !Faults(s, e)
  {
    if (e.Finish? || e.Again?) && Busy(s, e.i) {
      var g := s.slots[e.i].group.value;
      assert All(s)[e.i] == Some(g) && !Spoiled(g);
      assert g.members != [] ==> g.members[0] in g.members;
    }
    if s.waiting != [] {
      var w := s.waiting[0];
      assert All(s)[|s.slots|] == Some(w) && !Spoiled(w);
      assert w.members != [] ==> w.members[0] in w.members;
    }
  }

  lemma {:induction false} CleanRun(s: State, maxHelp: nat, es: seq<Event>)
    requires Clean(s) && PatientRun(s, maxHelp, es)
    ensures !Crashes(s, maxHelp, es)
    ensures Run(s, maxHelp, es).Some? ==> Clean(Run(s, maxHelp, es).value)
    decreases |es|
  {
    hide Clean, Step, Faults, All, Patient;
    if es != [] {
      CleanFine(s, es[0]);
      if Step(s, maxHelp, es[0]).Some? {
        StepClean(s, maxHelp, es[0]);
        CleanRun(Step(s, maxHelp, es[0]).value, maxHelp, es[1..]);
      }
    }
  }

  /** So many completions of the first helper, each followed by the group first in line. */
  function Finishes(n: nat): (es: seq<Event>) { seq(n, _ => Finish(0, 0)) }

  /** Completions reach an ended connection: one if a helper serves its group, and
      at most k + 2 if the group stands at place k of the line. */
  lemma {:induction false} LineCrashes(s: State, maxHelp: nat, k: nat)
    requires Inv(s, maxHelp) && k < |s.waiting| && Spoiled(s.waiting[k])
    ensures Crashes(s, maxHelp, Finishes(k + 2))
    decreases k
  {
    hide Sound, Spoiled, All;
    var es := Finishes(k + 2);
    assert es[0] == Finish(0, 0) && es[1..] == Finishes(k + 1);
    assert Busy(s, 0);
    if !Faults(s, es[0]) {
      var s' := Complete(s, 0, 0);
      assert Step(s, maxHelp, es[0]) == Some(s');
      CompleteInv(s, maxHelp, 0, 0);
      if k == 0 {
        assert Busy(s', 0) && Spoiled(s'.slots[0].group.value);
        assert Finishes(1)[0] == Finish(0, 0);
        assert Crashes(s', maxHelp, Finishes(1));
      } else {
        assert s'.waiting[k - 1] == s.waiting[k];
        LineCrashes(s', maxHelp, k - 1);
      }
    }
  }

  lemma {:induction false} FinishesPatient(s: State, maxHelp: nat, es: seq<Event>)
    requires forall k :: 0 <= k < |es| ==> es[k].Finish?
    ensures PatientRun(s, maxHelp, es)
    decreases |es|
  {
    hide Step, All;
    if es != [] && Step(s, maxHelp, es[0]).Some? {
      FinishesPatient(Step(s, maxHelp, es[0]).value, maxHelp, es[1..]);
    }
  }

  /** From a state in order, no patient future crashes exactly when no connection
      that has ended is blocked. */
  lemma {:induction false} SafeExactly(s: State, maxHelp: nat)
    requires Inv(s, maxHelp)
    ensures Safe(s, maxHelp) <==> Clean(s)
  {
    hide Inv, Crashes, PatientRun, Faults, Spoiled;
    if Clean(s) {
      forall es | PatientRun(s, maxHelp, es) ensures !Crashes(s, maxHelp, es) {
        CleanRun(s, maxHelp, es);
      }
    } else {
      var i :| 0 <= i < |All(s)| && All(s)[i].Some? && Spoiled(All(s)[i].value);
      if i < |s.slots| {
        HelperCrashes(s, maxHelp, i);
        FinishesPatient(s, maxHelp, [Finish(i, i)]);
      } else {
        LineCrashes(s, maxHelp, i - |s.slots|);
        FinishesPatient(s, maxHelp, Finishes(i - |s.slots| + 2));
      }
    }
  }

  lemma {:induction false} HelperCrashes(s: State, maxHelp: nat, i: nat)
    requires Busy(s, i) && Spoiled(s.slots[i].group.value)
    ensures Crashes(s, maxHelp, [Finish(i, i)])
  {
  }

  /** Ending a connection leaves every patient future without a crash exactly
      when the connection is not blocked. */
  lemma {:induction false} EndExactly(s: State, maxHelp: nat, c: nat)
    requires Inv(s, maxHelp) && Safe(s, maxHelp)
    ensures Safe(End(s, c), maxHelp) <==> Blocks(All(s), c) == 0
  {
    hide Inv, Safe, Clean, Blocks, End, All;
    EndInv(s, maxHelp, c);
    SafeExactly(s, maxHelp);
    SafeExactly(End(s, c), maxHelp);
    EndClean(s, c);
  }

  lemma {:induction false} CleanExactly(s: State, maxHelp: nat, es: seq<Event>)
    requires Run(s, maxHelp, es).Some? && DirectRun(s, maxHelp, es)
    ensures Clean(Run(s, maxHelp, es).value) <==> Clean(s) && PatientRun(s, maxHelp, es)
    decreases |es|
  {
    hide Clean, Step, All, Patient, Direct;
    if es != [] {
      StepClean(s, maxHelp, es[0]);
      CleanExactly(Step(s, maxHelp, es[0]).value, maxHelp, es[1..]);
    }
  }

  /** Over whole runs from the start that lose nobody: what lies ahead is without
      a crash exactly when every timer so far ended a connection that was not blocked. */
  lemma {:induction false} PatientExactly(maxHelp: nat, fds: seq<int>, es: seq<Event>)
    requires |fds| <= maxHelp && maxHelp > 0
    requires Run(Fresh(fds), maxHelp, es).Some? && DirectRun(Fresh(fds), maxHelp, es)
    ensures Safe(Run(Fresh(fds), maxHelp, es).value, maxHelp) <==> PatientRun(Fresh(fds), maxHelp, es)
  {
    hide Inv, Safe, Run, DirectRun, PatientRun;
    FreshInv(fds, maxHelp);
    RunInv(Fresh(fds), maxHelp, es);
    SafeExactly(Run(Fresh(fds), maxHelp, es).value, maxHelp);
    CleanExactly(Fresh(fds), maxHelp, es);
  }

  /** As long as no ended connection is blocked, all groups want different pieces. */
  lemma {:induction false} PiecesDiffer(s: State, maxHelp: nat, i: nat, j: nat)
    requires Inv(s, maxHelp) && Clean(s) && i < j < |All(s)| && All(s)[i].Some? && All(s)[j].Some?
    ensures All(s)[i].value.key != All(s)[j].value.key
  {
    hide Wants;
    var gs := All(s);
    var g, h, rest := gs[i].value, gs[j].value, RemoveAt(gs, j);
    assert Alive(g) && Alive(h) by {
      assert g.members[0] in g.members && h.members[0] in h.members;
    }
    CountsSplit(gs, j, g.key, 0);
    CountsSplit(rest, i, g.key, 0);
    assert rest[i] == gs[i] && Wants(gs, g.key) <= 1;
  }

  lemma {:induction false} NoneIn(gs: seq<Option<Group>>, c: nat)
    requires forall i :: 0 <= i < |gs| && gs[i].Some? ==> c !in gs[i].value.members
    ensures Blocks(gs, c) == 0
  {
    if gs != [] {
      NoneIn(gs[1..], c);
      if gs[0].Some? {
        OccursIn(gs[0].value.members, c);
      }
    }
  }

  lemma {:induction false} EndAlone(key: Key, c: nat)
    ensures EndGroup(Group(key, [c], {}), c) == Group(key, [c], {c})
  {
    var none: set<nat> := {};
    assert none + {c} == {c};
  }

  lemma {:induction false} EndOne(s: State, s': State, c: nat)
    requires |s'.slots| == |s.slots| && |s'.waiting| == |s.waiting|
    requires forall i :: 0 <= i < |s.slots| ==> s'.slots[i] == s.slots[i].(group := EndAt(s.slots[i].group, c))
    requires forall i :: 0 <= i < |s.waiting| ==> s'.waiting[i] == EndGroup(s.waiting[i], c)
    ensures End(s, c) == s'
  {
    assert End(s, c).slots == s'.slots && End(s, c).waiting == s'.waiting;
  }

  lemma {:induction false} ThreeSteps(s: State, maxHelp: nat, a: Event, s1: State, b: Event, s2: State, c: Event,
                                      s3: State)
    requires Step(s, maxHelp, a) == Some(s1) && Step(s1, maxHelp, b) == Some(s2) && Step(s2, maxHelp, c) == Some(s3)
    ensures Run(s, maxHelp, [a, b, c]) == Some(s3)
  {
    hide Step;
    assert [a, b, c][1..] == [b, c] && [b, c][1..] == [c] && [c][1..] == [];
    assert Run(s3, maxHelp, []) == Some(s3) && Run(s2, maxHelp, [c]) == Some(s3);
    assert Run(s1, maxHelp, [b, c]) == Some(s3);
  }

  /** A request that takes the helper with nothing to do. */
  lemma {:induction false} AskTakes(s: State, maxHelp: nat, c: nat, key: Key, i: nat)
    requires Requestable(s) && Reading(s.slots, key) == |s.slots| && Spare(s.slots) == i < |s.slots|
    requires forall k :: 0 <= k < |All(s)| && All(s)[k].Some? ==> c !in All(s)[k].value.members
    ensures Step(s, maxHelp, Ask(c, key, true, 5))
            == Some(s.(slots := s.slots[i := s.slots[i].(group := Some(Group(key, [c], {})))]))
  {
    hide All;
    NoneIn(All(s), c);
  }

  /** Otherwise two helpers may read the same piece: a connection asks, its timer
      ends it, and another asks for the same. */
  lemma {:induction false} ReadTwice(key: Key)
    ensures Run(State([Slot(3, None), Slot(4, None)], []), 2, [Ask(0, key, true, 5), Expire(0), Ask(1, key, true, 5)])
            == Some(State([Slot(3, Some(Group(key, [0], {0}))), Slot(4, Some(Group(key, [1], {})))], []))
  {
    hide Step;
    var g, h := Group(key, [0], {}), Group(key, [0], {0});
    var s0, s1 := State([Slot(3, None), Slot(4, None)], []), State([Slot(3, Some(g)), Slot(4, None)], []);
    var s2 := State([Slot(3, Some(h)), Slot(4, None)], []);
    var s3 := State([Slot(3, Some(h)), Slot(4, Some(Group(key, [1], {})))], []);
    assert Reading(s0.slots, key) == 2 && Spare(s0.slots) == 0;
    AskTakes(s0, 2, 0, key, 0);
    assert s0.slots[0 := s1.slots[0]] == s1.slots;
    EndAlone(key, 0);
    EndOne(s1, s2, 0);
    EndStep(s1, 2, 0);
    assert Reading(s2.slots, key) == 2 && Spare(s2.slots) == 1;
    AskTakes(s2, 2, 1, key, 1);
    assert s2.slots[1 := s3.slots[1]] == s3.slots;
    ThreeSteps(s0, 2, Ask(0, key, true, 5), s1, Expire(0), s2, Ask(1, key, true, 5), s3);
  }

  lemma {:induction false} EndStep(s: State, maxHelp: nat, c: nat)
    ensures Step(s, maxHelp, Expire(c)) == Some(End(s, c))
  {
  }

  /** A run into a fault: a connection asks, its timer ends it, and the helper finishes. */
  lemma {:induction false} TimeoutFaults(key: Key)
    ensures Crashes(State([], []), 1, [Ask(0, key, true, 3), Expire(0), Finish(0, 0)])
  {
    var s0, s1 := State([], []), State([Slot(3, Some(Group(key, [0], {})))], []);
    var s2 := State([Slot(3, Some(Group(key, [0], {0})))], []);
    var es := [Ask(0, key, true, 3), Expire(0), Finish(0, 0)];
    assert All(s0) == [] && Blocks(All(s0), 0) == 0;
    assert s0.slots + [Slot(3, Some(Group(key, [0], {})))] == s1.slots;
    assert Step(s0, 1, es[0]) == Some(s1);
    EndAlone(key, 0);
    EndOne(s1, s2, 0);
    assert es[1..] == [Expire(0), Finish(0, 0)] && es[1..][1..] == [Finish(0, 0)];
    assert 0 in Group(key, [0], {0}).members;
    assert Crashes(s2, 1, [Finish(0, 0)]);
    assert Crashes(s1, 1, es[1..]);
  }

  /** Another: the connection ended is first in line, and the fault comes already
      when it is handed to a helper that has finished with others. */
  lemma {:induction false} HandOverFaults(g: Group, key: Key)
    requires !Spoiled(g) && 1 !in g.members
    ensures var s := State([Slot(3, Some(g))], [Group(key, [1], {})]);
            && Crashes(s, 1, [Expire(1), Finish(0, 0)])
            && !Spoiled(End(s, 1).slots[0].group.value)
  {
    var s, s' := State([Slot(3, Some(g))], [Group(key, [1], {})]), State([Slot(3, Some(g))], [Group(key, [1], {1})]);
    EndOne(s, s', 1);
    assert [Expire(1), Finish(0, 0)][1..] == [Finish(0, 0)];
    assert Crashes(s', 1, [Finish(0, 0)]);
  }

  // ------------------------------------------------------------------
  // Groups in line are served in order

  function Finished(es: seq<Event>): (n: nat) {
    if es == [] then 0 else (if es[0].Finish? then 1 else 0) + Finished(es[1..])
  }

  /** The same group, perhaps joined by others. */
  ghost predicate Grown(g: Group, h: Group) {
    g.key == h.key && forall c :: c in g.members ==> c in h.members
  }

  /** One event moves a group in line up by one place if it is a completion, and not otherwise. */
  lemma {:induction false} StepKeepsPlace(s: State, maxHelp: nat, e: Event, k: nat)
    requires Step(s, maxHelp, e).Some? && k < |s.waiting| && (e.Finish? ==> k > 0)
    ensures var s', k' := Step(s, maxHelp, e).value, if e.Finish? then k - 1 else k;
            k' < |s'.waiting| && Grown(s.waiting[k], s'.waiting[k'])
  {
    if e.Ask? {
      var q := Queued(s.waiting, e.key);
      var w := Step(s, maxHelp, e).value.waiting;
      if q < |s.waiting| && k == q {
        var m := s.waiting[q].members;
        forall c | c in m ensures c in Join(s.waiting[q], e.c).members {
          assert m == [m[0]] + m[1..];
        }
      }
    }
  }

  /** Whatever joins, arrivals, new helpers and departures happen in between,
      the group at place k is at place k - n after n completions... */
  lemma {:induction false} KeepsPlace(s: State, maxHelp: nat, es: seq<Event>, k: nat)
    requires Run(s, maxHelp, es).Some? && k < |s.waiting| && Finished(es) <= k
    ensures var s', k' := Run(s, maxHelp, es).value, k - Finished(es);
            k' < |s'.waiting| && Grown(s.waiting[k], s'.waiting[k'])
    decreases |es|
  {
    hide Step;
    if es != [] {
      StepKeepsPlace(s, maxHelp, es[0], k);
      KeepsPlace(Step(s, maxHelp, es[0]).value, maxHelp, es[1..], if es[0].Finish? then k - 1 else k);
    }
  }

  /** ... and leaves the line at exactly the (k + 1)-th, for the row that this
      completion names, if there is such a row, unless the server faults there,
      as it does when the connection in front of the group has ended. */
  lemma {:induction false} ServedInTurn(s: State, maxHelp: nat, es: seq<Event>, k: nat, i: nat, j: nat)
    requires Run(s, maxHelp, es).Some? && k < |s.waiting| && Finished(es) == k
    requires Busy(Run(s, maxHelp, es).value, i)
    ensures var s1 := Run(s, maxHelp, es).value;
            && s1.waiting != [] && Grown(s.waiting[k], s1.waiting[0])
            && (!Alive(s1.waiting[0]) || Spoiled(s1.slots[i].group.value) <==> Faults(s1, Finish(i, j)))
            && (!Faults(s1, Finish(i, j)) ==>
                 var s2 := Complete(s1, i, j);
                 && Step(s1, maxHelp, Finish(i, j)) == Some(s2) && s2.waiting == s1.waiting[1..]
                 && (j < |s2.slots| ==> s2.slots[j].group == Some(s1.waiting[0])))
  {
    KeepsPlace(s, maxHelp, es, k);
  }
}
