/** Flash's read master: connection records linked by hc_siblings and hc_next,
    and the table of helper processes, updated in place.  Every handler refines
    a step of ReadSchedule. */
module ReadMaster {
  import opened Lists
  import opened ReadSchedule
  import SendPlan

  /** The fields of a connection that the read master uses; its cache entry is
      NIL once the connection has ended. */
  datatype Conn = Conn(entry: int, start: int, len: int, next: int, siblings: int)

  /** A row of the helper table. */
  datatype Helper = Helper(fd: int, hc: int)

  /** A request written to a helper: the row, the piece and the length. */
  datatype Sent = Sent(row: nat, key: Key, len: int)

  /** How a handler ends: well, by exit, by use of the file of a connection that
      has ended, or by writing past the helper table. */
  datatype Ending = Fine | Exit | Fault | Overrun

  const IDLE := "idle\0"

  /** The row to which CurrentReaderDone hands the group first in line: that of
      the helper which finished, unless its message began with a stale idle. */
  function NextRow(row: nat, message: string): (j: nat) {
    if IDLE <= message then |message| else row
  }

  /** The message of ten bytes "idle", NUL, "done", NUL leaves ten for the row.
      With one helper busy and one group in line, that group is lost. */
  lemma {:induction false} MisdirectedGroup(g: Group, w: Group)
    ensures var s, j := State([Slot(3, Some(g))], [w]), NextRow(0, "idle\0done\0");
            j == 10 && Complete(s, 0, j) == State([Slot(3, None)], []) && Lost(s, 0, j) == Some(w)
  {
    var s, m := State([Slot(3, Some(g))], [w]), "idle\0done\0";
    assert m == IDLE + "done\0";
    assert Complete(s, 0, 10).slots == [Slot(3, None)];
    assert s.waiting[1..] == [];
  }

  /** The first row with the descriptor. */
  function RowOf(slots: seq<Slot>, fd: int): (i: nat)
    ensures i <= |slots|
    ensures i < |slots| ==> slots[i].fd == fd
    ensures forall j :: 0 <= j < i ==> slots[j].fd != fd
  {
    if slots == [] || slots[0].fd == fd then 0 else 1 + RowOf(slots[1..], fd)
  }

  /** The descriptor belongs to a helper that works for the group led by hc. */
  predicate Matches(slots: seq<Slot>, fd: int, hc: int) {
    RowOf(slots, fd) < |slots| && LeaderOf(slots[RowOf(slots, fd)].group) == hc
  }

  function KeyOf(c: Conn): (k: Key) { Key(c.entry, c.start) }

  /** What the record of a member of the group says that it wants. */
  function RecordKey(g: Group, c: nat): (k: Key) {
    if c in g.ended then Key(NIL, g.key.start) else g.key
  }

  /** The event that a helper's message is. */
  function EventOf(row: nat, message: string): (e: Event) {
    if message == IDLE then Again(row) else Finish(row, NextRow(row, message))
  }

  // ------------------------------------------------------------------
  // What the links spell out

  ghost predicate IsGroup(conn: seq<Conn>, g: Group) {
    && g.members != [] && g.key.entry != NIL
    && Distinct(g.members)
    && InRange(g.members, |conn|)
    && forall i {:trigger conn[g.members[i]]} :: 0 <= i < |g.members| ==>
         && conn[g.members[i]].siblings == At(g.members, i + 1)
         && KeyOf(conn[g.members[i]]) == RecordKey(g, g.members[i])
  }

  ghost predicate AllGroups(conn: seq<Conn>, gs: seq<Option<Group>>) {
    forall i :: 0 <= i < |gs| && gs[i].Some? ==> IsGroup(conn, gs[i].value)
  }

  /** The connection in front of the group at a place of the line, or NIL past its end. */
  function Leader(waiting: seq<Group>, i: int): (c: int) {
    if 0 <= i < |waiting| && waiting[i].members != [] then waiting[i].members[0] else NIL
  }

  ghost predicate IsLine(conn: seq<Conn>, head: int, waiting: seq<Group>) {
    && head == Leader(waiting, 0)
    && forall i :: 0 <= i < |waiting| ==>
         NIL < Leader(waiting, i) < |conn| && conn[Leader(waiting, i)].next == Leader(waiting, i + 1)
  }

  function LeaderOf(g: Option<Group>): (c: int) {
    if g.Some? && g.value.members != [] then g.value.members[0] else NIL
  }

  ghost predicate IsTable(info: seq<Helper>, active: int, slots: seq<Slot>) {
    && |slots| == active <= |info|
    && (forall i :: 0 <= i < active ==> info[i] == Helper(slots[i].fd, LeaderOf(slots[i].group)))
    && (forall i, j :: 0 <= i < j < active ==> slots[i].fd != slots[j].fd)
  }

  ghost predicate Rep(conn: seq<Conn>, info: seq<Helper>, active: int, head: int, s: State) {
    && AllGroups(conn, All(s))
    && IsLine(conn, head, s.waiting)
    && IsTable(info, active, s.slots)
  }

  // ------------------------------------------------------------------
  // Connections in different groups are different

  lemma {:induction false} MemberOfOne(gs: seq<Option<Group>>, i: nat, j: nat, c: nat)
    requires i < |gs| && j < |gs| && i != j && ConnsOnce(gs)
    requires gs[i].Some? && gs[j].Some? && c in gs[i].value.members
    ensures c !in gs[j].value.members
  {
    if c in gs[j].value.members {
      CountsSplit(gs, i, Key(0, 0), c);
      OccursIn(gs[i].value.members, c);
      var rest := RemoveAt(gs, i);
      MemberBlocks(rest, if j < i then j else j - 1, c);
    }
  }

  /** A record outside every group may change without disturbing any. */
  lemma {:induction false} FrameGroups(conn: seq<Conn>, gs: seq<Option<Group>>, c: nat, r: Conn)
    requires AllGroups(conn, gs) && c < |conn| && Blocks(gs, c) == 0
    ensures AllGroups(conn[c := r], gs)
  {
    forall i | 0 <= i < |gs| && gs[i].Some? ensures IsGroup(conn[c := r], gs[i].value) {
      if c in gs[i].value.members {
        MemberBlocks(gs, i, c);
      }
    }
  }

  /** Linking a newcomer behind the front of one group leaves the others. */
  lemma {:induction false} JoinGroups(conn: seq<Conn>, gs: seq<Option<Group>>, i: nat, c: nat)
    requires AllGroups(conn, gs) && ConnsOnce(gs) && Inhabited(gs) && i < |gs| && gs[i].Some?
    requires c < |conn| && Blocks(gs, c) == 0 && KeyOf(conn[c]) == gs[i].value.key
    ensures gs[i].value.members != [] && gs[i].value.members[0] < |conn|
    ensures AllGroups(Linked(conn, gs[i].value.members[0], c), gs[i := Some(Join(gs[i].value, c))])
  {
    var g := gs[i].value;
    var a := g.members[0];
    assert IsGroup(conn, g);
    if c in g.members {
      MemberBlocks(gs, i, c);
    }
    JoinGroup(conn, g, c);
    var gs', conn' := gs[i := Some(Join(g, c))], Linked(conn, a, c);
    forall j | 0 <= j < |gs'| && gs'[j].Some? ensures IsGroup(conn', gs'[j].value) {
      if j != i {
        assert IsGroup(conn, gs[j].value);
        MemberOfOne(gs, i, j, a);
        if c in gs[j].value.members {
          MemberBlocks(gs, j, c);
        }
        FrameGroup(conn, conn', gs[j].value);
      }
    }
  }

  lemma {:induction false} FrameGroup(conn: seq<Conn>, conn': seq<Conn>, g: Group)
    requires IsGroup(conn, g) && |conn'| == |conn|
    requires forall i :: 0 <= i < |g.members| ==>
               && conn'[g.members[i]].siblings == conn[g.members[i]].siblings
               && KeyOf(conn'[g.members[i]]) == KeyOf(conn[g.members[i]])
    ensures IsGroup(conn', g)
  {
  }

  /** The records after c has been linked behind a. */
  function Linked(conn: seq<Conn>, a: nat, c: nat): (r: seq<Conn>)
    requires a < |conn| && c < |conn|
  {
    var conn1 := conn[c := conn[c].(siblings := conn[a].siblings)];
    conn1[a := conn1[a].(siblings := c)]
  }

  lemma {:induction false} JoinGroup(conn: seq<Conn>, g: Group, c: nat)
    requires IsGroup(conn, g) && c < |conn| && c !in g.members && KeyOf(conn[c]) == g.key
    ensures IsGroup(Linked(conn, g.members[0], c), Join(g, c))
  {
    var m, a := g.members, g.members[0];
    var conn', m' := Linked(conn, a, c), Join(g, c).members;
    forall i | 0 <= i < |m'| ensures m'[i] == if i == 0 then a else if i == 1 then c else m[i - 1] {}
    assert conn[m[0]].siblings == At(m, 1);
    forall i | 0 <= i < |m'|
      ensures conn'[m'[i]].siblings == At(m', i + 1) && KeyOf(conn'[m'[i]]) == RecordKey(Join(g, c), m'[i]) {
      if i >= 2 {
        assert conn[m[i - 1]].siblings == At(m, i);
      }
    }
    forall i, j | 0 <= i < j < |m'| ensures m'[i] != m'[j] {}
  }

  // ------------------------------------------------------------------
  // What each change of the links does

  lemma {:induction false} LeaderBlocks(s: State, i: nat)
    requires i < |s.waiting| && s.waiting[i].members != []
    ensures Blocks(All(s), s.waiting[i].members[0]) >= 1
  {
    assert All(s)[|s.slots| + i] == Some(s.waiting[i]);
    MemberBlocks(All(s), |s.slots| + i, s.waiting[i].members[0]);
  }

  /** A connection that is in no group gets a new record. */
  lemma {:induction false} ResetRep(conn: seq<Conn>, info: seq<Helper>, active: int, head: int, s: State, c: nat,
                                    r: Conn)
    requires Rep(conn, info, active, head, s) && c < |conn| && Blocks(All(s), c) == 0
    ensures Rep(conn[c := r], info, active, head, s)
  {
    hide IsTable;
    FrameGroups(conn, All(s), c, r);
    forall i | 0 <= i < |s.waiting| ensures Leader(s.waiting, i) != c {
      assert NIL < Leader(s.waiting, i);
      LeaderBlocks(s, i);
    }
  }

  /** The line and the table name only the front of a group, which stays. */
  lemma {:induction false} JoinFronts(conn: seq<Conn>, info: seq<Helper>, active: int, head: int, s: State,
                                      conn': seq<Conn>, s': State)
    requires IsLine(conn, head, s.waiting) && IsTable(info, active, s.slots) && |conn'| == |conn|
    requires |s'.slots| == |s.slots| && |s'.waiting| == |s.waiting|
    requires forall i :: 0 <= i < |conn| ==> conn'[i].next == conn[i].next
    requires forall j :: 0 <= j < |s.waiting| ==> Leader(s'.waiting, j) == Leader(s.waiting, j)
    requires forall j :: 0 <= j < |s.slots| ==>
               && s'.slots[j].fd == s.slots[j].fd
               && LeaderOf(s'.slots[j].group) == LeaderOf(s.slots[j].group)
    ensures IsLine(conn', head, s'.waiting) && IsTable(info, active, s'.slots)
  {
    forall j | 0 <= j < |s.waiting| ensures conn'[Leader(s'.waiting, j)].next == Leader(s'.waiting, j + 1) {
      assert NIL < Leader(s.waiting, j) < |conn| && conn[Leader(s.waiting, j)].next == Leader(s.waiting, j + 1);
    }
  }

  /** A connection joins the group at place i of All(s), where s' is s with that group grown. */
  lemma {:induction false} JoinRep(conn: seq<Conn>, info: seq<Helper>, active: int, head: int, s: State, i: nat,
                                   c: nat, s': State)
    requires Rep(conn, info, active, head, s) && ConnsOnce(All(s)) && Inhabited(All(s)) && i < |All(s)|
             && All(s)[i].Some?
    requires c < |conn| && Blocks(All(s), c) == 0 && KeyOf(conn[c]) == All(s)[i].value.key
    requires |s'.slots| == |s.slots| && |s'.waiting| == |s.waiting|
    requires All(s)[i].value.members != [] && All(s') == All(s)[i := Some(Join(All(s)[i].value, c))]
    requires forall j :: 0 <= j < |s.slots| ==> s'.slots[j].fd == s.slots[j].fd
    ensures All(s)[i].value.members[0] < |conn|
    ensures Rep(Linked(conn, All(s)[i].value.members[0], c), info, active, head, s')
  {
    hide IsLine, IsTable, AllGroups;
    var gs, gs' := All(s), All(s');
    JoinGroups(conn, gs, i, c);
    forall j | 0 <= j < |s.waiting| ensures Leader(s'.waiting, j) == Leader(s.waiting, j) {
      assert gs[|s.slots| + j] == Some(s.waiting[j]) && gs'[|s.slots| + j] == Some(s'.waiting[j]);
    }
    forall j | 0 <= j < |s.slots| ensures LeaderOf(s'.slots[j].group) == LeaderOf(s.slots[j].group) {
      assert gs[j] == s.slots[j].group && gs'[j] == s'.slots[j].group;
    }
    JoinFronts(conn, info, active, head, s, Linked(conn, gs[i].value.members[0], c), s');
  }

  lemma {:induction false} NewGroup(conn: seq<Conn>, c: nat)
    requires c < |conn| && conn[c].siblings == NIL && conn[c].entry != NIL
    ensures IsGroup(conn, Group(KeyOf(conn[c]), [c], {}))
  {
  }

  /** A connection goes to helper j, in use or just started. */
  lemma {:induction false} AssignRep(conn: seq<Conn>, info: seq<Helper>, active: int, head: int, s: State, j: nat,
                                     fd: int, c: nat)
    requires Rep(conn, info, active, head, s) && c < |conn| && conn[c].siblings == NIL && conn[c].entry != NIL
    requires j <= active && j < |info|
    requires if j < active then s.slots[j] == Slot(fd, None) else forall i :: 0 <= i < active ==> s.slots[i].fd != fd
    ensures var x := Slot(fd, Some(Group(KeyOf(conn[c]), [c], {})));
            var s' := if j < active then s.(slots := s.slots[j := x]) else s.(slots := s.slots + [x]);
            Rep(conn, info[j := Helper(fd, c)], |s'.slots|, head, s')
  {
    NewGroup(conn, c);
    var g := Group(KeyOf(conn[c]), [c], {});
    var x := Slot(fd, Some(g));
    var s' := if j < active then s.(slots := s.slots[j := x]) else s.(slots := s.slots + [x]);
    forall i | 0 <= i < |All(s')| && All(s')[i].Some? ensures IsGroup(conn, All(s')[i].value) {
      if i != j {
        assert All(s')[i] == All(s)[if j < active || i < j then i else i - 1];
      }
    }
  }

  /** The last record of the line, and the records after c has been put behind it. */
  function Tail(waiting: seq<Group>): (c: int) { Leader(waiting, |waiting| - 1) }

  lemma {:induction false} AppendRep(conn: seq<Conn>, info: seq<Helper>, active: int, head: int, s: State, c: nat)
    requires Rep(conn, info, active, head, s) && c < |conn| && conn[c].siblings == NIL && conn[c].next == NIL
    requires ConnsOnce(All(s)) && Blocks(All(s), c) == 0 && conn[c].entry != NIL
    ensures var t := Tail(s.waiting);
            var s' := s.(waiting := s.waiting + [Group(KeyOf(conn[c]), [c], {})]);
            if s.waiting == [] then Rep(conn, info, active, c, s')
            else 0 <= t < |conn| && t != c && Rep(conn[t := conn[t].(next := c)], info, active, head, s')
  {
    hide IsGroup, IsTable, IsLine, Blocks;
    var g, t := Group(KeyOf(conn[c]), [c], {}), Tail(s.waiting);
    var s' := s.(waiting := s.waiting + [g]);
    NewGroup(conn, c);
    TailOf(conn, head, s, c);
    var conn' := if s.waiting == [] then conn else conn[t := conn[t].(next := c)];
    forall i | 0 <= i < |All(s')| && All(s')[i].Some? ensures IsGroup(conn', All(s')[i].value) {
      var h := All(s')[i].value;
      assert i < |All(s)| ==> All(s')[i] == All(s)[i];
      NextFrame(conn, h, if s.waiting == [] then c else t, if s.waiting == [] then conn[c].next else c);
      assert s.waiting == [] ==> conn[c := conn[c].(next := conn[c].next)] == conn;
    }
    AppendLine(conn, head, s, c, g);
  }

  /** The next connection in line is no concern of a group. */
  lemma {:induction false} NextFrame(conn: seq<Conn>, g: Group, t: nat, next: int)
    requires IsGroup(conn, g) && t < |conn|
    ensures IsGroup(conn[t := conn[t].(next := next)], g)
  {
    FrameGroup(conn, conn[t := conn[t].(next := next)], g);
  }

  lemma {:induction false} TailOf(conn: seq<Conn>, head: int, s: State, c: nat)
    requires IsLine(conn, head, s.waiting) && Blocks(All(s), c) == 0
    ensures s.waiting != [] ==> 0 <= Tail(s.waiting) < |conn| && Tail(s.waiting) != c
  {
    hide Blocks;
    if s.waiting != [] {
      assert NIL < Leader(s.waiting, |s.waiting| - 1);
      LeaderBlocks(s, |s.waiting| - 1);
    }
  }

  lemma {:induction false} AppendLine(conn: seq<Conn>, head: int, s: State, c: nat, g: Group)
    requires IsLine(conn, head, s.waiting) && ConnsOnce(All(s)) && Blocks(All(s), c) == 0
    requires c < |conn| && conn[c].next == NIL && g.members == [c]
    ensures var t, w := Tail(s.waiting), s.waiting + [g];
            if s.waiting == [] then IsLine(conn, c, w)
            else 0 <= t < |conn| && IsLine(conn[t := conn[t].(next := c)], head, w)
  {
    hide Blocks;
    var t, w, n := Tail(s.waiting), s.waiting + [g], |s.waiting|;
    TailOf(conn, head, s, c);
    var conn' := if n == 0 then conn else conn[t := conn[t].(next := c)];
    forall i | 0 <= i < n ensures Leader(w, i) == Leader(s.waiting, i) && NIL < Leader(w, i) < |conn| {}
    forall i | 0 <= i < n - 1 ensures Leader(w, i) != t && conn[Leader(w, i)].next == Leader(w, i + 1) {
      assert NIL < Leader(s.waiting, i) && NIL < Leader(s.waiting, n - 1);
      LineDiffers(s, i, n - 1);
    }
    assert Leader(w, n) == c && Leader(w, n + 1) == NIL;
    forall i | 0 <= i < |w| ensures NIL < Leader(w, i) < |conn'| && conn'[Leader(w, i)].next == Leader(w, i + 1) {
      assert i == n - 1 ==> Leader(w, i) == t;
    }
  }

  lemma {:induction false} LineDiffers(s: State, i: nat, j: nat)
    requires ConnsOnce(All(s)) && i < j < |s.waiting| && s.waiting[i].members != [] && s.waiting[j].members != []
    ensures Leader(s.waiting, i) != Leader(s.waiting, j)
  {
    var n := |s.slots|;
    assert All(s)[n + i] == Some(s.waiting[i]) && All(s)[n + j] == Some(s.waiting[j]);
    MemberOfOne(All(s), n + i, n + j, s.waiting[i].members[0]);
  }

  /** Helper i has nothing to do any more. */
  lemma {:induction false} ClearRep(conn: seq<Conn>, info: seq<Helper>, active: int, head: int, s: State, i: nat)
    requires Rep(conn, info, active, head, s) && i < active
    ensures Rep(conn, info[i := info[i].(hc := NIL)], active, head,
            s.(slots := s.slots[i := s.slots[i].(group := None)]))
  {
    var s' := s.(slots := s.slots[i := s.slots[i].(group := None)]);
    forall k | 0 <= k < |All(s')| && All(s')[k].Some? ensures IsGroup(conn, All(s')[k].value) {
      assert All(s')[k] == All(s)[k];
    }
  }

  /** The group first in line goes to row j of the table. */
  lemma {:induction false} PromoteRep(conn: seq<Conn>, info: seq<Helper>, active: int, head: int, s: State, j: nat)
    requires Rep(conn, info, active, head, s) && s.waiting != [] && ConnsOnce(All(s)) && j < |info|
    ensures 0 <= head < |conn|
    ensures var next := if j < active then s.slots[j := s.slots[j].(group := Some(s.waiting[0]))] else s.slots;
            var s' := State(next, s.waiting[1..]);
            Rep(conn[head := conn[head].(next := NIL)], info[j := info[j].(hc := head)], active, conn[head].next, s')
  {
    var w := s.waiting;
    var s' := State(if j < active then s.slots[j := s.slots[j].(group := Some(w[0]))] else s.slots, w[1..]);
    assert NIL < Leader(w, 0) && conn[Leader(w, 0)].next == Leader(w, 1);
    var conn', n := conn[head := conn[head].(next := NIL)], |s.slots|;
    forall i | 0 <= i < |All(s')| && All(s')[i].Some? ensures IsGroup(conn', All(s')[i].value) {
      assert All(s)[n] == Some(w[0]);
      assert All(s')[i] == All(s)[if i < n then (if i == j then n else i) else i + 1];
      FrameGroup(conn, conn', All(s')[i].value);
    }
    forall i | 0 <= i < |w| - 1
      ensures NIL < Leader(w[1..], i) < |conn'| && conn'[Leader(w[1..], i)].next == Leader(w[1..], i + 1)
    {
      assert NIL < Leader(w, i + 1) && conn[Leader(w, i + 1)].next == Leader(w, i + 2);
      LineDiffers(s, 0, i + 1);
    }
  }

  /** Row i has gone and those behind it have moved up. */
  lemma {:induction false} LeaveRep(conn: seq<Conn>, info: seq<Helper>, active: int, head: int, s: State, i: nat,
                                    info': seq<Helper>)
    requires Rep(conn, info, active, head, s) && i < active && |info'| == |info|
    requires forall k :: 0 <= k < active - 1 ==> info'[k] == info[if k < i then k else k + 1]
    ensures Rep(conn, info', active - 1, head, Leave(s, i))
  {
    var s' := Leave(s, i);
    forall k | 0 <= k < |All(s')| && All(s')[k].Some? ensures IsGroup(conn, All(s')[k].value) {
      assert All(s')[k] == All(s)[if k < i then k else k + 1];
    }
  }

  // ------------------------------------------------------------------
  // The five ways a request can go

  /** What a row of the table says about the group of its helper. */
  lemma {:induction false} RowMeans(conn: seq<Conn>, info: seq<Helper>, active: int, head: int, s: State, i: nat)
    requires Rep(conn, info, active, head, s) && i < active
    ensures info[i].fd == s.slots[i].fd
    ensures info[i].hc == NIL <==> s.slots[i].group.None?
    ensures info[i].hc != NIL ==>
              && 0 <= info[i].hc < |conn| && KeyOf(conn[info[i].hc]) == RecordKey(s.slots[i].group.value, info[i].hc)
              && IsGroup(conn, s.slots[i].group.value) && info[i].hc == s.slots[i].group.value.members[0]
              && s.slots[i].group.value.members != [] && s.slots[i].group.value.key.entry != NIL
  {
    assert All(s)[i] == s.slots[i].group;
    if s.slots[i].group.Some? {
      var g := s.slots[i].group.value;
      assert IsGroup(conn, g);
      assert conn[g.members[0]].siblings == At(g.members, 1);
    }
  }

  lemma {:induction false} LineMeans(conn: seq<Conn>, info: seq<Helper>, active: int, head: int, s: State, k: nat)
    requires Rep(conn, info, active, head, s) && k < |s.waiting|
    ensures var w := Leader(s.waiting, k);
            && 0 <= w < |conn| && KeyOf(conn[w]) == RecordKey(s.waiting[k], w)
            && conn[w].next == Leader(s.waiting, k + 1)
            && s.waiting[k].members != [] && s.waiting[k].members[0] == w && s.waiting[k].key.entry != NIL
  {
    assert All(s)[|s.slots| + k] == Some(s.waiting[k]);
    var g := s.waiting[k];
    assert IsGroup(conn, g);
    assert conn[g.members[0]].siblings == At(g.members, 1);
  }

  /** c asks, and is in no group yet. */
  ghost predicate Newcomer(conn: seq<Conn>, s: State, maxHelp: nat, c: nat) {
    && Inv(s, maxHelp) && Requestable(s)
    && c < |conn| && Blocks(All(s), c) == 0
    && conn[c].siblings == NIL && conn[c].next == NIL && conn[c].entry != NIL
  }

  lemma {:induction false} NewcomerReset(conn: seq<Conn>, info: seq<Helper>, active: int, head: int, s: State, c: nat,
                                         r: Conn)
    requires Rep(conn, info, active, head, s) && Inv(s, |info|) && c < |conn| && Blocks(All(s), c) == 0
    requires r.siblings == NIL && r.next == NIL && r.entry != NIL
    ensures Rep(conn[c := r], info, active, head, s) && Newcomer(conn[c := r], s, |info|, c)
    ensures |s.slots| == active <= |info|
  {
    hide Rep, Inv, Blocks;
    RepShape(conn, info, active, head, s);
    InvRequestable(s, |info|);
    ResetRep(conn, info, active, head, s, c, r);
  }

  /** No helper reads the piece, none is free, and nobody waits for it. */
  ghost predicate Unmatched(s: State, key: Key) {
    Reading(s.slots, key) == |s.slots| == Spare(s.slots) && Queued(s.waiting, key) == |s.waiting|
  }

  lemma {:induction false} RequestJoins(conn: seq<Conn>, info: seq<Helper>, active: int, head: int, s: State, c: nat,
                                        timely: bool, fd: int)
    requires Rep(conn, info, active, head, s) && Newcomer(conn, s, |info|, c)
    requires Reading(s.slots, KeyOf(conn[c])) < |s.slots|
    ensures var i := Reading(s.slots, KeyOf(conn[c]));
            i < |info| && 0 <= info[i].hc < |conn|
            && Rep(Linked(conn, info[i].hc, c), info, active, head, Request(s, |info|, c, KeyOf(conn[c]), timely, fd))
  {
    var i := Reading(s.slots, KeyOf(conn[c]));
    var s' := Request(s, |info|, c, KeyOf(conn[c]), timely, fd);
    RowMeans(conn, info, active, head, s, i);
    assert All(s)[i] == s.slots[i].group;
    assert All(s') == All(s)[i := Some(Join(s.slots[i].group.value, c))];
    JoinRep(conn, info, active, head, s, i, c, s');
  }

  lemma {:induction false} RequestTakes(conn: seq<Conn>, info: seq<Helper>, active: int, head: int, s: State, c: nat,
                                        timely: bool, fd: int)
    requires Rep(conn, info, active, head, s) && Newcomer(conn, s, |info|, c)
    requires Reading(s.slots, KeyOf(conn[c])) == |s.slots| && Spare(s.slots) < |s.slots|
    ensures var i := Spare(s.slots);
            && i < |info|
            && Rep(conn, info[i := Helper(info[i].fd, c)], active, head,
                   Request(s, |info|, c, KeyOf(conn[c]), timely, fd))
  {
    hide Rep, Newcomer;
    var i := Spare(s.slots);
    assert c < |conn| && conn[c].siblings == NIL && conn[c].entry != NIL by { NewcomerShape(conn, s, |info|, c); }
    RepShape(conn, info, active, head, s);
    RowMeans(conn, info, active, head, s, i);
    AssignRep(conn, info, active, head, s, i, s.slots[i].fd, c);
  }

  lemma {:induction false} NewcomerShape(conn: seq<Conn>, s: State, maxHelp: nat, c: nat)
    requires Newcomer(conn, s, maxHelp, c)
    ensures c < |conn| && conn[c].siblings == NIL && conn[c].next == NIL && conn[c].entry != NIL
    ensures Requestable(s) && Blocks(All(s), c) == 0
    ensures Inhabited(All(s)) && ConnsOnce(All(s)) && |s.slots| <= maxHelp
    ensures s.waiting != [] ==> s.slots != []
  {
  }

  lemma {:induction false} RequestQueues(conn: seq<Conn>, info: seq<Helper>, active: int, head: int, s: State, c: nat,
                                         timely: bool, fd: int)
    requires Rep(conn, info, active, head, s) && Newcomer(conn, s, |info|, c)
    requires Reading(s.slots, KeyOf(conn[c])) == |s.slots| == Spare(s.slots)
    requires Queued(s.waiting, KeyOf(conn[c])) < |s.waiting|
    ensures var w := Leader(s.waiting, Queued(s.waiting, KeyOf(conn[c])));
            && 0 <= w < |conn|
            && Rep(Linked(conn, w, c), info, active, head, Request(s, |info|, c, KeyOf(conn[c]), timely, fd))
  {
    var k, n := Queued(s.waiting, KeyOf(conn[c])), |s.slots|;
    var s' := Request(s, |info|, c, KeyOf(conn[c]), timely, fd);
    LineMeans(conn, info, active, head, s, k);
    assert All(s)[n + k] == Some(s.waiting[k]);
    assert All(s') == All(s)[n + k := Some(Join(s.waiting[k], c))];
    JoinRep(conn, info, active, head, s, n + k, c, s');
  }

  /** A new helper is started for the piece, or one is wanted in vain. */
  lemma {:induction false} RequestStarts(conn: seq<Conn>, info: seq<Helper>, active: int, head: int, s: State, c: nat,
                                         timely: bool, fd: int)
    returns (s': State)
    requires Rep(conn, info, active, head, s) && Newcomer(conn, s, |info|, c) && Unmatched(s, KeyOf(conn[c]))
             && |info| > 0
    requires forall i :: 0 <= i < |s.slots| ==> s.slots[i].fd != fd
    ensures Requestable(s) && s' == Request(s, |info|, c, KeyOf(conn[c]), timely, fd)
    ensures |s.slots| == active <= |info| && c < |conn|
    ensures s.waiting != [] ==> s.slots != []
    ensures Forks(s, |info|, timely, fd) ==>
              && active < |info|
              && Rep(conn, info[active := Helper(fd, c)], active + 1, head, s')
  {
    hide Rep, Newcomer;
    NewcomerShape(conn, s, |info|, c);
    RepShape(conn, info, active, head, s);
    s' := Request(s, |info|, c, KeyOf(conn[c]), timely, fd);
    if Forks(s, |info|, timely, fd) {
      AssignRep(conn, info, active, head, s, active, fd, c);
    }
  }

  lemma {:induction false} RequestWaits(conn: seq<Conn>, info: seq<Helper>, active: int, head: int, s: State, c: nat,
                                        timely: bool, fd: int)
    requires Rep(conn, info, active, head, s) && Newcomer(conn, s, |info|, c) && Unmatched(s, KeyOf(conn[c]))
    requires !Forks(s, |info|, timely, fd)
    ensures Requestable(s)
    ensures var t, s' := Tail(s.waiting), Request(s, |info|, c, KeyOf(conn[c]), timely, fd);
            if t == NIL then Rep(conn, info, active, c, s')
            else 0 <= t < |conn| && Rep(conn[t := conn[t].(next := c)], info, active, head, s')
  {
    hide Rep, Newcomer;
    NewcomerShape(conn, s, |info|, c);
    AppendRep(conn, info, active, head, s, c);
  }

  // ------------------------------------------------------------------
  // Connections in one group want the same number of bytes

  /** Links may have changed, but no length. */
  ghost predicate SameLengths(a: seq<Conn>, b: seq<Conn>) {
    |b| == |a| && forall c :: 0 <= c < |a| ==> b[c].len == a[c].len
  }

  /** The length of a piece: what is left of its chunk, for the size of its entry. */
  function PieceLength(sizes: int -> nat, key: Key): (n: int) {
    if key.start < 0 then 0 else SendPlan.Left(sizes(key.entry), key.start)
  }

  /** Every connection of the group asked for as many bytes as the piece has. */
  ghost predicate MeasuredGroup(conn: seq<Conn>, g: Group, sizes: int -> nat) {
    forall c :: c in g.members && c < |conn| ==> conn[c].len == PieceLength(sizes, g.key)
  }

  ghost predicate Measured(conn: seq<Conn>, gs: seq<Option<Group>>, sizes: int -> nat) {
    forall i :: 0 <= i < |gs| && gs[i].Some? ==> MeasuredGroup(conn, gs[i].value, sizes)
  }

  lemma {:induction false} MeasuredStart(conn: seq<Conn>, fds: seq<int>, sizes: int -> nat)
    ensures Measured(conn, All(Fresh(fds)), sizes)
  {
  }

  /** A request keeps it so exactly when it is for the bytes that its piece has ... */
  lemma {:induction false} MeasuredAfterRequest(conn: seq<Conn>, conn': seq<Conn>, s: State, maxHelp: nat, e: Event,
                                                r: Conn, sizes: int -> nat)
    requires Measured(conn, All(s), sizes) && e.Ask? && e.c < |conn| && Step(s, maxHelp, e).Some?
    requires SameLengths(conn[e.c := r], conn')
    ensures Measured(conn', All(Step(s, maxHelp, e).value), sizes) <==> r.len == PieceLength(sizes, e.key)
  {
    hide Blocks, WayOf, WayFits, Placed, All, Measured, SameLengths;
    RequestWay(s, maxHelp, e.c, e.key, e.timely, e.fd);
    PlacedMeasured(conn, conn', All(s), WayOf(s, maxHelp, e.key, e.timely, e.fd), e.key, e.c, r, sizes);
  }

  lemma {:induction false} PlacedMeasured(conn: seq<Conn>, conn': seq<Conn>, gs: seq<Option<Group>>, way: Way, key: Key,
                                          c: nat, r: Conn, sizes: int -> nat)
    requires WayFits(gs, way, key) && Blocks(gs, c) == 0 && Measured(conn, gs, sizes)
    requires c < |conn| && SameLengths(conn[c := r], conn')
    ensures Measured(conn', Placed(gs, way, key, c), sizes) <==> r.len == PieceLength(sizes, key)
  {
    hide Blocks, Join;
    var gs', at := Placed(gs, way, key, c), way.at;
    assert conn'[c].len == r.len by { assert conn[c := r][c] == r; }
    var g := gs'[at].value;
    GrownMembers(gs, way, key, c);
    if r.len == PieceLength(sizes, key) {
      forall i | 0 <= i < |gs'| && gs'[i].Some? ensures MeasuredGroup(conn', gs'[i].value, sizes) {
        var k := if way.InsertAt? && i > at then i - 1 else i;
        if i != at {
          assert gs'[i] == gs[k];
          NotMember(gs, k, c);
        }
        LengthsStay(conn, conn', gs, k, gs'[i].value, c, r, sizes);
      }
    } else {
      assert !MeasuredGroup(conn', g, sizes);
    }
  }

  /** The group at the place of a request has the connection and, if it is an old
      one, those it had. */
  lemma {:induction false} GrownMembers(gs: seq<Option<Group>>, way: Way, key: Key, c: nat)
    requires WayFits(gs, way, key)
    ensures var gs' := Placed(gs, way, key, c);
            && way.at < |gs'| && gs'[way.at].Some? && gs'[way.at].value.key == key && c in gs'[way.at].value.members
            && (forall x :: x in gs'[way.at].value.members && x != c ==> way.JoinAt? && x in gs[way.at].value.members)
  {
    if way.JoinAt? {
      forall x: nat ensures x in Join(gs[way.at].value, c).members <==> x == c || x in gs[way.at].value.members {
        JoinMembers(gs[way.at].value, c, x);
      }
    }
  }

  lemma {:induction false} LengthsStay(conn: seq<Conn>, conn': seq<Conn>, gs: seq<Option<Group>>, k: nat, g: Group,
                                       c: nat, r: Conn, sizes: int -> nat)
    requires Measured(conn, gs, sizes) && c < |conn| && SameLengths(conn[c := r], conn')
    requires c in g.members ==> r.len == PieceLength(sizes, g.key)
    requires forall x :: x in g.members && x != c ==>
               k < |gs| && gs[k].Some? && x in gs[k].value.members && gs[k].value.key == g.key
    ensures MeasuredGroup(conn', g, sizes)
  {
    forall x | x in g.members && x < |conn'| ensures conn'[x].len == PieceLength(sizes, g.key) {
      assert conn[c := r][x] == if x == c then r else conn[x];
      assert x != c ==> MeasuredGroup(conn, gs[k].value, sizes);
    }
  }

  /** ... and so does every other event, wherever the next group goes ... */
  lemma {:induction false} MeasuredAfterEvent(conn: seq<Conn>, conn': seq<Conn>, s: State, s': State, sizes: int -> nat)
    requires Measured(conn, All(s), sizes) && SameLengths(conn, conn')
    requires forall i :: 0 <= i < |All(s')| && All(s')[i].Some? ==> SameMembers(All(s), All(s')[i].value)
    ensures Measured(conn', All(s'), sizes)
  {
    forall i | 0 <= i < |All(s')| && All(s')[i].Some? ensures MeasuredGroup(conn', All(s')[i].value, sizes) {
      var k :| 0 <= k < |All(s)| && All(s)[k].Some? && Alike(All(s)[k].value, All(s')[i].value);
      assert MeasuredGroup(conn, All(s)[k].value, sizes);
    }
  }

  predicate Alike(g: Group, h: Group) { g.key == h.key && g.members == h.members }

  /** The list has a group of the same connections for the same piece. */
  ghost predicate SameMembers(gs: seq<Option<Group>>, h: Group) {
    exists k :: 0 <= k < |gs| && gs[k].Some? && Alike(gs[k].value, h)
  }

  lemma {:induction false} EventGroups(s: State, maxHelp: nat, e: Event)
    requires !e.Ask? && Step(s, maxHelp, e).Some?
    ensures var gs' := All(Step(s, maxHelp, e).value);
            forall i :: 0 <= i < |gs'| && gs'[i].Some? ==> SameMembers(All(s), gs'[i].value)
  {
    var s' := Step(s, maxHelp, e).value;
    var gs, gs' := All(s), All(s');
    forall i | 0 <= i < |gs'| && gs'[i].Some? ensures SameMembers(gs, gs'[i].value) {
      match e {
        case Finish(k, j) => CompleteSub(s, k, j);
        case Again(_) =>
        case Gone(k) => assert gs' == RemoveAt(gs, k);
        case Expire(c) => assert gs'[i] == EndAt(gs[i], c);
      }
      assert Alike(gs'[i].value, gs'[i].value);
    }
  }

  /** ... so that all members of a group asked for the same number of bytes. */
  lemma {:induction false} EqualLengths(conn: seq<Conn>, s: State, sizes: int -> nat, i: nat, a: nat, b: nat)
    requires Measured(conn, All(s), sizes) && i < |All(s)| && All(s)[i].Some?
    requires a in All(s)[i].value.members && b in All(s)[i].value.members && a < |conn| && b < |conn|
    ensures conn[a].len == conn[b].len == PieceLength(sizes, All(s)[i].value.key)
  {
    assert MeasuredGroup(conn, All(s)[i].value, sizes);
  }

  // ------------------------------------------------------------------
  // A connection ends

  /** The record loses its file, and the group that has it notes so. */
  lemma {:induction false} EndRep(conn: seq<Conn>, info: seq<Helper>, active: int, head: int, s: State, c: nat)
    requires Rep(conn, info, active, head, s) && c < |conn|
    ensures Rep(conn[c := conn[c].(entry := NIL)], info, active, head, End(s, c))
  {
    var conn', s' := conn[c := conn[c].(entry := NIL)], End(s, c);
    var gs, gs' := All(s), All(s');
    forall i | 0 <= i < |gs'| && gs'[i].Some? ensures IsGroup(conn', gs'[i].value) {
      assert gs'[i] == EndAt(gs[i], c);
      EndRecord(conn, gs[i].value, c);
    }
    forall i | 0 <= i <= |s.waiting| ensures Leader(s'.waiting, i) == Leader(s.waiting, i) {}
    JoinFronts(conn, info, active, head, s, conn', s');
  }

  lemma {:induction false} EndRecord(conn: seq<Conn>, g: Group, c: nat)
    requires IsGroup(conn, g) && c < |conn|
    ensures IsGroup(conn[c := conn[c].(entry := NIL)], EndGroup(g, c))
  {
    var m := g.members;
    forall i | 0 <= i < |m|
      ensures KeyOf(conn[c := conn[c].(entry := NIL)][m[i]]) == RecordKey(EndGroup(g, c), m[i]) {
      assert conn[m[i]].siblings == At(m, i + 1);
    }
  }

  /** The record in front of a group has its file exactly when the connection has not ended. */
  lemma {:induction false} FrontAlive(g: Group)
    requires g.members != [] && g.key.entry != NIL
    ensures RecordKey(g, g.members[0]).entry == NIL <==> !Alive(g)
    ensures Alive(g) ==> RecordKey(g, g.members[0]) == g.key
  {
  }

  /** A request as it is written for a connection that asks for so many bytes. */
  function Carried(w: Option<(nat, Key)>, len: int): (r: Option<Sent>) {
    if w.Some? then Some(Sent(w.value.0, w.value.1, len)) else None
  }

  /** The request written, if any, goes to that row and is for that piece. */
  predicate Asks(r: Option<Sent>, w: Option<(nat, Key)>) {
    (r.Some? <==> w.Some?) && (r.Some? ==> (r.value.row, r.value.key) == w.value)
  }

  // ------------------------------------------------------------------
  // The handlers

  class Master {
    const conn: array<Conn>
    const info: array<Helper>
    /** The sizes of the files, by cache entry. */
    ghost const sizes: int -> nat
    var active: nat
    var waitingList: int
    /** What the links stand for. */
    ghost var s: State

    ghost predicate Represents() reads this, conn, info {
      Rep(conn[..], info[..], active, waitingList, s)
    }

    ghost predicate InOrder() reads this, conn, info {
      Represents() && Inv(s, info.Length) && info.Length > 0
    }

    /** In order, and all that is asked for has the length of its piece. */
    ghost predicate Valid() reads this, conn, info {
      InOrder() && Measured(conn[..], All(s), sizes)
    }

    /** The table with the helpers that are started beforehand, by their sockets. */
    constructor (connections: array<Conn>, maxHelp: nat, fds: seq<int>, ghost fileSizes: int -> nat)
      requires maxHelp > 0 && |fds| <= maxHelp && Distinct(fds)
      ensures Valid() && conn == connections && info.Length == maxHelp && s == Fresh(fds)
      ensures fresh(info)
    {
      conn, sizes := connections, fileSizes;
      info := new Helper[maxHelp](i => if 0 <= i < |fds| then Helper(fds[i], NIL) else Helper(NIL, NIL));
      active, waitingList := |fds|, NIL;
      s := Fresh(fds);
      FreshInv(fds, maxHelp);
      MeasuredStart(connections[..], fds, fileSizes);
    }

    /** Writes the request to the helper, and notes for whom.  It takes the name
        of the connection's file first, and the row then. */
    method AddCurrentReader(hc: nat, pos: nat) returns (ending: Ending, request: Option<Sent>)
      requires hc < conn.Length
      modifies info
      ensures ending == if conn[hc].entry == NIL then Fault else if pos >= info.Length then Overrun else Fine
      ensures ending == Fine ==> info[..] == old(info[..])[pos := Helper(old(info[..])[pos].fd, hc)]
      ensures ending != Fine ==> info[..] == old(info[..])
      ensures request == if ending == Fine then Some(Sent(pos, KeyOf(conn[hc]), conn[hc].len)) else None
    {
      if conn[hc].entry == NIL {
        return Fault, None;
      }
      if pos >= info.Length {
        return Overrun, None;
      }
      request := Some(Sent(pos, KeyOf(conn[hc]), conn[hc].len));
      info[pos] := info[pos].(hc := hc);
      return Fine, request;
    }

    /** The connection's timer has ended it: it gives its cache entry back. */
    method EndConnection(hc: nat)
      requires InOrder() && hc < conn.Length
      modifies conn, this`s
      ensures InOrder() && s == End(old(s), hc)
      ensures old(Valid()) ==> Valid()
      ensures conn[..] == old(conn[..])[hc := old(conn[hc]).(entry := NIL)]
    {
      hide Rep, Inv, End, Measured;
      ghost var recs, was := conn[..], s;
      conn[hc] := conn[hc].(entry := NIL);
      assert conn[..] == recs[hc := recs[hc].(entry := NIL)];
      EndRep(recs, info[..], active, waitingList, s, hc);
      EndInv(s, info.Length, hc);
      s := End(s, hc);
      EventGroups(was, info.Length, Expire(hc));
      if Measured(recs, All(was), sizes) {
        MeasuredAfterEvent(recs, conn[..], was, s, sizes);
      }
    }

    /** The row of a descriptor; None is the source's exit on a mismatch. */
    method MatchHelperToPos(fd: int, hc: int) returns (r: Option<nat>)
      requires Represents()
      ensures r == if Matches(s.slots, fd, hc) then Some(RowOf(s.slots, fd)) else None
    {
      var i := 0;
      while i < active && info[i].fd != fd
        invariant 0 <= i <= active
        invariant forall j :: 0 <= j < i ==> info[j].fd != fd
      {
        i := i + 1;
      }
      if i >= active || info[i].hc != hc {
        return None;
      }
      return Some(i);
    }

    /** The first row whose helper reads the piece that hc wants. */
    method FindReader(hc: nat) returns (i: nat)
      requires Represents() && hc < conn.Length && conn[hc].entry != NIL
      ensures i == Reading(s.slots, KeyOf(conn[hc])) && i <= active == |s.slots|
    {
      hide Rep;
      RepShape(conn[..], info[..], active, waitingList, s);
      i := 0;
      while i < active
        invariant 0 <= i <= active
        invariant forall j :: 0 <= j < i ==>
                    s.slots[j].group.None? || !Wanting(s.slots[j].group.value, KeyOf(conn[hc]))
      {
        RowMeans(conn[..], info[..], active, waitingList, s, i);
        var at := info[..][i].hc;
        if at != NIL && conn[at].start == conn[hc].start && conn[at].entry == conn[hc].entry {
          return;
        }
        i := i + 1;
      }
    }

    /** The first row whose helper has nothing to do. */
    method FindSpare() returns (i: nat)
      requires Represents()
      ensures i == Spare(s.slots) && i <= active == |s.slots|
    {
      hide Rep;
      RepShape(conn[..], info[..], active, waitingList, s);
      i := 0;
      while i < active
        invariant 0 <= i <= active
        invariant forall j :: 0 <= j < i ==> s.slots[j].group.Some?
      {
        RowMeans(conn[..], info[..], active, waitingList, s, i);
        if info[..][i].hc == NIL {
          return;
        }
        i := i + 1;
      }
    }

    /** The connection in front of the first group in line for the piece, or NIL
        and the connection in front of the last group in line. */
    method FindWaiting(hc: nat) returns (walk: int, tail: int)
      requires Represents() && hc < conn.Length && conn[hc].entry != NIL
      ensures walk == Leader(s.waiting, Queued(s.waiting, KeyOf(conn[hc])))
      ensures walk == NIL <==> Queued(s.waiting, KeyOf(conn[hc])) == |s.waiting|
      ensures walk == NIL ==> tail == Tail(s.waiting)
    {
      hide Rep;
      RepShape(conn[..], info[..], active, waitingList, s);
      ghost var k := 0;
      walk, tail := waitingList, NIL;
      while walk != NIL
        invariant 0 <= k <= |s.waiting| && walk == Leader(s.waiting, k) && (walk == NIL ==> k == |s.waiting|)
        invariant tail == Leader(s.waiting, k - 1)
        invariant forall j :: 0 <= j < k ==> !Wanting(s.waiting[j], KeyOf(conn[hc]))
        decreases |s.waiting| - k
      {
        LineMeans(conn[..], info[..], active, waitingList, s, k);
        if conn[..][walk].start == conn[hc].start && conn[walk].entry == conn[hc].entry {
          return;
        }
        if k + 1 < |s.waiting| {
          LineMeans(conn[..], info[..], active, waitingList, s, k + 1);
        }
        tail, walk := walk, conn[..][walk].next;
        k := k + 1;
      }
    }

    /** Blocks a connection until a piece has been read.  forkFd is the socket of
        a helper started on the way, or negative when none can be started; false
        is the source's exit when there is no first helper.  Requests may be for
        any length; only those for the rest of their chunk keep lengths equal. */
    method ScheduleAsyncRead(hc: nat, startByte: int, length: int, timely: bool, forkFd: int)
        returns (ok: bool, request: Option<Sent>)
      requires InOrder() && hc < conn.Length && Blocks(All(s), hc) == 0 && conn[hc].entry != NIL
      requires forall i :: 0 <= i < |s.slots| ==> s.slots[i].fd != forkFd
      modifies this`active, this`waitingList, this`s, conn, info
      ensures ok <==> Step(old(s), info.Length, Ask(hc, Key(old(conn[hc].entry), startByte), timely, forkFd)).Some?
      ensures ok <==> old(|s.slots|) > 0 || forkFd >= 0
      ensures ok ==>
                var e := Ask(hc, Key(old(conn[hc].entry), startByte), timely, forkFd);
                && InOrder() && Step(old(s), info.Length, e) == Some(s) && Adds(All(old(s)), All(s), hc)
                && request == Carried(Written(old(s), info.Length, e), length)
                && (old(Valid()) ==> (Valid() <==> length == PieceLength(sizes, e.key)))
    {
      hide Rep, Inv, Blocks, Adds, Request, All, Measured, Written;
      ghost var recs, r := conn[..], Conn(conn[hc].entry, startByte, length, NIL, NIL);
      ghost var e := Ask(hc, KeyOf(r), timely, forkFd);
      ok, request := Schedule(hc, startByte, length, timely, forkFd);
      if ok && Measured(recs, All(old(s)), sizes) {
        MeasuredAfterRequest(recs, conn[..], old(s), info.Length, e, r, sizes);
      }
    }

    /** The same, when lengths are not looked at. */
    method Schedule(hc: nat, startByte: int, length: int, timely: bool, forkFd: int)
        returns (ok: bool, request: Option<Sent>)
      requires InOrder() && hc < conn.Length && Blocks(All(s), hc) == 0 && conn[hc].entry != NIL
      requires forall i :: 0 <= i < |s.slots| ==> s.slots[i].fd != forkFd
      modifies this`active, this`waitingList, this`s, conn, info
      ensures ok <==> old(|s.slots|) > 0 || forkFd >= 0
      ensures Requestable(old(s))
      ensures ok ==> InOrder()
      ensures ok ==> s == Request(old(s), info.Length, hc, Key(old(conn[hc].entry), startByte), timely, forkFd)
      ensures ok ==> Adds(All(old(s)), All(s), hc)
      ensures ok ==>
                var e := Ask(hc, Key(old(conn[hc].entry), startByte), timely, forkFd);
                request == Carried(Written(old(s), info.Length, e), length)
      ensures SameLengths(old(conn[..])[hc := Conn(old(conn[hc].entry), startByte, length, NIL, NIL)], conn[..])
    {
      hide Rep, Inv, Blocks, Adds, Request, All, Reading, Spare, Queued;
      ghost var table, r := info[..], Conn(conn[hc].entry, startByte, length, NIL, NIL);
      NewcomerReset(conn[..], table, active, waitingList, s, hc, r);
      if s.slots != [] || forkFd >= 0 {
        RequestInv(s, info.Length, hc, KeyOf(r), timely, forkFd);
      }
      conn[hc] := Conn(conn[hc].entry, startByte, length, NIL, NIL);
      assert conn[..] == old(conn[..])[hc := r];

      var i := FindReader(hc);
      if i < active {
        RequestJoins(conn[..], table, active, waitingList, s, hc, timely, forkFd);
        assert info[i] == table[i];
        Link(info[i].hc, hc);
        s := Request(s, info.Length, hc, KeyOf(r), timely, forkFd);
        return true, None;
      }
      i := FindSpare();
      if i < active {
        RequestTakes(conn[..], table, active, waitingList, s, hc, timely, forkFd);
        var _, sent := AddCurrentReader(hc, i);
        s := Request(s, info.Length, hc, KeyOf(r), timely, forkFd);
        return true, sent;
      }
      var walk, tail := FindWaiting(hc);
      if walk != NIL {
        NewcomerShape(conn[..], s, info.Length, hc);
        RequestQueues(conn[..], table, active, waitingList, s, hc, timely, forkFd);
        Link(walk, hc);
        s := Request(s, info.Length, hc, KeyOf(r), timely, forkFd);
        return true, None;
      }
      ok, request := StartOrWait(hc, tail, timely, forkFd);
    }

    /** Nobody reads the piece or waits for it, and no helper is free: starts a
        helper for hc or puts hc in line. */
    method StartOrWait(hc: nat, tail: int, timely: bool, forkFd: int) returns (ok: bool, request: Option<Sent>)
      requires Represents() && hc < conn.Length && Newcomer(conn[..], s, info.Length, hc) && tail == Tail(s.waiting)
      requires Unmatched(s, KeyOf(conn[hc])) && info.Length > 0
      requires forall i :: 0 <= i < |s.slots| ==> s.slots[i].fd != forkFd
      modifies this`active, this`waitingList, this`s, conn, info
      ensures ok <==> old(|s.slots|) > 0 || forkFd >= 0
      ensures ok ==> Represents() && s == Request(old(s), info.Length, hc, KeyOf(old(conn[hc])), timely, forkFd)
      ensures SameLengths(old(conn[..]), conn[..])
      ensures request == if Forks(old(s), info.Length, timely, forkFd)
                         then Some(Sent(old(|s.slots|), KeyOf(old(conn[hc])), old(conn[hc].len))) else None
    {
      hide Rep, Inv, Blocks, Request, All, Unmatched, Newcomer;
      ghost var recs, table := conn[..], info[..];
      NewcomerShape(recs, s, info.Length, hc);
      assert KeyOf(recs[hc]) == KeyOf(conn[hc]);
      ghost var s' := RequestStarts(recs, table, active, waitingList, s, hc, timely, forkFd);
      if active == 0 || (active < info.Length && timely) {
        info[active] := info[active].(fd := forkFd);
        if forkFd >= 0 {
          active := active + 1;
          var _, sent := AddCurrentReader(hc, active - 1);
          assert info[..] == table[active - 1 := Helper(forkFd, hc)];
          s := s';
          return true, sent;
        }
        if active == 0 {
          return false, None;
        }
        SpareRow(recs, table, active, waitingList, s, info[..]);
      }
      RequestWaits(recs, info[..], active, waitingList, s, hc, timely, forkFd);
      s := s';
      if tail != NIL {
        conn[tail] := conn[tail].(next := hc);
        assert conn[..] == recs[tail := recs[tail].(next := hc)];
      } else {
        waitingList := hc;
      }
      return true, None;
    }

    /** hc goes behind the connection at the front of a group. */
    method Link(front: nat, hc: nat)
      requires front < conn.Length && hc < conn.Length
      modifies conn
      ensures conn[..] == Linked(old(conn[..]), front, hc) && SameLengths(old(conn[..]), conn[..])
    {
      conn[hc] := conn[hc].(siblings := conn[front].siblings);
      conn[front] := conn[front].(siblings := hc);
    }

    /** A helper that works for hc's group has sent a message. */
    method CurrentReaderDone(hc: nat, fd: int, message: string)
        returns (ending: Ending, resumed: seq<nat>, request: Option<Sent>)
      requires InOrder()
      modifies this`waitingList, this`s, conn, info
      ensures ending == Exit <==> message == [] || !Matches(old(s).slots, fd, hc)
      ensures ending != Exit ==>
                var i := RowOf(old(s).slots, fd);
                var e, j := EventOf(i, message), NextRow(i, message);
                && Busy(old(s), i) && (ending == Fault <==> Faults(old(s), e))
                && (ending == Overrun <==> !Faults(old(s), e) && e.Finish? && old(s).waiting != [] && j >= info.Length)
                && (ending == Fine ==>
                     && Represents() && Step(old(s), info.Length, e) == Some(s)
                     && resumed == ResumedBy(old(s), e)
                     && Asks(request, Written(old(s), info.Length, e)))
                && (ending == Fine && e.Finish? ==> (Conserves(old(s), i, s) <==> old(s).waiting == [] || j == i))
                && (ending == Fine && (e.Again? || old(s).waiting == [] || j == i) ==>
                     InOrder() && (old(Valid()) ==> Valid()))
    {
      hide Rep, Inv, Conserves, Complete, All, RowOf, Blocks, Measured, Faults, Written;
      ghost var was, recs := s, conn[..];
      ending, resumed, request := FinishRead(hc, fd, message);
      if ending == Fine {
        EventGroups(was, info.Length, EventOf(RowOf(was.slots, fd), message));
        if Measured(recs, All(was), sizes) {
          MeasuredAfterEvent(recs, conn[..], was, s, sizes);
        }
      }
    }

    /** The same when lengths are not looked at. */
    method FinishRead(hc: nat, fd: int, message: string)
        returns (ending: Ending, resumed: seq<nat>, request: Option<Sent>)
      requires InOrder()
      modifies this`waitingList, this`s, conn, info
      ensures ending == Exit <==> message == [] || !Matches(old(s).slots, fd, hc)
      ensures ending != Exit ==>
                var i := RowOf(old(s).slots, fd);
                var e, j := EventOf(i, message), NextRow(i, message);
                && Busy(old(s), i) && (ending == Fault <==> Faults(old(s), e))
                && (ending == Overrun <==> !Faults(old(s), e) && e.Finish? && old(s).waiting != [] && j >= info.Length)
                && (ending == Fine ==>
                     && Represents() && Step(old(s), info.Length, e) == Some(s)
                     && resumed == ResumedBy(old(s), e)
                     && Asks(request, Written(old(s), info.Length, e)))
                && (ending == Fine && e.Finish? ==> (Conserves(old(s), i, s) <==> old(s).waiting == [] || j == i))
                && (ending == Fine && (e.Again? || old(s).waiting == [] || j == i) ==> InOrder())
      ensures SameLengths(old(conn[..]), conn[..])
    {
      hide Rep, Inv, Conserves, Complete, All, RowOf, IsGroup, Blocks, Spoiled, Alive;
      ending, resumed, request := Fine, [], None;
      ghost var table := info[..];
      var pos := MatchHelperToPos(fd, hc);
      if pos.None? || message == [] {
        return Exit, [], None;
      }
      var i := pos.value;
      RepShape(conn[..], table, active, waitingList, s);
      RowMeans(conn[..], table, active, waitingList, s, i);
      info[i] := info[i].(hc := NIL);
      if IDLE <= message {
        if |message| == 5 {
          FrontAlive(s.slots[i].group.value);
          ending, request := AddCurrentReader(hc, i);
          assert ending == Fine ==> info[..] == table;
          return ending, [], request;
        }
        i := Clip(message);
      }
      var ok;
      ok, resumed := ResumeSiblings(hc, s.slots[pos.value].group.value);
      if !ok {
        return Fault, resumed, None;
      }
      ending, request := HandOver(pos.value, i, table);
    }

    /** Clips a stale idle off the message; what it leaves in i is the length. */
    method Clip(message: string) returns (i: nat)
      requires |message| > 5
      ensures i == |message|
    {
      var junk := message;
      i := 5;
      while i < |message|
        invariant 5 <= i <= |message| == |junk|
      {
        junk := junk[i - 5 := junk[i]];
        i := i + 1;
      }
    }

    /** The helper of a row is done and the row is marked empty, where table was
        before; the group first in line, if there is one, goes to row j. */
    method HandOver(row: nat, j: nat, ghost table: seq<Helper>) returns (ending: Ending, request: Option<Sent>)
      requires Rep(conn[..], table, active, waitingList, s) && Inv(s, |table|) && Busy(s, row)
      requires |table| == info.Length && row < |table| && info[..] == table[row := Helper(table[row].fd, NIL)]
      modifies this`waitingList, this`s, conn, info
      ensures ending == if old(s).waiting == [] then Fine
                        else if !Alive(old(s).waiting[0]) then Fault else if j >= info.Length then Overrun else Fine
      ensures ending == Fine ==>
                && Represents() && s == Complete(old(s), row, j)
                && Asks(request, Written(old(s), info.Length, Finish(row, j)))
                && (Conserves(old(s), row, s) <==> old(s).waiting == [] || j == row)
                && (old(s).waiting == [] || j == row ==> InOrder())
      ensures SameLengths(old(conn[..]), conn[..])
    {
      hide Rep, Inv, Conserves, Complete, All, Blocks, Alive;
      ghost var was, recs := s, conn[..];
      RepShape(recs, table, active, waitingList, s);
      FinishRep(recs, table, active, waitingList, s, row, j);
      NobodyLostExactly(s, info.Length, row, j);
      if s.waiting == [] || j == row {
        CompleteInv(s, info.Length, row, j);
      }
      s := Complete(s, row, j);
      if waitingList == NIL {
        return Fine, None;
      }
      LineMeans(recs, table, active, waitingList, was, 0);
      FrontAlive(was.waiting[0]);
      var next := waitingList;
      waitingList := conn[next].next;
      conn[next] := conn[next].(next := NIL);
      ending, request := AddCurrentReader(next, j);
      assert conn[..] == recs[next := recs[next].(next := NIL)];
    }

    /** Resumes the connections linked behind hc, hc first; false is the fault at
        one that has ended. */
    method ResumeSiblings(hc: nat, ghost g: Group) returns (ok: bool, resumed: seq<nat>)
      requires IsGroup(conn[..], g) && g.members[0] == hc
      ensures ok <==> !Spoiled(g)
      ensures ok ==> resumed == g.members
    {
      resumed := [];
      var c: int := hc;
      ghost var k := 0;
      while c != NIL
        invariant 0 <= k <= |g.members| && resumed == g.members[..k] && c == At(g.members, k)
        invariant c == NIL ==> k == |g.members|
        invariant forall i :: 0 <= i < k ==> g.members[i] !in g.ended
        decreases |g.members| - k
      {
        assert conn[..][g.members[k]].siblings == At(g.members, k + 1);
        if conn[c].entry == NIL {
          assert g.members[k] in g.ended;
          return false, resumed;
        }
        resumed := resumed + [c];
        c := conn[c].siblings;
        k := k + 1;
      }
      return true, resumed;
    }

    /** The rows behind i, up to the last, move up by one. */
    method MoveRowsUp(i: nat, last: nat)
      requires i <= last < info.Length
      modifies info
      ensures forall k :: 0 <= k < info.Length ==> info[k] == old(info[..])[if i <= k < last then k + 1 else k]
    {
      ghost var table := info[..];
      var j := i;
      while j < last
        invariant i <= j <= last
        invariant forall k :: 0 <= k < info.Length ==> info[k] == table[if i <= k < j then k + 1 else k]
      {
        info[j] := info[j + 1];
        j := j + 1;
      }
    }

    /** A helper with nothing to do has gone away; the rows behind it move up. */
    method HelperGoneIdle(fd: int) returns (ending: Ending)
      requires InOrder()
      modifies this`active, this`s, info
      ensures ending == if Matches(old(s).slots, fd, NIL) then Fine else Exit
      ensures ending == Fine ==>
                && InOrder() && Step(old(s), info.Length, Gone(RowOf(old(s).slots, fd))) == Some(s)
                && (old(Valid()) ==> Valid())
    {
      hide Rep, Inv, Measured, Blocks, Distinct;
      ghost var recs, table, was := conn[..], info[..], s;
      var pos := MatchHelperToPos(fd, NIL);
      if pos.None? {
        return Exit;
      }
      RepShape(recs, table, active, waitingList, s);
      RowMeans(recs, table, active, waitingList, s, pos.value);
      active := active - 1;
      MoveRowsUp(pos.value, active);
      LeaveRep(recs, table, active + 1, waitingList, s, pos.value, info[..]);
      LeaveInv(s, info.Length, pos.value);
      s := Leave(s, pos.value);
      EventGroups(was, info.Length, Gone(pos.value));
      if Measured(recs, All(was), sizes) {
        MeasuredAfterEvent(recs, recs, was, s, sizes);
      }
      return Fine;
    }
  }

  /** Helper i has finished and the group first in line goes to row j. */
  lemma {:induction false} FinishRep(conn: seq<Conn>, info: seq<Helper>, active: int, head: int, s: State, i: nat,
                                     j: nat)
    requires Rep(conn, info, active, head, s) && Inv(s, |info|) && i < active && s.slots[i].group.Some?
    ensures |s.slots| == active <= |info| && (head == NIL <==> s.waiting == [])
    ensures s.waiting == [] ==> Complete(s, i, j) == Complete(s, i, i)
    ensures var s', info' := Complete(s, i, j), info[i := Helper(info[i].fd, NIL)];
            if s.waiting == [] then Rep(conn, info', active, head, s')
            else 0 <= head < |conn|
                 && (j < |info| ==>
                      Rep(conn[head := conn[head].(next := NIL)], info'[j := Helper(info'[j].fd, head)],
                          active, conn[head].next, s'))
  {
    hide Rep, Inv;
    RepShape(conn, info, active, head, s);
    ClearRep(conn, info, active, head, s, i);
    var mid := s.(slots := s.slots[i := s.slots[i].(group := None)]);
    if s.waiting != [] {
      LineMeans(conn, info, active, head, s, 0);
      if j < |info| {
        ClearedOnce(s, |info|, i);
        PromoteRep(conn, info[i := Helper(info[i].fd, NIL)], active, head, mid, j);
      }
    }
  }

  lemma {:induction false} ClearedOnce(s: State, maxHelp: nat, i: nat)
    requires Inv(s, maxHelp) && i < |s.slots|
    ensures ConnsOnce(All(s.(slots := s.slots[i := s.slots[i].(group := None)])))
  {
    var mid := s.(slots := s.slots[i := s.slots[i].(group := None)]);
    assert All(mid) == All(s)[i := None];
    forall c ensures Blocks(All(mid), c) <= 1 {
      CountsSet(All(s), i, None, Key(0, 0), c);
      assert Blocks(All(s), c) <= 1;
    }
  }

  /** Rows past the active ones may hold anything. */
  lemma {:induction false} SpareRow(conn: seq<Conn>, info: seq<Helper>, active: int, head: int, s: State,
                                    info': seq<Helper>)
    requires Rep(conn, info, active, head, s) && |info'| == |info|
    requires forall i :: 0 <= i < active && i < |info| ==> info'[i] == info[i]
    ensures Rep(conn, info', active, head, s)
  {
  }

  /** The sizes that Rep gives, and where the line starts. */
  lemma {:induction false} RepShape(conn: seq<Conn>, info: seq<Helper>, active: int, head: int, s: State)
    requires Rep(conn, info, active, head, s)
    ensures |s.slots| == active <= |info| && head == Leader(s.waiting, 0) && (head == NIL <==> s.waiting == [])
  {
    if s.waiting != [] {
      assert NIL < Leader(s.waiting, 0);
    }
  }
}
