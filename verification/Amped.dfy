/** The AMPED server: clients that move through the stages of a reply, and a
    fixed table of helper processes that map files for them. */
module Amped {
  import opened Lists

  const N_HELPERS := 128

  /** STATUS_REQUEST_START and so on; a client that is finished is closed at once.
      got says that the helper's answer is in the client's buffer. */
  datatype Status = Closed | Start | Found | Waitlisted | HeaderWritten | MapRequested(got: bool) | DataWriting

  /** The client of each helper, or NIL; helpers_inuse; the clients by descriptor;
      and which helpers have been asked and have not answered yet. */
  datatype State = State(rows: seq<int>, inuse: int, clients: seq<Status>, owes: seq<bool>)

  datatype Fault = BadIndex | NoHelperFound | AnswerUnexpected

  datatype Outcome = Fine(s: State) | Failed(f: Fault)

  datatype Event =
    | Accept(c: nat)
    /** The client's socket can be written; ok is how the file calls go. */
    | CanWrite(c: nat, ok: bool)
    | HangUp(c: nat)
    | HelperCanWrite(h: nat)
    | HelperAnswers(h: nat)

  predicate Owning(st: Status) { st.HeaderWritten? || st.MapRequested? || st.DataWriting? }

  /** hi_get_next_helper and hi_get_helper_for_fd: the first row with the client. */
  function FirstRow(rows: seq<int>, c: int): (i: int)
    ensures NIL <= i < |rows|
    ensures i != NIL ==> rows[i] == c && forall j :: 0 <= j < i ==> rows[j] != c
    ensures i == NIL <==> c !in rows
  {
    if rows == [] then NIL
    else if rows[0] == c then 0
    else
      var i := FirstRow(rows[1..], c);
      assert rows == [rows[0]] + rows[1..];
      if i == NIL then NIL else i + 1
  }

  // ------------------------------------------------------------------
  // The steps

  function WithStatus(s: State, c: nat, st: Status): (s': State)
    requires c < |s.clients|
  {
    s.(clients := s.clients[c := st])
  }

  function Assign(s: State, c: nat, h: nat): (s': State)
    requires c < |s.clients| && h < |s.rows|
  {
    State(s.rows[h := c], s.inuse + 1, s.clients[c := HeaderWritten], s.owes)
  }

  /** write_http_response, and the close that follows when the reply is finished. */
  function Respond(s: State, c: nat, ok: bool): (o: Outcome)
    requires c < |s.clients|
  {
    match s.clients[c]
    case Closed => Fine(s)
    case Start => Fine(WithStatus(s, c, if ok then Found else Closed))
    case Found =>
      if !ok then Fine(WithStatus(s, c, Closed))
      else
        var h := FirstRow(s.rows, NIL);
        if h == NIL then Fine(WithStatus(s, c, Waitlisted)) else Fine(Assign(s, c, h))
    case Waitlisted =>
      if s.inuse == |s.rows| then Fine(s)
      else
        var h := FirstRow(s.rows, NIL);
        if h == NIL then Failed(BadIndex) else Fine(Assign(s, c, h))
    case HeaderWritten => Fine(s)
    case MapRequested(got) => Fine(if got then WithStatus(s, c, DataWriting) else s)
    case DataWriting =>
      var h := FirstRow(s.rows, c);
      if h == NIL then Failed(NoHelperFound)
      else Fine(State(s.rows[h := NIL], s.inuse - 1, s.clients[c := Closed], s.owes))
  }

  /** The helper's socket can be written: the request goes out once. */
  function Ask(s: State, h: nat): (s': State)
    requires h < |s.rows| && h < |s.owes|
  {
    var c := s.rows[h];
    if 0 <= c < |s.clients| && s.clients[c].HeaderWritten?
    then s.(clients := s.clients[c := MapRequested(false)], owes := s.owes[h := true])
    else s
  }

  function Answer(s: State, h: nat): (o: Outcome)
    requires h < |s.rows| && h < |s.owes|
  {
    var c := s.rows[h];
    if 0 <= c < |s.clients| && s.clients[c].MapRequested?
    then Fine(s.(clients := s.clients[c := MapRequested(true)], owes := s.owes[h := false]))
    else Failed(AnswerUnexpected)
  }

  predicate Enabled(s: State, e: Event) {
    match e
    case Accept(c) => c < |s.clients| && s.clients[c].Closed?
    case CanWrite(c, _) => c < |s.clients|
    case HangUp(c) => c < |s.clients|
    case HelperCanWrite(h) => h < |s.rows| && h < |s.owes|
    case HelperAnswers(h) => h < |s.rows| && h < |s.owes| && s.owes[h]
  }

  function Step(s: State, e: Event): (o: Outcome)
    requires Enabled(s, e)
  {
    match e
    case Accept(c) => Fine(WithStatus(s, c, Start))
    case CanWrite(c, ok) => Respond(s, c, ok)
    case HangUp(c) => Fine(WithStatus(s, c, Closed))
    case HelperCanWrite(h) => Fine(Ask(s, h))
    case HelperAnswers(h) => Answer(s, h)
  }

  /** Events that cannot happen are passed over. */
  function Run(s: State, es: seq<Event>): (o: Outcome)
    decreases |es|
  {
    if es == [] then Fine(s)
    else if !Enabled(s, es[0]) then Run(s, es[1..])
    else
      var o := Step(s, es[0]);
      if o.Fine? then Run(o.s, es[1..]) else o
  }

  // ------------------------------------------------------------------
  // In every run

  /** helpers_inuse is the number of helpers with a client, and a client that is
      past the header has a helper. */
  ghost predicate Backed(s: State) {
    && s.inuse == |s.rows| - Occurs(s.rows, NIL)
    && |s.owes| == |s.rows|
    && (forall c :: 0 <= c < |s.clients| && Owning(s.clients[c]) ==> c in s.rows)
  }

  lemma {:induction false} RespondBacked(s: State, c: nat, ok: bool)
    requires Backed(s) && c < |s.clients|
    ensures Respond(s, c, ok).Fine? && Backed(Respond(s, c, ok).s)
  {
    hide Backed, FirstRow;
    match s.clients[c] {
      case Closed =>
      case Start => LeavesRows(s, c, if ok then Found else Closed);
      case Found =>
        if ok && NIL in s.rows {
          AssignBacked(s, c, FirstRow(s.rows, NIL));
        } else {
          LeavesRows(s, c, if ok then Waitlisted else Closed);
        }
      case Waitlisted =>
        SomeFree(s);
        if s.inuse != |s.rows| {
          AssignBacked(s, c, FirstRow(s.rows, NIL));
        }
      case HeaderWritten =>
      case MapRequested(got) => LeavesRows(s, c, if got then DataWriting else MapRequested(false));
      case DataWriting =>
        OwnerHasRow(s, c);
        ReleaseBacked(s, c, FirstRow(s.rows, c));
    }
  }

  /** A helper is free while fewer are in use than there are. */
  lemma {:induction false} SomeFree(s: State)
    requires Backed(s)
    ensures s.inuse != |s.rows| <==> NIL in s.rows
  {
    OccursIn(s.rows, NIL);
  }

  lemma {:induction false} OwnerHasRow(s: State, c: nat)
    requires Backed(s) && c < |s.clients| && Owning(s.clients[c])
    ensures c in s.rows
  {
  }

  /** A client changes stage and the rows stay. */
  lemma {:induction false} LeavesRows(s: State, c: nat, st: Status)
    requires Backed(s) && c < |s.clients| && (Owning(st) ==> Owning(s.clients[c]))
    ensures Backed(WithStatus(s, c, st))
  {
  }

  lemma {:induction false} AssignBacked(s: State, c: nat, h: int)
    requires Backed(s) && c < |s.clients| && 0 <= h < |s.rows| && s.rows[h] == NIL
    ensures Backed(Assign(s, c, h))
  {
    OccursSet(s.rows, h, c, NIL);
    OthersKeep(s.rows, h, c, NIL);
  }

  lemma {:induction false} ReleaseBacked(s: State, c: nat, h: int)
    requires Backed(s) && c < |s.clients| && 0 <= h < |s.rows| && s.rows[h] == c
    ensures Backed(State(s.rows[h := NIL], s.inuse - 1, s.clients[c := Closed], s.owes))
  {
    OccursSet(s.rows, h, NIL, NIL);
    OthersKeep(s.rows, h, NIL, c);
  }

  /** Changing a row from y to x takes only y from it. */
  lemma {:induction false} OthersKeep(rows: seq<int>, h: nat, x: int, y: int)
    requires h < |rows| && rows[h] == y
    ensures x in rows[h := x] && forall c :: c in rows && c != y ==> c in rows[h := x]
  {
    var rows' := rows[h := x];
    assert rows'[h] == x;
    forall c | c in rows && c != y ensures c in rows' {
      var i :| 0 <= i < |rows| && rows[i] == c;
      assert rows'[i] == c;
    }
  }

  lemma {:induction false} StepBacked(s: State, e: Event)
    requires Backed(s) && Enabled(s, e)
    ensures Step(s, e).Fine? ==> Backed(Step(s, e).s)
    ensures Step(s, e).Failed? ==> Step(s, e).f == AnswerUnexpected
  {
    match e {
      case CanWrite(c, ok) => RespondBacked(s, c, ok);
      case Accept(c) =>
      case HangUp(c) =>
      case HelperCanWrite(h) =>
      case HelperAnswers(h) =>
    }
  }

  /** Whatever clients do, also hang up: helpers_inuse counts the helpers with a
      client, so the index that a waitlisted client uses is valid, and a client
      that has written its reply finds a helper to release. */
  lemma {:induction false} RunBacked(s: State, es: seq<Event>)
    requires Backed(s)
    ensures Run(s, es).Fine? ==> Backed(Run(s, es).s)
    ensures Run(s, es).Failed? ==> Run(s, es).f == AnswerUnexpected
    decreases |es|
  {
    hide Step, Enabled, Backed;
    if es != [] {
      if Enabled(s, es[0]) {
        StepBacked(s, es[0]);
        if Step(s, es[0]).Fine? {
          RunBacked(Step(s, es[0]).s, es[1..]);
        }
      } else {
        RunBacked(s, es[1..]);
      }
    }
  }

  function Init(clients: nat): (s: State) {
    State(seq(N_HELPERS, _ => NIL), 0, seq(clients, _ => Closed), seq(N_HELPERS, _ => false))
  }

  lemma {:induction false} AllNil(rows: seq<int>)
    requires forall i :: 0 <= i < |rows| ==> rows[i] == NIL
    ensures Occurs(rows, NIL) == |rows|
  {
    if rows != [] {
      AllNil(rows[1..]);
    }
  }

  // ------------------------------------------------------------------
  // What each stage does, on the tables

  /** h is the lowest row with that client, or without one for NIL. */
  ghost predicate Lowest(rows: seq<int>, c: int, h: nat) {
    h < |rows| && rows[h] == c && forall j :: 0 <= j < h ==> rows[j] != c
  }

  /** A client whose file calls fail is done; the file is found first, and looked
      for no more. */
  lemma {:induction false} FileStages(s: State, c: nat, ok: bool)
    requires c < |s.clients| && (s.clients[c].Start? || (s.clients[c].Found? && !ok))
    ensures Respond(s, c, ok)
            == Fine(State(s.rows, s.inuse, s.clients[c := if ok then Found else Closed], s.owes))
  {
  }

  /** A client that has written its header, or waits for a helper since, gets the
      free helper with the lowest row, and waits exactly when there is none. */
  lemma {:induction false} HelperStage(s: State, c: nat, ok: bool, h: nat)
    requires Backed(s) && c < |s.clients| && (s.clients[c].Waitlisted? || (s.clients[c].Found? && ok))
    ensures Lowest(s.rows, NIL, h) ==>
              Respond(s, c, ok)
              == Fine(State(s.rows[h := c], s.inuse + 1, s.clients[c := HeaderWritten], s.owes))
    ensures NIL !in s.rows ==>
              Respond(s, c, ok) == Fine(State(s.rows, s.inuse, s.clients[c := Waitlisted], s.owes))
  {
    SomeFree(s);
    if Lowest(s.rows, NIL, h) {
      assert NIL in s.rows;
      assert FirstRow(s.rows, NIL) == h;
    }
    assert s.clients[c].Waitlisted? ==> s.clients[c := Waitlisted] == s.clients;
  }

  /** With its answer a client goes on to its data; without one, and before its
      request is out, it stays as it is. */
  lemma {:induction false} AnswerStage(s: State, c: nat, ok: bool)
    requires c < |s.clients| && (s.clients[c].MapRequested? || s.clients[c].HeaderWritten? || s.clients[c].Closed?)
    ensures Respond(s, c, ok)
            == Fine(if s.clients[c] == MapRequested(true)
                    then State(s.rows, s.inuse, s.clients[c := DataWriting], s.owes) else s)
  {
  }

  /** When its data is written a client gives its helper back and is done. */
  lemma {:induction false} DataStage(s: State, c: nat, ok: bool, h: nat)
    requires c < |s.clients| && s.clients[c].DataWriting? && Lowest(s.rows, c, h)
    ensures Respond(s, c, ok) == Fine(State(s.rows[h := NIL], s.inuse - 1, s.clients[c := Closed], s.owes))
  {
    assert FirstRow(s.rows, c) == h;
  }

  /** A request goes out exactly for a client that has written its header and
      nothing else yet, and then an answer is owed; an answer that is taken is the client's. */
  lemma {:induction false} HelperStages(s: State, h: nat, c: nat)
    requires h < |s.rows| && h < |s.owes| && c < |s.clients| && s.rows[h] == c
    ensures Ask(s, h) == if s.clients[c] == HeaderWritten
                         then State(s.rows, s.inuse, s.clients[c := MapRequested(false)], s.owes[h := true]) else s
    ensures Answer(s, h) == if s.clients[c].MapRequested?
                            then Fine(State(s.rows, s.inuse, s.clients[c := MapRequested(true)], s.owes[h := false]))
                            else Failed(AnswerUnexpected)
  {
  }

  /** A waitlisted client is served at its next turn after a helper has been given back. */
  lemma {:induction false} ServedAfterRelease(s: State, c: nat, d: nat, x: bool, y: bool)
    requires Backed(s) && c < |s.clients| && d < |s.clients| && s.clients[c].Waitlisted? && s.clients[d].DataWriting?
    ensures var o := Run(s, [CanWrite(d, x), CanWrite(c, y)]);
            && o.Fine? && |o.s.clients| == |s.clients| && o.s.clients[c] == HeaderWritten
            && c in o.s.rows && o.s.inuse == s.inuse
  {
    hide Backed;
    var h := FirstRow(s.rows, d);
    OwnerHasRow(s, d);
    DataStage(s, d, x, h);
    RespondBacked(s, d, x);
    var s1 := Respond(s, d, x).s;
    assert s1.rows[h] == NIL;
    var g := FirstRow(s1.rows, NIL);
    HelperStage(s1, c, y, g);
    var s2 := Respond(s1, c, y).s;
    assert s2.rows[g] == c;
    TwoTurns(s, CanWrite(d, x), s1, CanWrite(c, y), s2);
  }

  lemma {:induction false} TwoTurns(s: State, a: Event, s1: State, b: Event, s2: State)
    requires Enabled(s, a) && Step(s, a) == Fine(s1) && Enabled(s1, b) && Step(s1, b) == Fine(s2)
    ensures Run(s, [a, b]) == Fine(s2)
  {
    hide Step, Enabled;
    assert [a, b][1..] == [b] && [b][1..] == [];
    assert Run(s2, []) == Fine(s2) && Run(s1, [b]) == Fine(s2);
  }

  /** A whole reply, served alone, leaves helpers and counters as they were. */
  lemma {:induction false} ReplyRoundTrip(s: State, c: nat, h: nat)
    requires Backed(s) && c < |s.clients| && s.clients[c].Start? && Lowest(s.rows, NIL, h)
    requires h < |s.owes| && !s.owes[h] && c !in s.rows
    ensures var o1 := Run(s, [CanWrite(c, true), CanWrite(c, true)]);
            && o1.Fine?
            && var o2 := Run(o1.s, [HelperCanWrite(h), HelperAnswers(h)]);
               && o2.Fine?
               && Run(o2.s, [CanWrite(c, true), CanWrite(c, true)]) == Fine(s.(clients := s.clients[c := Closed]))
  {
    hide Backed;
    FileStages(s, c, true);
    RespondBacked(s, c, true);
    var s1 := Respond(s, c, true).s;
    HelperStage(s1, c, true, h);
    var s2 := Respond(s1, c, true).s;
    TwoTurns(s, CanWrite(c, true), s1, CanWrite(c, true), s2);
    HelperStages(s2, h, c);
    var s3 := Ask(s2, h);
    HelperStages(s3, h, c);
    var s4 := Answer(s3, h).s;
    TwoTurns(s2, HelperCanWrite(h), s3, HelperAnswers(h), s4);
    AnswerStage(s4, c, true);
    var s5 := Respond(s4, c, true).s;
    DataStage(s5, c, true, h);
    var s6 := Respond(s5, c, true).s;
    TwoTurns(s4, CanWrite(c, true), s5, CanWrite(c, true), s6);
    assert s6.rows == s.rows && s6.owes == s.owes && s6.clients == s.clients[c := Closed];
  }

  // ------------------------------------------------------------------
  // In runs where no client hangs up while it has a helper

  /** A client has a helper exactly in the stages from HEADER_WRITTEN to
      DATA_WRITING, and has only one; a helper owes an answer exactly when its
      client waits for one. */
  ghost predicate Owned(s: State) {
    && Backed(s)
    && (forall h :: 0 <= h < |s.rows| ==>
         s.rows[h] == NIL || (0 <= s.rows[h] < |s.clients| && Owning(s.clients[s.rows[h]])))
    && (forall g, h :: 0 <= g < h < |s.rows| && s.rows[g] != NIL ==> s.rows[g] != s.rows[h])
    && (forall h :: 0 <= h < |s.rows| ==>
         (s.owes[h] <==> s.rows[h] != NIL && s.clients[s.rows[h]] == MapRequested(false)))
  }

  lemma {:induction false} RespondOwned(s: State, c: nat, ok: bool)
    requires Owned(s) && c < |s.clients|
    ensures Respond(s, c, ok).Fine? && Owned(Respond(s, c, ok).s)
  {
    hide Owned, Backed;
    OwnedBacked(s);
    RespondBacked(s, c, ok);
    var h := if s.clients[c].DataWriting? then FirstRow(s.rows, c) else FirstRow(s.rows, NIL);
    if s.clients[c].DataWriting? {
      ReleaseOwned(s, c, h);
    } else if h != NIL && ((s.clients[c].Waitlisted? && s.inuse != |s.rows|) || (s.clients[c].Found? && ok)) {
      AssignOwned(s, c, h);
    } else if s.clients[c] == MapRequested(true) {
      StatusOwned(s, c, DataWriting);
    } else if s.clients[c].Start? || s.clients[c].Found? {
      StatusOwned(s, c, if !ok then Closed else if s.clients[c].Start? then Found else Waitlisted);
    }
  }

  lemma {:induction false} OwnedBacked(s: State)
    requires Owned(s)
    ensures Backed(s)
  {
  }

  /** A client without a helper gets the free helper h. */
  lemma {:induction false} AssignOwned(s: State, c: nat, h: nat)
    requires Owned(s) && c < |s.clients| && !Owning(s.clients[c]) && h < |s.rows| && s.rows[h] == NIL
    requires Backed(Assign(s, c, h))
    ensures Owned(Assign(s, c, h))
  {
    hide Backed;
    assert |s.owes| == |s.rows| by { OwesShape(s); }
    var s' := Assign(s, c, h);
    forall g | 0 <= g < |s.rows| && g != h ensures s'.rows[g] == s.rows[g] && s.rows[g] != c {}
  }

  lemma {:induction false} OwesShape(s: State)
    requires Backed(s)
    ensures |s.owes| == |s.rows|
  {
  }

  /** A client that has written its reply gives its helper back. */
  lemma {:induction false} ReleaseOwned(s: State, c: nat, h: nat)
    requires Owned(s) && c < |s.clients| && s.clients[c].DataWriting? && h < |s.rows| && s.rows[h] == c
    requires Backed(State(s.rows[h := NIL], s.inuse - 1, s.clients[c := Closed], s.owes))
    ensures Owned(State(s.rows[h := NIL], s.inuse - 1, s.clients[c := Closed], s.owes))
  {
    hide Backed;
    assert |s.owes| == |s.rows| by { OwesShape(s); }
    forall g | 0 <= g < |s.rows| && g != h ensures s.rows[g] != c {}
  }

  /** A client changes stage without getting or giving back a helper. */
  lemma {:induction false} StatusOwned(s: State, c: nat, st: Status)
    requires Owned(s) && c < |s.clients| && Owning(st) == Owning(s.clients[c])
    requires st != MapRequested(false) && s.clients[c] != MapRequested(false)
    ensures Owned(WithStatus(s, c, st))
  {
  }

  lemma {:induction false} AnswerOwned(s: State, h: nat)
    requires Owned(s) && Enabled(s, HelperAnswers(h))
    ensures Answer(s, h).Fine? && Owned(Answer(s, h).s)
  {
    StepBacked(s, HelperAnswers(h));
  }

  lemma {:induction false} AskOwned(s: State, h: nat)
    requires Owned(s) && h < |s.rows|
    ensures Owned(Ask(s, h))
  {
    StepBacked(s, HelperCanWrite(h));
  }

  /** A hang-up keeps ownership in order exactly when the client has no helper. */
  lemma {:induction false} HangUpExactly(s: State, c: nat)
    requires Owned(s) && c < |s.clients|
    ensures Owned(WithStatus(s, c, Closed)) <==> !Owning(s.clients[c])
  {
    var s' := WithStatus(s, c, Closed);
    if Owning(s.clients[c]) {
      var h :| 0 <= h < |s.rows| && s.rows[h] == c;
      assert !Owning(s'.clients[s'.rows[h]]);
    }
  }

  /** The client that hangs up, if one does, has no helper. */
  predicate Polite(s: State, e: Event) {
    e.HangUp? && e.c < |s.clients| ==> !Owning(s.clients[e.c])
  }

  predicate PoliteRun(s: State, es: seq<Event>)
    decreases |es|
  {
    es == [] ||
    if !Enabled(s, es[0]) then PoliteRun(s, es[1..])
    else Polite(s, es[0]) && (Step(s, es[0]).Fine? ==> PoliteRun(Step(s, es[0]).s, es[1..]))
  }

  lemma {:induction false} StepOwned(s: State, e: Event)
    requires Owned(s) && Enabled(s, e) && Polite(s, e)
    ensures Step(s, e).Fine? && Owned(Step(s, e).s)
  {
    match e {
      case CanWrite(c, ok) => RespondOwned(s, c, ok);
      case Accept(c) =>
      case HangUp(c) => HangUpExactly(s, c);
      case HelperCanWrite(h) => AskOwned(s, h);
      case HelperAnswers(h) => AnswerOwned(s, h);
    }
  }

  /** Then no assertion fails, and ownership is as described throughout. */
  lemma {:induction false} RunOwned(s: State, es: seq<Event>)
    requires Owned(s) && PoliteRun(s, es)
    ensures Run(s, es).Fine? && Owned(Run(s, es).s)
    decreases |es|
  {
    hide Step, Enabled, Owned, Polite;
    if es != [] {
      if Enabled(s, es[0]) {
        StepOwned(s, es[0]);
        RunOwned(Step(s, es[0]).s, es[1..]);
      } else {
        RunOwned(s, es[1..]);
      }
    }
  }

  lemma {:induction false} InitOwned(clients: nat)
    ensures Owned(Init(clients))
  {
    AllNil(Init(clients).rows);
  }

  /** A client that hangs up while its helper maps the file makes the helper's
      answer unexpected, which stops the server. */
  lemma {:induction false} HangUpStops()
    ensures Run(Init(5), [Accept(4), CanWrite(4, true), CanWrite(4, true), HelperCanWrite(0), HangUp(4),
                          HelperAnswers(0)])
            == Failed(AnswerUnexpected)
  {
    var es := [Accept(4), CanWrite(4, true), CanWrite(4, true), HelperCanWrite(0), HangUp(4), HelperAnswers(0)];
    var s0 := Init(5);
    var s1 := Step(s0, es[0]).s;
    var s2 := Step(s1, es[1]).s;
    assert FirstRow(s2.rows, NIL) == 0;
    var s3 := Step(s2, es[2]).s;
    var s4 := Step(s3, es[3]).s;
    var s5 := Step(s4, es[4]).s;
    assert Step(s5, es[5]) == Failed(AnswerUnexpected);
    assert es[1..][1..] == es[2..] && es[2..][1..] == es[3..] && es[3..][1..] == es[4..]
           && es[4..][1..] == es[5..] && es[5..][1..] == [];
    assert Run(s5, es[5..]) == Failed(AnswerUnexpected);
    assert Run(s4, es[4..]) == Failed(AnswerUnexpected);
    assert Run(s3, es[3..]) == Failed(AnswerUnexpected);
    assert Run(s2, es[2..]) == Failed(AnswerUnexpected);
    assert Run(s1, es[1..]) == Failed(AnswerUnexpected);
  }

  // ------------------------------------------------------------------
  // When an answer is unexpected

  /** A helper owes the client an answer. */
  ghost predicate Owed(s: State, c: int) {
    exists h :: 0 <= h < |s.rows| && h < |s.owes| && s.owes[h] && s.rows[h] == c
  }

  /** Every answer that is owed is waited for, and no two by one client. */
  ghost predicate Expectant(s: State) {
    && |s.owes| == |s.rows|
    && (forall h :: 0 <= h < |s.rows| && s.owes[h] ==>
         0 <= s.rows[h] < |s.clients| && s.clients[s.rows[h]] == MapRequested(false))
    && (forall g, h :: 0 <= g < h < |s.rows| && s.owes[g] && s.owes[h] ==> s.rows[g] != s.rows[h])
  }

  /** The client that hangs up, if one does, is owed no answer. */
  ghost predicate Gentle(s: State, e: Event) { e.HangUp? ==> !Owed(s, e.c) }

  ghost predicate GentleRun(s: State, es: seq<Event>)
    decreases |es|
  {
    es == [] ||
    if !Enabled(s, es[0]) then GentleRun(s, es[1..])
    else Gentle(s, es[0]) && (Step(s, es[0]).Fine? ==> GentleRun(Step(s, es[0]).s, es[1..]))
  }

  lemma {:induction false} OwnedExpectant(s: State)
    requires Owned(s)
    ensures Backed(s) && Expectant(s)
  {
  }

  /** A client that waits for no answer may change stage, and its row be given or taken. */
  lemma {:induction false} StageExpectant(s: State, c: nat, st: Status, rows: seq<int>)
    requires Expectant(s) && c < |s.clients| && !Owed(s, c) && |rows| == |s.rows|
    requires forall h :: 0 <= h < |rows| ==> rows[h] == s.rows[h] || !s.owes[h]
    ensures Expectant(s.(rows := rows, clients := s.clients[c := st]))
  {
    forall h | 0 <= h < |rows| && s.owes[h] ensures rows[h] == s.rows[h] != c {}
  }

  lemma {:induction false} RespondExpectant(s: State, c: nat, ok: bool)
    requires Backed(s) && Expectant(s) && c < |s.clients|
    ensures Respond(s, c, ok).Fine? && Backed(Respond(s, c, ok).s) && Expectant(Respond(s, c, ok).s)
  {
    hide Backed, Expectant;
    RespondBacked(s, c, ok);
    var s' := Respond(s, c, ok).s;
    if s' != s {
      NotAsked(s, c);
      ExpectantShape(s);
      RespondShape(s, c, ok);
      StageExpectant(s, c, s'.clients[c], s'.rows);
      SameExpectant(s.(rows := s'.rows, clients := s.clients[c := s'.clients[c]]), s');
    }
  }

  lemma {:induction false} ExpectantShape(s: State)
    requires Expectant(s)
    ensures |s.owes| == |s.rows| && forall h :: 0 <= h < |s.rows| && s.owes[h] ==> s.rows[h] != NIL
  {
  }

  /** A client that can go on is owed nothing. */
  lemma {:induction false} NotAsked(s: State, c: nat)
    requires Expectant(s) && c < |s.clients| && s.clients[c] != MapRequested(false)
    ensures !Owed(s, c)
  {
  }

  /** A stage changes its client, and at most a row that is free or the client's. */
  lemma {:induction false} RespondShape(s: State, c: nat, ok: bool)
    requires c < |s.clients| && Respond(s, c, ok).Fine?
    ensures var s' := Respond(s, c, ok).s;
            && s'.owes == s.owes && |s'.rows| == |s.rows| && |s'.clients| == |s.clients|
            && s'.clients == s.clients[c := s'.clients[c]]
            && (forall h :: 0 <= h < |s.rows| ==> s'.rows[h] == s.rows[h] || s.rows[h] == NIL || s.rows[h] == c)
  {
    hide FirstRow;
  }

  lemma {:induction false} SameExpectant(a: State, b: State)
    requires Expectant(a) && b == a.(inuse := b.inuse)
    ensures Expectant(b)
  {
  }

  lemma {:induction false} StepExpectant(s: State, e: Event)
    requires Backed(s) && Expectant(s) && Enabled(s, e) && Gentle(s, e)
    ensures Step(s, e).Fine? && Backed(Step(s, e).s) && Expectant(Step(s, e).s)
  {
    hide Backed;
    StepBacked(s, e);
    match e {
      case CanWrite(c, ok) => RespondExpectant(s, c, ok);
      case Accept(c) =>
      case HangUp(c) => StageExpectant(s, c, Closed, s.rows);
      case HelperCanWrite(h) =>
      case HelperAnswers(h) =>
    }
  }

  lemma {:induction false} RunExpectant(s: State, es: seq<Event>)
    requires Backed(s) && Expectant(s) && GentleRun(s, es)
    ensures Run(s, es).Fine? && Backed(Run(s, es).s) && Expectant(Run(s, es).s)
    decreases |es|
  {
    hide Step, Enabled, Backed, Expectant, Gentle;
    if es != [] {
      if Enabled(s, es[0]) {
        StepExpectant(s, es[0]);
        RunExpectant(Step(s, es[0]).s, es[1..]);
      } else {
        RunExpectant(s, es[1..]);
      }
    }
  }

  /** So from the start no assertion fails in any run in which nobody hangs up who
      is owed an answer. */
  lemma {:induction false} GentleNeverFails(clients: nat, es: seq<Event>)
    requires GentleRun(Init(clients), es)
    ensures Run(Init(clients), es).Fine? && Expectant(Run(Init(clients), es).s)
  {
    hide Owned, Backed, Expectant;
    InitOwned(clients);
    OwnedExpectant(Init(clients));
    RunExpectant(Init(clients), es);
  }

  /** A hang-up may be followed by an unexpected answer, with no other client to
      blame, exactly when a helper owes an answer to the client; a client that has
      a helper but is owed none only leaves the helper assigned. */
  lemma {:induction false} UnexpectedExactly(s: State, c: nat)
    requires Backed(s) && Expectant(s) && c < |s.clients|
    ensures (exists es :: GentleRun(WithStatus(s, c, Closed), es) && Run(WithStatus(s, c, Closed), es).Failed?)
            <==> Owed(s, c)
  {
    hide Backed, Expectant, Step;
    var s' := WithStatus(s, c, Closed);
    if Owed(s, c) {
      var h :| 0 <= h < |s.rows| && h < |s.owes| && s.owes[h] && s.rows[h] == c;
      AnswerFails(s', h);
    } else {
      StepExpectant(s, HangUp(c));
      HangUpStep(s, c);
      forall es | GentleRun(s', es) ensures Run(s', es).Fine? {
        RunExpectant(s', es);
      }
    }
  }

  lemma {:induction false} HangUpStep(s: State, c: nat)
    requires c < |s.clients|
    ensures Enabled(s, HangUp(c)) && Step(s, HangUp(c)) == Fine(WithStatus(s, c, Closed))
  {
  }

  lemma {:induction false} AnswerFails(s: State, h: nat)
    requires h < |s.rows| && h < |s.owes| && s.owes[h] && 0 <= s.rows[h] < |s.clients| && s.clients[s.rows[h]].Closed?
    ensures GentleRun(s, [HelperAnswers(h)]) && Run(s, [HelperAnswers(h)]) == Failed(AnswerUnexpected)
  {
  }

  // ------------------------------------------------------------------
  // The server's tables, changed in place

  class Server {
    const helperInfo: array<int>
    const status: array<Status>
    var helpersInuse: int
    ghost var owes: seq<bool>

    ghost function Now(): (s: State) reads this, helperInfo, status {
      State(helperInfo[..], helpersInuse, status[..], owes)
    }

    constructor (maxfds: nat)
      ensures Now() == Init(maxfds) && fresh(helperInfo) && fresh(status)
    {
      helperInfo := new int[N_HELPERS](i => NIL);
      status := new Status[maxfds](i => Closed);
      helpersInuse := 0;
      owes := seq(N_HELPERS, _ => false);
      new;
      assert helperInfo[..] == Init(maxfds).rows && status[..] == Init(maxfds).clients && owes == Init(maxfds).owes;
    }

    /** The loop of hi_get_next_helper (c is NIL) and of hi_get_helper_for_fd. */
    method FindHelper(c: int) returns (i: int)
      ensures i == FirstRow(helperInfo[..], c)
    {
      i := 0;
      while i < helperInfo.Length
        invariant 0 <= i <= helperInfo.Length && forall j :: 0 <= j < i ==> helperInfo[j] != c
      {
        if helperInfo[i] == c {
          assert helperInfo[..][i] == c;
          return;
        }
        i := i + 1;
      }
      assert c !in helperInfo[..];
      return NIL;
    }

    method AssignHelper(c: nat, h: nat)
      requires c < status.Length && h < helperInfo.Length
      modifies this`helpersInuse, helperInfo, status
      ensures Now() == Assign(old(Now()), c, h)
    {
      helperInfo[h] := c;
      helpersInuse := helpersInuse + 1;
      status[c] := HeaderWritten;
      assert helperInfo[..] == old(helperInfo[..])[h := c] && status[..] == old(status[..])[c := HeaderWritten];
    }

    /** One stage of a reply; BadIndex and NoHelperFound do not occur. */
    method WriteResponse(c: nat, ok: bool)
      requires c < status.Length && Backed(Now())
      modifies this`helpersInuse, helperInfo, status
      ensures Respond(old(Now()), c, ok).Fine? && Now() == Respond(old(Now()), c, ok).s && Backed(Now())
    {
      hide Backed;
      RespondBacked(Now(), c, ok);
      ghost var s := Now();
      var st := status[c];
      match st {
        case Closed =>
        case Start =>
          status[c] := if ok then Found else Closed;
          assert Now() == WithStatus(s, c, if ok then Found else Closed);
        case Found =>
          var h := FindHelper(NIL);
          if ok && h != NIL {
            AssignHelper(c, h);
          } else {
            status[c] := if ok then Waitlisted else Closed;
            assert Now() == WithStatus(s, c, if ok then Waitlisted else Closed);
          }
        case Waitlisted =>
          if helpersInuse != helperInfo.Length {
            var h := FindHelper(NIL);
            AssignHelper(c, h);
          }
        case HeaderWritten =>
        case MapRequested(got) =>
          if got {
            status[c] := DataWriting;
            assert Now() == WithStatus(s, c, DataWriting);
          }
        case DataWriting =>
          var h := FindHelper(c);
          helperInfo[h] := NIL;
          helpersInuse := helpersInuse - 1;
          status[c] := Closed;
          assert helperInfo[..] == s.rows[h := NIL] && status[..] == s.clients[c := Closed];
      }
    }

    /** A helper's socket can be written. */
    method SendRequest(h: nat)
      requires Backed(Now()) && h < helperInfo.Length
      modifies status, this`owes
      ensures Now() == Ask(old(Now()), h) && Backed(Now())
    {
      StepBacked(Now(), HelperCanWrite(h));
      var c := helperInfo[h];
      if 0 <= c < status.Length && status[c].HeaderWritten? {
        status[c] := MapRequested(false);
        owes := owes[h := true];
        assert status[..] == old(status[..])[c := MapRequested(false)];
      }
    }

    /** A helper's answer has come; false is the assertion that the client waits for it. */
    method ReadAnswer(h: nat) returns (ok: bool)
      requires Backed(Now()) && Enabled(Now(), HelperAnswers(h))
      modifies status, this`owes
      ensures ok == Answer(old(Now()), h).Fine?
      ensures ok ==> Now() == Answer(old(Now()), h).s && Backed(Now())
    {
      StepBacked(Now(), HelperAnswers(h));
      var c := helperInfo[h];
      if !(0 <= c < status.Length && status[c].MapRequested?) {
        return false;
      }
      status[c] := MapRequested(true);
      owes := owes[h := false];
      assert status[..] == old(status[..])[c := MapRequested(true)];
      return true;
    }
  }
}
