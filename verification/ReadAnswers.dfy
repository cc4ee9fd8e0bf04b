/** What flash's read helpers are asked and what they answer.  A helper takes one
    or more requests off its socket at a time and answers the first of them; the
    read master takes an answer for the group that the helper's row names. */
module ReadAnswers {
  import opened Lists
  import opened ReadSchedule

  /** The schedule, and for each helper the pieces that it has been asked for and
      has not taken off its socket, oldest first. */
  datatype Wired = Wired(s: State, sent: seq<seq<Key>>)

  /** An event of the schedule; a completion comes with the number of requests
      that the helper took off its socket. */
  datatype Turn = Turn(e: Event, taken: nat)

  /** The sockets after an event: a helper has answered or gone, and a request has
      been written, which reaches nobody if it is for a row past the table. */
  function SentAfter(w: Wired, maxHelp: nat, t: Turn): (sent: seq<seq<Key>>) {
    var e := t.e;
    var rest :=
      if e.Finish? && e.i < |w.sent| && t.taken <= |w.sent[e.i]| then w.sent[e.i := w.sent[e.i][t.taken..]]
      else if e.Gone? && e.i < |w.sent| then RemoveAt(w.sent, e.i)
      else w.sent;
    match Written(w.s, maxHelp, e)
    case None => rest
    case Some((row, key)) =>
      if row < |rest| then rest[row := rest[row] + [key]] else if e.Ask? then rest + [[key]] else rest
  }

  /** None when the event cannot happen; an answer takes at least one request. */
  ghost function Next(w: Wired, maxHelp: nat, t: Turn): (r: Option<Wired>) {
    var s' := Step(w.s, maxHelp, t.e);
    if s'.None? || (t.e.Finish? && !(t.e.i < |w.sent| && 1 <= t.taken <= |w.sent[t.e.i]|)) then None
    else Some(Wired(s'.value, SentAfter(w, maxHelp, t)))
  }

  ghost function Turns(w: Wired, maxHelp: nat, ts: seq<Turn>): (r: Option<Wired>)
    decreases |ts|
  {
    if ts == [] then Some(w)
    else
      var w' := Next(w, maxHelp, ts[0]);
      if w'.None? then None else Turns(w'.value, maxHelp, ts[1..])
  }

  function Events(ts: seq<Turn>): (es: seq<Event>) {
    if ts == [] then [] else [ts[0].e] + Events(ts[1..])
  }

  /** The answer that the helper gives next is for the piece of the group that it
      will be taken for. */
  predicate Fits(w: Wired, i: nat)
    requires i < |w.sent| && w.sent[i] != []
  {
    Busy(w.s, i) && w.s.slots[i].group.value.key == w.sent[i][0]
  }

  /** Some helper may answer now, and the answer is taken for another piece, or
      comes to a row that waits for none, where the server panics. */
  ghost predicate Misled(w: Wired) {
    exists i :: 0 <= i < |w.sent| && w.sent[i] != [] && !Fits(w, i)
  }

  /** A busy helper has been asked for its group's piece and for nothing else. */
  ghost predicate InStep(w: Wired) {
    && |w.sent| == |w.s.slots|
    && forall i :: 0 <= i < |w.sent| ==>
         w.sent[i] == if Busy(w.s, i) then [w.s.slots[i].group.value.key] else []
  }

  /** No request is sent to a helper that has one: the event is not a stale idle
      alone, and the next group goes to a helper with nothing to do. */
  predicate Plain(s: State, e: Event) {
    && !e.Again?
    && (e.Finish? && s.waiting != [] ==> e.j == e.i || !Busy(s, e.j))
  }

  ghost predicate PlainTurns(w: Wired, maxHelp: nat, ts: seq<Turn>)
    decreases |ts|
  {
    ts == [] ||
    (&& Plain(w.s, ts[0].e)
     && (Next(w, maxHelp, ts[0]).Some? ==> PlainTurns(Next(w, maxHelp, ts[0]).value, maxHelp, ts[1..])))
  }

  /** Whatever plain events follow, no answer is misled. */
  ghost predicate Sure(w: Wired, maxHelp: nat) {
    forall ts :: PlainTurns(w, maxHelp, ts) && Turns(w, maxHelp, ts).Some? ==> !Misled(Turns(w, maxHelp, ts).value)
  }

  lemma {:induction false} AskInStep(w: Wired, maxHelp: nat, t: Turn)
    requires InStep(w) && t.e.Ask? && Next(w, maxHelp, t).Some?
    ensures InStep(Next(w, maxHelp, t).value)
  {
    hide Blocks, All, Requestable, Reading, Spare, Queued;
  }

  lemma {:induction false} FinishInStep(w: Wired, maxHelp: nat, t: Turn)
    requires InStep(w) && t.e.Finish? && Plain(w.s, t.e) && Next(w, maxHelp, t).Some?
    ensures InStep(Next(w, maxHelp, t).value)
  {
    hide Faults;
    assert t.taken == 1;
    assert w.sent[t.e.i][1..] == [];
  }

  /** Every plain event keeps the helpers in step. */
  lemma {:induction false} NextInStep(w: Wired, maxHelp: nat, t: Turn)
    requires InStep(w) && Plain(w.s, t.e) && Next(w, maxHelp, t).Some?
    ensures InStep(Next(w, maxHelp, t).value)
  {
    match t.e {
      case Ask(_, _, _, _) => AskInStep(w, maxHelp, t);
      case Finish(_, _) => FinishInStep(w, maxHelp, t);
      case _ =>
    }
  }

  lemma {:induction false} TurnsInStep(w: Wired, maxHelp: nat, ts: seq<Turn>)
    requires InStep(w) && PlainTurns(w, maxHelp, ts) && Turns(w, maxHelp, ts).Some?
    ensures InStep(Turns(w, maxHelp, ts).value)
    decreases |ts|
  {
    hide InStep, Next, Plain;
    if ts != [] {
      NextInStep(w, maxHelp, ts[0]);
      TurnsInStep(Next(w, maxHelp, ts[0]).value, maxHelp, ts[1..]);
    }
  }

  lemma {:induction false} InStepFits(w: Wired)
    requires InStep(w)
    ensures !Misled(w)
  {
  }

  /** A second request to a busy helper: its next answer is for the first. */
  lemma {:induction false} OverwriteMisleads(w: Wired, maxHelp: nat, t: Turn)
    requires InStep(w) && Inv(w.s, maxHelp) && Clean(w.s) && Next(w, maxHelp, t).Some?
    requires t.e.Finish? && !Plain(w.s, t.e)
    ensures Misled(Next(w, maxHelp, t).value)
  {
    hide Inv, Clean, Faults;
    var w', j := Next(w, maxHelp, t).value, t.e.j;
    assert All(w.s)[j] == w.s.slots[j].group && All(w.s)[|w.s.slots|] == Some(w.s.waiting[0]);
    PiecesDiffer(w.s, maxHelp, j, |w.s.slots|);
    assert w'.sent[j] == [w.s.slots[j].group.value.key, w.s.waiting[0].key];
    assert !Fits(w', j);
  }

  /** A request sent again: the helper may answer it twice, and the second answer
      comes when its row has another group, or none. */
  lemma {:induction false} AgainMisleads(w: Wired, maxHelp: nat, i: nat, taken: nat)
    requires InStep(w) && Inv(w.s, maxHelp) && Clean(w.s) && Next(w, maxHelp, Turn(Again(i), taken)).Some?
    ensures var w1, t := Next(w, maxHelp, Turn(Again(i), taken)).value, Turn(Finish(i, i), 1);
            Plain(w1.s, t.e) && Next(w1, maxHelp, t).Some? && Misled(Next(w1, maxHelp, t).value)
  {
    hide Inv, Clean, Faults;
    var w1, t := Next(w, maxHelp, Turn(Again(i), taken)).value, Turn(Finish(i, i), 1);
    var key := w.s.slots[i].group.value.key;
    CleanFine(w.s, t.e);
    assert w1.s == w.s && w1.sent[i] == [key, key];
    var w2 := Next(w1, maxHelp, t).value;
    assert [key, key][1..] == [key];
    if w.s.waiting != [] {
      assert All(w.s)[i] == w.s.slots[i].group && All(w.s)[|w.s.slots|] == Some(w.s.waiting[0]);
      PiecesDiffer(w.s, maxHelp, i, |w.s.slots|);
    }
    assert w2.sent[i][0] == key && !Fits(w2, i);
  }

  /** From helpers in step, an event leaves every later answer with the group
      whose piece it is exactly when it sends no request to a helper that has one. */
  lemma {:induction false} AnswersExactly(w: Wired, maxHelp: nat, t: Turn)
    requires InStep(w) && Inv(w.s, maxHelp) && Clean(w.s) && Next(w, maxHelp, t).Some?
    ensures Sure(Next(w, maxHelp, t).value, maxHelp) <==> Plain(w.s, t.e)
  {
    hide InStep, Inv, Clean, Plain, Next, Misled;
    var w' := Next(w, maxHelp, t).value;
    if Plain(w.s, t.e) {
      NextInStep(w, maxHelp, t);
      forall ts | PlainTurns(w', maxHelp, ts) && Turns(w', maxHelp, ts).Some?
        ensures !Misled(Turns(w', maxHelp, ts).value) {
        TurnsInStep(w', maxHelp, ts);
        InStepFits(Turns(w', maxHelp, ts).value);
      }
    } else if t.e.Again? {
      AgainMisleads(w, maxHelp, t.e.i, t.taken);
      OneTurn(w', maxHelp, Turn(Finish(t.e.i, t.e.i), 1));
    } else {
      NotPlain(w.s, t.e);
      OverwriteMisleads(w, maxHelp, t);
      assert PlainTurns(w', maxHelp, []) && Turns(w', maxHelp, []) == Some(w');
    }
  }

  lemma {:induction false} NotPlain(s: State, e: Event)
    requires !Plain(s, e)
    ensures e.Again? || e.Finish?
  {
  }

  lemma {:induction false} OneTurn(w: Wired, maxHelp: nat, t: Turn)
    requires Plain(w.s, t.e) && Next(w, maxHelp, t).Some?
    ensures PlainTurns(w, maxHelp, [t]) && Turns(w, maxHelp, [t]) == Next(w, maxHelp, t)
  {
    hide Plain, Next;
    var w' := Next(w, maxHelp, t).value;
    assert [t][1..] == [];
    assert PlainTurns(w', maxHelp, []) && Turns(w', maxHelp, []) == Some(w');
  }

  /** The helpers started beforehand, asked for nothing. */
  function Started(fds: seq<int>): (w: Wired) { Wired(Fresh(fds), seq(|fds|, _ => [])) }

  lemma {:induction false} TurnsRun(w: Wired, maxHelp: nat, ts: seq<Turn>)
    requires Turns(w, maxHelp, ts).Some?
    ensures Run(w.s, maxHelp, Events(ts)) == Some(Turns(w, maxHelp, ts).value.s)
    decreases |ts|
  {
    hide Step, SentAfter;
    if ts != [] {
      assert Events(ts)[0] == ts[0].e && Events(ts)[1..] == Events(ts[1..]);
      TurnsRun(Next(w, maxHelp, ts[0]).value, maxHelp, ts[1..]);
    }
  }

  /** In every plain run from the start, an answer is for the piece that each
      connection it resumes asked for last. */
  lemma {:induction false} AnsweredOwnPiece(maxHelp: nat, fds: seq<int>, ts: seq<Turn>, i: nat, c: nat)
    requires PlainTurns(Started(fds), maxHelp, ts) && Turns(Started(fds), maxHelp, ts).Some?
    requires var w := Turns(Started(fds), maxHelp, ts).value;
             i < |w.sent| && w.sent[i] != [] && Busy(w.s, i) && c in Resumed(w.s, i)
    ensures Wanted(None, Events(ts), c) == Some(Turns(Started(fds), maxHelp, ts).value.sent[i][0])
  {
    hide Turns, PlainTurns, Run;
    assert InStep(Started(fds));
    TurnsInStep(Started(fds), maxHelp, ts);
    TurnsRun(Started(fds), maxHelp, ts);
    ResumedForOwnPiece(maxHelp, fds, Events(ts), i, c);
  }
}
