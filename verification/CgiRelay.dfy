/** Flash's relay of a CGI program's output: chunks are read into buffers of a
    fixed size, however the reads are cut up, and the buffers are then written
    to the client, however the writes are. */
module CgiRelay {

  const READ_SIZE := 65536

  // ------------------------------------------------------------------
  // Buffers

  function Concat<T>(l: seq<seq<T>>): (r: seq<T>) {
    if l == [] then [] else l[0] + Concat(l[1..])
  }

  /** The reference: the output cut into pieces of the full size and a rest. */
  function Split<T>(s: seq<T>): (l: seq<seq<T>>)
    ensures Concat(l) == s
    ensures forall i :: 0 <= i < |l| ==> 0 < |l[i]| <= READ_SIZE
    ensures forall i :: 0 <= i < |l| - 1 ==> |l[i]| == READ_SIZE
    ensures s == [] <==> l == []
    decreases |s|
  {
    if s == [] then []
    else if |s| <= READ_SIZE then
      assert [s][1..] == [];
      [s]
    else
      var rest := Split(s[READ_SIZE..]);
      assert ([s[..READ_SIZE]] + rest)[1..] == rest;
      [s[..READ_SIZE]] + rest
  }

  /** A new empty buffer when there is none or the last one is full. */
  function MakeSpace<T>(items: seq<seq<T>>): (r: seq<seq<T>>)
    ensures r != []
  {
    if items == [] || |items[|items| - 1]| == READ_SIZE then items + [[]] else items
  }

  /** How much the last buffer can still take. */
  function Room<T>(items: seq<seq<T>>): (n: int)
    requires items != []
  {
    READ_SIZE - |items[|items| - 1]|
  }

  function Fill<T>(items: seq<seq<T>>, b: seq<T>): (r: seq<seq<T>>)
    requires items != []
  {
    items[|items| - 1 := items[|items| - 1] + b]
  }

  lemma {:induction false} SplitFillFirst<T>(s: seq<T>, b: seq<T>)
    requires b != [] && |s| <= READ_SIZE && |b| <= Room(MakeSpace(Split(s)))
    ensures Fill(MakeSpace(Split(s)), b) == Split(s + b)
  {
    if s == [] {
      assert s + b == b;
      assert MakeSpace(Split(s)) == [[]];
      assert [] + b == b;
    } else if |s| == READ_SIZE {
      assert (s + b)[..READ_SIZE] == s && (s + b)[READ_SIZE..] == b;
      assert MakeSpace(Split(s)) == [s, []];
      assert [] + b == b;
      assert Fill([s, []], b) == [s, b];
    } else {
      assert Fill([s], b) == [s + b];
    }
  }

  /** Buffers in front of the last are not touched. */
  lemma {:induction false} FillBehind<T>(head: seq<T>, rest: seq<seq<T>>, b: seq<T>)
    requires rest != []
    ensures MakeSpace([head] + rest) == [head] + MakeSpace(rest)
    ensures Fill([head] + MakeSpace(rest), b) == [head] + Fill(MakeSpace(rest), b)
    ensures Room(MakeSpace([head] + rest)) == Room(MakeSpace(rest))
  {
    var l := [head] + rest;
    assert l[|l| - 1] == rest[|rest| - 1];
    assert l + [[]] == [head] + (rest + [[]]);
  }

  /** Reading into the buffers is splitting all that has been read. */
  lemma {:induction false} SplitFill<T>(s: seq<T>, b: seq<T>)
    requires b != [] && |b| <= Room(MakeSpace(Split(s)))
    ensures Fill(MakeSpace(Split(s)), b) == Split(s + b)
    decreases |s|
  {
    hide Fill, MakeSpace, Room;
    if |s| <= READ_SIZE {
      SplitFillFirst(s, b);
    } else {
      var t, head := s[READ_SIZE..], s[..READ_SIZE];
      assert (s + b)[..READ_SIZE] == head && (s + b)[READ_SIZE..] == t + b;
      FillBehind(head, Split(t), b);
      SplitFill(t, b);
    }
  }

  // ------------------------------------------------------------------
  // Reading from the program

  /** What a read brings: a chunk header, a short header or an error, some of a
      chunk's bytes, or nothing for now. */
  datatype Read<T> = Header(size: int) | Bad | Bytes(b: seq<T>) | Again

  datatype Phase = Reading | Replying | Aborted

  /** The buffers, and how much of the current chunk is still to come. */
  datatype Relay<T> = Relay(items: seq<seq<T>>, left: nat, phase: Phase)

  function Start<T>(): (s: Relay<T>) { Relay([], 0, Reading) }

  /** A header is read between chunks, bytes within one, and no more than asked for. */
  predicate Enabled<T>(s: Relay<T>, r: Read<T>) {
    && s.phase == Reading
    && (r.Header? ==> s.left == 0)
    && (r.Bytes? ==> 0 < |r.b| <= s.left && |r.b| <= Room(MakeSpace(s.items)))
  }

  function Step<T>(s: Relay<T>, r: Read<T>): (s': Relay<T>)
    requires Enabled(s, r)
  {
    match r
    case Header(size) => if size < 1 then s.(phase := Replying) else s.(left := size)
    case Bad => s.(phase := Aborted)
    case Bytes(b) => Relay(Fill(MakeSpace(s.items), b), s.left - |b|, Reading)
    case Again => if s.left == 0 then s else s.(items := MakeSpace(s.items))
  }

  ghost predicate AllEnabled<T>(s: Relay<T>, rs: seq<Read<T>>)
    decreases |rs|
  {
    rs == [] || (Enabled(s, rs[0]) && AllEnabled(Step(s, rs[0]), rs[1..]))
  }

  function Run<T>(s: Relay<T>, rs: seq<Read<T>>): (s': Relay<T>)
    requires AllEnabled(s, rs)
    decreases |rs|
  {
    if rs == [] then s else Run(Step(s, rs[0]), rs[1..])
  }

  function Brought<T>(r: Read<T>): (b: seq<T>) { if r.Bytes? then r.b else [] }

  function Announces<T>(r: Read<T>): (n: nat) { if r.Header? && r.size > 0 then r.size else 0 }

  /** All bytes that the reads have brought. */
  function Payload<T>(rs: seq<Read<T>>): (p: seq<T>) {
    if rs == [] then [] else Brought(rs[0]) + Payload(rs[1..])
  }

  /** The sizes that the chunk headers announced. */
  function Announced<T>(rs: seq<Read<T>>): (n: nat) {
    if rs == [] then 0 else Announces(rs[0]) + Announced(rs[1..])
  }

  /** The buffers hold the bytes read so far, cut as in Split; inside a chunk
      there may be an empty buffer behind. */
  ghost predicate Holds<T>(s: Relay<T>, p: seq<T>) {
    && (s.items == Split(p) || (s.left > 0 && s.items == MakeSpace(Split(p))))
  }

  lemma {:induction false} MakeSpaceTwice<T>(items: seq<seq<T>>)
    ensures MakeSpace(MakeSpace(items)) == MakeSpace(items)
  {
  }

  lemma {:induction false} StepHolds<T>(s: Relay<T>, r: Read<T>, p: seq<T>)
    requires Enabled(s, r) && Holds(s, p) && s.phase == Reading
    ensures Step(s, r).phase != Aborted ==> Holds(Step(s, r), p + Brought(r))
    ensures s.left + Announces(r) == Step(s, r).left + |Brought(r)|
  {
    hide Split, Fill, MakeSpace;
    MakeSpaceTwice(Split(p));
    if r.Bytes? {
      SplitFill(p, r.b);
    } else {
      assert p + [] == p;
    }
  }

  /** However the output arrives: when the terminating chunk has been read, the
      buffers are the output cut into full pieces and a rest. */
  lemma {:induction false} RunHolds<T>(s: Relay<T>, rs: seq<Read<T>>, p: seq<T>)
    requires AllEnabled(s, rs) && Holds(s, p) && (s.phase != Reading ==> rs == [])
    ensures Run(s, rs).phase != Aborted && s.phase != Aborted ==> Holds(Run(s, rs), p + Payload(rs))
    ensures Run(s, rs).phase != Aborted && s.phase != Aborted ==>
              s.left + Announced(rs) == Run(s, rs).left + |Payload(rs)|
    decreases |rs|
  {
    hide Split, Step, Holds, Enabled, Brought, Announces;
    if rs == [] {
      assert p + Payload(rs) == p;
    } else {
      var s', b := Step(s, rs[0]), Brought(rs[0]);
      StepHolds(s, rs[0], p);
      if s'.phase == Reading {
        RunHolds(s', rs[1..], p + b);
        assert p + b + Payload(rs[1..]) == p + Payload(rs);
      } else {
        assert rs[1..] == [] by { Ended(s', rs[1..]); }
        assert Payload(rs[1..]) == [] && p + Payload(rs) == p + b;
      }
    }
  }

  /** Nothing is read after the end. */
  lemma {:induction false} Ended<T>(s: Relay<T>, rs: seq<Read<T>>)
    requires AllEnabled(s, rs) && s.phase != Reading
    ensures rs == []
  {
  }

  /** How a run of reads ends: with a reply exactly when its last read was a header
      without a chunk, aborted exactly when it was an error, and before that it
      goes on. */
  lemma {:induction false} RunEnds<T>(s: Relay<T>, rs: seq<Read<T>>)
    requires AllEnabled(s, rs) && s.phase == Reading
    ensures var last := if rs == [] then Again else rs[|rs| - 1];
            && (Run(s, rs).phase == Replying <==> last.Header? && last.size < 1)
            && (Run(s, rs).phase == Aborted <==> last.Bad?)
    decreases |rs|
  {
    if rs != [] {
      var s' := Step(s, rs[0]);
      if s'.phase == Reading {
        RunEnds(s', rs[1..]);
      } else {
        Ended(s', rs[1..]);
      }
    }
  }

  /** Every output can be relayed: as one chunk, a full buffer at a time. */
  lemma {:induction false} EveryOutput<T>(p: seq<T>) returns (rs: seq<Read<T>>)
    ensures AllEnabled(Start<T>(), rs) && Run(Start<T>(), rs).phase == Replying && Payload(rs) == p
  {
    var s: Relay<T> := Start<T>();
    if p == [] {
      rs := [Header(0)];
      assert rs[1..] == [];
      return;
    }
    var s1 := Relay([], |p|, Reading);
    var rest := ChunkReads(s1, p);
    rs := [Header(|p|)] + rest;
    assert rs[1..] == rest && [] + p == p;
    assert Step(s, rs[0]) == s1;
  }

  lemma {:induction false} ChunkReads<T>(s: Relay<T>, p: seq<T>) returns (rs: seq<Read<T>>)
    requires s.phase == Reading && s.left == |p| && (s.items == [] || |s.items[|s.items| - 1]| == READ_SIZE || p == [])
    ensures AllEnabled(s, rs) && Run(s, rs).phase == Replying && Payload(rs) == p
    decreases |p|
  {
    if p == [] {
      rs := [Header(0)];
      assert rs[1..] == [];
      assert AllEnabled(s, rs);
      return;
    }
    var n := if |p| < READ_SIZE then |p| else READ_SIZE;
    var r := Bytes(p[..n]);
    var s' := Step(s, r);
    var rest := ChunkReads(s', p[n..]);
    rs := [r] + rest;
    assert rs[1..] == rest && p[..n] + p[n..] == p;
  }

  lemma {:induction false} EverySplit<T>(rs: seq<Read<T>>)
    requires AllEnabled(Start<T>(), rs) && Run(Start<T>(), rs).phase == Replying
    ensures Run(Start<T>(), rs).items == Split(Payload(rs)) && |Payload(rs)| == Announced(rs)
  {
    RunHolds(Start(), rs, []);
    assert [] + Payload(rs) == Payload(rs);
    EndsBetweenChunks(Start(), rs);
  }

  lemma {:induction false} EndsBetweenChunks<T>(s: Relay<T>, rs: seq<Read<T>>)
    requires AllEnabled(s, rs) && s.phase == Reading
    ensures Run(s, rs).phase == Replying ==> Run(s, rs).left == 0
    decreases |rs|
  {
    if rs != [] {
      if Step(s, rs[0]).phase == Reading {
        EndsBetweenChunks(Step(s, rs[0]), rs[1..]);
      } else {
        Ended(Step(s, rs[0]), rs[1..]);
      }
    }
  }

  // ------------------------------------------------------------------
  // Writing to the client

  /** The buffers, each without what has been written of it, and the first that
      has not been written whole. */
  datatype Writer<T> = Writer(work: seq<seq<T>>, at: nat)

  function Rest<T>(w: Writer<T>): (r: seq<T>) {
    if w.at <= |w.work| then Concat(w.work[w.at..]) else []
  }

  /** What the loop of WriteToClient does with the count that writev returned. */
  function Advance<T>(w: Writer<T>, res: nat): (w': Writer<T>)
    decreases |w.work| - w.at
  {
    if res == 0 || w.at >= |w.work| then w
    else if res < |w.work[w.at]| then Writer(w.work[w.at := w.work[w.at][res..]], w.at)
    else Advance(w.(at := w.at + 1), res - |w.work[w.at]|)
  }

  ghost predicate NoneEmpty<T>(w: Writer<T>) {
    w.at <= |w.work| && forall i :: w.at <= i < |w.work| ==> w.work[i] != []
  }

  lemma {:induction false} RestStep<T>(w: Writer<T>)
    requires w.at < |w.work|
    ensures Rest(w) == w.work[w.at] + Rest(w.(at := w.at + 1))
  {
    var l := w.work[w.at..];
    assert l[0] == w.work[w.at] && l[1..] == w.work[w.at + 1..];
  }

  /** Exactly the bytes written are taken off the front of what is left. */
  lemma {:induction false} AdvanceDrops<T>(w: Writer<T>, res: nat)
    requires NoneEmpty(w) && res <= |Rest(w)|
    ensures var w' := Advance(w, res);
            NoneEmpty(w') && |w'.work| == |w.work| && Rest(w') == Rest(w)[res..]
              && (w'.at == |w'.work| <==> Rest(w') == [])
    decreases |w.work| - w.at
  {
    hide Advance, Rest, NoneEmpty;
    if w.at >= |w.work| {
      AdvanceAtEnd(w, res);
    } else if res >= |w.work[w.at]| {
      NoneEmptyNext(w);
      RestStep(w);
      var b, w1 := w.work[w.at], w.(at := w.at + 1);
      AdvanceOver(w, res);
      AdvanceDrops(w1, res - |b|);
      assert (b + Rest(w1))[res..] == Rest(w1)[res - |b|..];
    } else {
      PartDrops(w, res);
    }
  }

  lemma {:induction false} AdvanceAtEnd<T>(w: Writer<T>, res: nat)
    requires NoneEmpty(w) && w.at >= |w.work| && res <= |Rest(w)|
    ensures Advance(w, res) == w && w.at == |w.work| && Rest(w) == [] && Rest(w)[res..] == []
  {
  }

  /** A count that ends inside a buffer. */
  lemma {:induction false} PartDrops<T>(w: Writer<T>, res: nat)
    requires NoneEmpty(w) && w.at < |w.work| && res < |w.work[w.at]| && res <= |Rest(w)|
    ensures var w' := Advance(w, res);
            NoneEmpty(w') && |w'.work| == |w.work| && Rest(w') == Rest(w)[res..] && w'.at < |w'.work| && Rest(w') != []
  {
    hide Advance, Rest;
    var b := w.work[w.at];
    var w' := Writer(w.work[w.at := b[res..]], w.at);
    AdvancePart(w, res);
    RestStep(w);
    RestStep(w');
    RestBehind(w, w');
    assert (b + Rest(w.(at := w.at + 1)))[res..] == b[res..] + Rest(w.(at := w.at + 1));
  }

  lemma {:induction false} RestBehind<T>(w: Writer<T>, w': Writer<T>)
    requires w.at == w'.at < |w.work| == |w'.work| && forall i :: w.at < i < |w.work| ==> w'.work[i] == w.work[i]
    ensures Rest(w'.(at := w.at + 1)) == Rest(w.(at := w.at + 1))
  {
    assert w'.work[w.at + 1..] == w.work[w.at + 1..];
  }

  lemma {:induction false} AdvanceOver<T>(w: Writer<T>, res: nat)
    requires w.at < |w.work| && res >= |w.work[w.at]| > 0
    ensures Advance(w, res) == Advance(w.(at := w.at + 1), res - |w.work[w.at]|)
  {
  }

  lemma {:induction false} AdvancePart<T>(w: Writer<T>, res: nat)
    requires w.at < |w.work| && res < |w.work[w.at]|
    ensures Advance(w, res) == Writer(w.work[w.at := w.work[w.at][res..]], w.at)
  {
    if res == 0 {
      assert w.work[w.at][0..] == w.work[w.at];
      assert w.work[w.at := w.work[w.at]] == w.work;
    }
  }

  ghost predicate CanWrite<T>(w: Writer<T>, ws: seq<nat>)
    decreases |ws|
  {
    ws == [] || (0 < ws[0] <= |Rest(w)| && CanWrite(Advance(w, ws[0]), ws[1..]))
  }

  /** What the client has received, and what is left. */
  function Delivered<T>(w: Writer<T>, ws: seq<nat>): (r: (seq<T>, Writer<T>))
    requires CanWrite(w, ws)
    decreases |ws|
  {
    if ws == [] then ([], w)
    else
      var (d, w') := Delivered(Advance(w, ws[0]), ws[1..]);
      (Rest(w)[..ws[0]] + d, w')
  }

  lemma {:induction false} DeliversInOrder<T>(w: Writer<T>, ws: seq<nat>)
    requires NoneEmpty(w) && CanWrite(w, ws)
    ensures var (d, w') := Delivered(w, ws);
            Rest(w) == d + Rest(w') && NoneEmpty(w') && (w'.at == |w'.work| <==> Rest(w') == [])
    decreases |ws|
  {
    hide Rest, Advance, NoneEmpty;
    if ws == [] {
      AdvanceDrops(w, 0);
      AdvanceNone(w);
      assert Rest(w) == [] + Rest(w);
    } else {
      AdvanceDrops(w, ws[0]);
      var w1 := Advance(w, ws[0]);
      DeliversInOrder(w1, ws[1..]);
      var (d, w') := Delivered(w1, ws[1..]);
      Glue(Rest(w), ws[0], d, Rest(w'));
    }
  }

  lemma {:induction false} Glue<T>(all: seq<T>, k: nat, d: seq<T>, rest: seq<T>)
    requires k <= |all| && all[k..] == d + rest
    ensures all == all[..k] + d + rest
  {
    assert all == all[..k] + all[k..];
  }

  lemma {:induction false} AdvanceNone<T>(w: Writer<T>)
    ensures Advance(w, 0) == w
  {
  }

  /** For every way the output is cut up by reads and by writes, the client gets
      a beginning of it, and all of it when the last buffer has been written. */
  lemma {:induction false} ReceivesOutput<T>(rs: seq<Read<T>>, ws: seq<nat>)
    requires AllEnabled(Start<T>(), rs) && Run(Start<T>(), rs).phase == Replying
    requires CanWrite(Writer(Run(Start<T>(), rs).items, 0), ws)
    ensures var (d, w) := Delivered(Writer(Run(Start<T>(), rs).items, 0), ws);
            d <= Payload(rs) && (w.at == |w.work| <==> d == Payload(rs))
  {
    hide Run, AllEnabled, Payload, Delivered, CanWrite;
    EverySplit(rs);
    var w := Writer(Split(Payload(rs)), 0);
    assert w.work[0..] == w.work;
    assert Rest(w) == Payload(rs);
    DeliversInOrder(w, ws);
    var (d, w') := Delivered(w, ws);
    assert Rest(w') == [] ==> d + Rest(w') == d;
  }

  // ------------------------------------------------------------------
  // The handlers

  datatype Ending = Continue | Done | Failure

  class Handler<T(0)> {
    var retData: seq<seq<T>>
    /** Allocated length of retData's array. */
    var numRetAlloc: nat
    var chunkBytesLeft: nat
    var workRetData: seq<seq<T>>
    var elementsWritten: nat
    var phase: Phase

    ghost function Now(): (s: Relay<T>) reads this { Relay(retData, chunkBytesLeft, phase) }

    ghost predicate Allocated() reads this { |retData| <= numRetAlloc && numRetAlloc > 0 }

    constructor ()
      ensures Now() == Start<T>() && Allocated()
    {
      retData, numRetAlloc, chunkBytesLeft, phase := [], 5, 0, Reading;
      workRetData, elementsWritten := [], 0;
    }

    method MakeRetSpaceIfNecessary()
      requires Allocated()
      modifies this`retData, this`numRetAlloc
      ensures Allocated() && retData == MakeSpace(old(retData))
      ensures numRetAlloc == if |retData| > old(numRetAlloc) then 2 * old(numRetAlloc) else old(numRetAlloc)
    {
      if |retData| != 0 && |retData[|retData| - 1]| != READ_SIZE {
        return;
      }
      if |retData| == numRetAlloc {
        numRetAlloc := 2 * numRetAlloc;
      }
      retData := retData + [[]];
    }

    /** A read on the program's socket; true to go on reading. */
    method HandleRead(r: Read<T>) returns (keepReading: bool)
      requires Allocated() && Enabled(Now(), r)
      modifies this
      ensures Allocated() && Now() == Step(old(Now()), r)
      ensures keepReading <==> phase == Reading && r != Again
      ensures phase == Replying ==> workRetData == retData && elementsWritten == 0
    {
      if chunkBytesLeft == 0 {
        match r {
          case Header(size) =>
            if size < 1 {
              workRetData, elementsWritten, phase := retData, 0, Replying;
              return false;
            }
            chunkBytesLeft := size;
            return true;
          case Bad =>
            phase := Aborted;
            return false;
          case Again => return false;
        }
      }
      if r.Bad? {
        phase := Aborted;
        return false;
      }
      MakeRetSpaceIfNecessary();
      if r.Again? {
        return false;
      }
      var last := |retData| - 1;
      retData := retData[last := retData[last] + r.b];
      chunkBytesLeft := chunkBytesLeft - |r.b|;
      return true;
    }

    /** The client's socket took res bytes, or failed when res < 1. */
    method WriteToClient(res: int) returns (ending: Ending)
      requires NoneEmpty(Writer(workRetData, elementsWritten)) && res <= |Rest(Writer(workRetData, elementsWritten))|
      modifies this`workRetData, this`elementsWritten
      ensures var w := old(Writer(workRetData, elementsWritten));
              && (ending == Failure <==> res < 1 && w.at < |w.work|)
              && Writer(workRetData, elementsWritten) == Advance(w, if res < 1 then 0 else res)
              && (ending == Done <==> elementsWritten >= |workRetData|)
    {
      hide NoneEmpty, Rest;
      ghost var w := Writer(workRetData, elementsWritten);
      NoneEmptyShape(w);
      if |workRetData| - elementsWritten < 1 {
        return Done;
      }
      if res < 1 {
        return Failure;
      }
      var left: nat := res;
      AdvanceDrops(w, res);
      while left > 0
        invariant elementsWritten < |workRetData| && workRetData == w.work
        invariant NoneEmpty(Writer(workRetData, elementsWritten))
                  && left <= |Rest(Writer(workRetData, elementsWritten))|
        invariant Advance(Writer(workRetData, elementsWritten), left) == Advance(w, res)
        decreases |workRetData| - elementsWritten
      {
        ghost var v := Writer(workRetData, elementsWritten);
        RestStep(v);
        NoneEmptyNext(v);
        if left < |workRetData[elementsWritten]| {
          workRetData := workRetData[elementsWritten := workRetData[elementsWritten][left..]];
          return Continue;
        }
        left := left - |workRetData[elementsWritten]|;
        elementsWritten := elementsWritten + 1;
        if elementsWritten >= |workRetData| {
          RestEnd(Writer(workRetData, elementsWritten));
          return Done;
        }
      }
      return Continue;
    }
  }

  lemma {:induction false} NoneEmptyShape<T>(w: Writer<T>)
    requires NoneEmpty(w)
    ensures w.at <= |w.work|
  {
  }

  lemma {:induction false} RestEnd<T>(w: Writer<T>)
    requires w.at >= |w.work|
    ensures Rest(w) == []
  {
  }

  lemma {:induction false} NoneEmptyNext<T>(w: Writer<T>)
    requires NoneEmpty(w) && w.at < |w.work|
    ensures w.work[w.at] != [] && NoneEmpty(w.(at := w.at + 1))
  {
  }
}
