/** Flash's reading of a request body: input goes into a chain of buffers as it
    comes, and the body is handed on as a list of pieces of those buffers. */
module PostBody {
  import opened Lists

  const BUF_SIZE := 1000

  /** A place in the chain: a buffer and a position in it. */
  datatype Place = Place(buf: nat, pos: nat)

  /** A piece of a buffer, as in an iovec. */
  datatype Piece = Piece(buf: nat, start: nat, len: nat)

  ghost predicate Sized(bufs: seq<string>) {
    forall i :: 0 <= i < |bufs| ==> |bufs[i]| == BUF_SIZE
  }

  predicate Inside(bufs: seq<string>, p: Place) { p.buf < |bufs| && p.pos <= BUF_SIZE }

  predicate Before(a: Place, b: Place) { a.buf < b.buf || (a.buf == b.buf && a.pos <= b.pos) }

  /** The bytes from one place to another, through the buffers in between. */
  ghost function Span(bufs: seq<string>, a: Place, b: Place): (s: string)
    requires Sized(bufs) && Inside(bufs, a) && Inside(bufs, b) && Before(a, b)
    ensures |s| == (b.buf - a.buf) * BUF_SIZE + b.pos - a.pos
    decreases b.buf - a.buf
  {
    if a.buf == b.buf then bufs[a.buf][a.pos..b.pos]
    else bufs[a.buf][a.pos..] + Span(bufs, Place(a.buf + 1, 0), b)
  }

  /** Two neighbouring stretches are one. */
  lemma {:induction false} SpanJoin(bufs: seq<string>, a: Place, b: Place, c: Place)
    requires Sized(bufs) && Inside(bufs, a) && Inside(bufs, b) && Inside(bufs, c) && Before(a, b) && Before(b, c)
    ensures Before(a, c) && Span(bufs, a, b) + Span(bufs, b, c) == Span(bufs, a, c)
    decreases b.buf - a.buf
  {
    if a.buf == b.buf {
      var l := bufs[a.buf];
      if b.buf == c.buf {
        assert l[a.pos..b.pos] + l[b.pos..c.pos] == l[a.pos..c.pos];
      } else {
        assert l[a.pos..b.pos] + l[b.pos..] == l[a.pos..];
        assert Span(bufs, a, b) + (l[b.pos..] + Span(bufs, Place(b.buf + 1, 0), c))
               == l[a.pos..] + Span(bufs, Place(b.buf + 1, 0), c);
      }
    } else {
      var a' := Place(a.buf + 1, 0);
      SpanJoin(bufs, a', b, c);
      assert Span(bufs, a, b) + Span(bufs, b, c) == bufs[a.buf][a.pos..] + (Span(bufs, a', b) + Span(bufs, b, c));
    }
  }

  /** Bytes behind a stretch may change. */
  lemma {:induction false} SpanFrame(bufs: seq<string>, bufs': seq<string>, a: Place, b: Place)
    requires Sized(bufs) && Sized(bufs') && Inside(bufs, a) && Inside(bufs, b) && Before(a, b) && |bufs'| >= |bufs|
    requires forall i :: 0 <= i < b.buf ==> bufs'[i] == bufs[i]
    requires bufs'[b.buf][..b.pos] == bufs[b.buf][..b.pos]
    ensures Span(bufs', a, b) == Span(bufs, a, b)
    decreases b.buf - a.buf
  {
    if a.buf == b.buf {
      assert bufs'[a.buf][a.pos..b.pos] == bufs'[a.buf][..b.pos][a.pos..];
      assert bufs[a.buf][a.pos..b.pos] == bufs[a.buf][..b.pos][a.pos..];
    } else {
      SpanFrame(bufs, bufs', Place(a.buf + 1, 0), b);
    }
  }

  /** The end of a full buffer and the start of the next are the same place. */
  lemma {:induction false} SpanOver(bufs: seq<string>, a: Place, b: Place)
    requires Sized(bufs) && Inside(bufs, a) && Inside(bufs, b) && Before(a, b) && b.pos == BUF_SIZE
             && b.buf + 1 < |bufs|
    ensures Span(bufs, a, Place(b.buf + 1, 0)) == Span(bufs, a, b)
  {
    var next := Place(b.buf + 1, 0);
    SpanJoin(bufs, a, b, next);
    assert Span(bufs, b, next) == [] by {
      assert bufs[b.buf][BUF_SIZE..] == [];
      assert Span(bufs, next, next) == [];
    }
    assert Span(bufs, a, b) + [] == Span(bufs, a, b);
  }

  // ------------------------------------------------------------------
  // Pieces

  ghost predicate PieceInside(bufs: seq<string>, p: Piece) {
    p.buf < |bufs| && p.start + p.len <= |bufs[p.buf]|
  }

  ghost function Gathered(bufs: seq<string>, ps: seq<Piece>): (s: string) {
    if ps == [] then ""
    else
      var p := ps[0];
      (if PieceInside(bufs, p) then bufs[p.buf][p.start..p.start + p.len] else "") + Gathered(bufs, ps[1..])
  }

  lemma {:induction false} GatheredAppend(bufs: seq<string>, ps: seq<Piece>, p: Piece)
    requires PieceInside(bufs, p)
    ensures Gathered(bufs, ps + [p]) == Gathered(bufs, ps) + bufs[p.buf][p.start..p.start + p.len]
  {
    var s := bufs[p.buf][p.start..p.start + p.len];
    if ps == [] {
      assert ps + [p] == [p] && [p][1..] == [];
      assert s + "" == s && "" + s == s;
    } else {
      assert (ps + [p])[1..] == ps[1..] + [p];
      GatheredAppend(bufs, ps[1..], p);
      var h := if PieceInside(bufs, ps[0]) then bufs[ps[0].buf][ps[0].start..ps[0].start + ps[0].len] else "";
      assert h + (Gathered(bufs, ps[1..]) + s) == (h + Gathered(bufs, ps[1..])) + s;
    }
  }

  lemma {:induction false} GatheredOne(bufs: seq<string>, p: Piece)
    requires PieceInside(bufs, p)
    ensures Gathered(bufs, [p]) == bufs[p.buf][p.start..p.start + p.len]
  {
    assert [p][1..] == [];
  }

  /** MakeContentDataIOV: first piece, whole buffers, last piece. */
  method MakePieces(bufs: seq<string>, a: Place, b: Place) returns (ps: seq<Piece>)
    requires Sized(bufs) && Inside(bufs, a) && Inside(bufs, b) && Before(a, b)
    ensures |ps| == 1 + b.buf - a.buf && forall i :: 0 <= i < |ps| ==> PieceInside(bufs, ps[i])
    ensures Gathered(bufs, ps) == Span(bufs, a, b)
  {
    hide Gathered;
    GatheredOne(bufs, Piece(a.buf, a.pos, if a.buf == b.buf then b.pos - a.pos else BUF_SIZE - a.pos));
    if a.buf == b.buf {
      ps := [Piece(a.buf, a.pos, b.pos - a.pos)];
      return;
    }
    ps := [Piece(a.buf, a.pos, BUF_SIZE - a.pos)];
    var i := a.buf + 1;
    assert Span(bufs, a, Place(a.buf, BUF_SIZE)) == bufs[a.buf][a.pos..BUF_SIZE];
    while i < b.buf
      invariant a.buf + 1 <= i <= b.buf && |ps| == i - a.buf && forall j :: 0 <= j < |ps| ==> PieceInside(bufs, ps[j])
      invariant Gathered(bufs, ps) == Span(bufs, a, Place(i - 1, BUF_SIZE))
    {
      AddPiece(bufs, a, ps, i, BUF_SIZE);
      ps := ps + [Piece(i, 0, BUF_SIZE)];
      i := i + 1;
    }
    AddPiece(bufs, a, ps, i, b.pos);
    ps := ps + [Piece(b.buf, 0, b.pos)];
  }

  lemma {:induction false} SpanWithin(bufs: seq<string>, i: nat, from: nat, n: nat)
    requires Sized(bufs) && i < |bufs| && from <= n <= BUF_SIZE
    ensures Span(bufs, Place(i, from), Place(i, n)) == bufs[i][from..n]
  {
  }

  lemma {:induction false} AddPiece(bufs: seq<string>, a: Place, ps: seq<Piece>, i: nat, n: nat)
    requires Sized(bufs) && Inside(bufs, a) && a.buf < i < |bufs| && n <= BUF_SIZE
    requires Gathered(bufs, ps) == Span(bufs, a, Place(i - 1, BUF_SIZE))
    ensures Gathered(bufs, ps + [Piece(i, 0, n)]) == Span(bufs, a, Place(i, n))
  {
    hide Gathered, Span;
    GatheredAppend(bufs, ps, Piece(i, 0, n));
    SpanOver(bufs, a, Place(i - 1, BUF_SIZE));
    SpanJoin(bufs, a, Place(i, 0), Place(i, n));
    SpanWithin(bufs, i, 0, n);
  }

  // ------------------------------------------------------------------
  // Reading

  datatype Status = Done | ReadMore

  /** New input right behind a stretch makes it longer. */
  lemma {:induction false} SpanWrite(bufs: seq<string>, a: Place, b: Place, data: string)
    requires Sized(bufs) && Inside(bufs, a) && Inside(bufs, b) && Before(a, b) && b.pos + |data| <= BUF_SIZE
    ensures var bufs' := bufs[b.buf := Overwrite(bufs[b.buf], b.pos, data)];
            Sized(bufs') && Span(bufs', a, Place(b.buf, b.pos + |data|)) == Span(bufs, a, b) + data
  {
    var bufs', c := bufs[b.buf := Overwrite(bufs[b.buf], b.pos, data)], Place(b.buf, b.pos + |data|);
    SpanFrame(bufs, bufs', a, b);
    SpanJoin(bufs', a, b, c);
    assert bufs'[b.buf][b.pos..b.pos + |data|] == data;
  }

  /** The first bytes of a stretch that ends in the same buffer. */
  lemma {:induction false} SpanCut(bufs: seq<string>, a: Place, b: Place, n: nat)
    requires Sized(bufs) && Inside(bufs, a) && Inside(bufs, b) && Before(a, b)
    requires n <= b.pos && Before(a, Place(b.buf, n))
    ensures var s := Span(bufs, a, b); Span(bufs, a, Place(b.buf, n)) == s[..|s| - (b.pos - n)]
  {
    SpanJoin(bufs, a, Place(b.buf, n), b);
  }

  class Reader {
    var bufs: seq<string>
    /** Where input goes next; up to where the request has been taken; where the body starts. */
    var avail: Place
    var unsent: Place
    var start: Place
    var contentLength: nat
    var conDataLeft: nat
    /** The input since the blank line. */
    ghost var got: string

    /** Input has been read into the buffers up to avail. */
    ghost predicate Buffered() reads this {
      Sized(bufs) && Inside(bufs, avail)
    }

    /** Part of the body is there and more is wanted. */
    ghost predicate Waiting() reads this {
      && Buffered() && Inside(bufs, start) && Before(start, avail)
      && Span(bufs, start, avail) == got
      && |got| < contentLength && conDataLeft == contentLength - |got|
    }

    /** The whole body is there, from start to unsent. */
    ghost predicate Complete() reads this {
      && Sized(bufs) && Inside(bufs, start) && Inside(bufs, unsent) && Before(start, unsent)
      && contentLength <= |got| && Span(bufs, start, unsent) == got[..contentLength]
    }

    /** Some input with a header in it: buffers that it has filled, and one that it has begun. */
    constructor (earlier: seq<string>, input: string)
      requires Sized(earlier) && |input| <= BUF_SIZE
      ensures Buffered() && avail == Place(|earlier|, |input|) && bufs[|earlier|][..|input|] == input
    {
      bufs := earlier + [input + seq(BUF_SIZE - |input|, _ => '\0')];
      avail, unsent, start := Place(|earlier|, |input|), Place(0, 0), Place(0, 0);
      contentLength, conDataLeft, got := 0, 0, "";
    }

    /** The blank line has been found to end at pos; without a content length
        there is no body. */
    method EndOfHeader(pos: nat, length: int) returns (status: Status)
      requires Buffered() && pos <= avail.pos
      modifies this`unsent, this`start, this`contentLength, this`conDataLeft, this`got
      ensures got == bufs[avail.buf][pos..avail.pos]
      ensures length < 1 ==> status == Done && unsent == Place(avail.buf, pos)
      ensures length >= 1 ==> contentLength == length && if status == Done then Complete() else Waiting()
    {
      got := bufs[avail.buf][pos..avail.pos];
      unsent := Place(avail.buf, pos);
      if length < 1 {
        return Done;
      }
      contentLength, start := length, unsent;
      if avail.pos - unsent.pos >= length {
        SpanCut(bufs, start, avail, pos + length);
        unsent := Place(unsent.buf, unsent.pos + length);
        return Done;
      }
      conDataLeft := length - (avail.pos - unsent.pos);
      unsent := Place(unsent.buf, avail.pos);
      return ReadMore;
    }

    /** Goes on to the next buffer, which may be there from an earlier request. */
    method GetNewBuffer()
      requires Waiting() && avail.pos == BUF_SIZE
      modifies this`bufs, this`avail
      ensures Waiting() && avail == Place(old(avail.buf) + 1, 0)
    {
      ghost var was := bufs;
      if avail.buf + 1 == |bufs| {
        bufs := bufs + [seq(BUF_SIZE, _ => '\0')];
      }
      SpanFrame(was, bufs, start, avail);
      SpanOver(bufs, start, avail);
      avail := Place(avail.buf + 1, 0);
    }

    /** Room for the next read. */
    function Room(): (n: int) reads this { if avail.pos == BUF_SIZE then BUF_SIZE else BUF_SIZE - avail.pos }

    /** A read of some more of the body, and perhaps of what follows it. */
    method ReadData(data: string) returns (status: Status)
      requires Waiting() && 0 < |data| <= Room()
      modifies this`bufs, this`avail, this`unsent, this`conDataLeft, this`got
      ensures got == old(got) + data
      ensures status == Done <==> |got| >= contentLength
      ensures if status == Done then Complete() else Waiting()
    {
      hide Span;
      if avail.pos == BUF_SIZE {
        GetNewBuffer();
      }
      BodyGrows(bufs, start, avail, data, got, contentLength);
      bufs := bufs[avail.buf := Overwrite(bufs[avail.buf], avail.pos, data)];
      avail := Place(avail.buf, avail.pos + |data|);
      got := got + data;
      if |data| >= conDataLeft {
        unsent := Place(avail.buf, avail.pos - (|data| - conDataLeft));
        conDataLeft := 0;
        return Done;
      }
      conDataLeft := conDataLeft - |data|;
      unsent := avail;
      return ReadMore;
    }
  }

  /** The stretch after a read, and its first length bytes when they are there. */
  lemma {:induction false} BodyGrows(bufs: seq<string>, a: Place, b: Place, data: string, got: string, length: nat)
    requires Sized(bufs) && Inside(bufs, a) && Inside(bufs, b) && Before(a, b) && b.pos + |data| <= BUF_SIZE
    requires Span(bufs, a, b) == got && |got| < length
    ensures var bufs', all := bufs[b.buf := Overwrite(bufs[b.buf], b.pos, data)], got + data;
            && Sized(bufs') && Before(a, Place(b.buf, b.pos + |data|))
            && Span(bufs', a, Place(b.buf, b.pos + |data|)) == all
            && (|all| >= length ==>
                 var end := Place(b.buf, b.pos + (length - |got|));
                 Before(a, end) && Span(bufs', a, end) == all[..length])
  {
    hide Span;
    SpanWrite(bufs, a, b, data);
    if |got + data| >= length {
      var bufs' := bufs[b.buf := Overwrite(bufs[b.buf], b.pos, data)];
      SpanCut(bufs', a, Place(b.buf, b.pos + |data|), b.pos + (length - |got|));
    }
  }

  /** For every way the input is cut up, the pieces handed on hold exactly the
      first contentLength bytes behind the blank line. The header may have filled
      any number of buffers before; first bytes of the body came into the buffer
      in which it ends, by the read that ended it. */
  method ReceiveBody(earlier: seq<string>, header: string, length: nat, body: string, first: nat, sizes: seq<nat>)
      returns (taken: bool, bufs: seq<string>, pieces: seq<Piece>)
    requires Sized(earlier) && |header| + first <= BUF_SIZE && first <= |body| && length > 0
    ensures taken ==> length <= |body| && Sized(bufs) && Gathered(bufs, pieces) == body[..length]
    ensures taken ==> forall i :: 0 <= i < |pieces| ==> PieceInside(bufs, pieces[i])
    ensures |sizes| >= |body| ==> (taken <==> length <= |body|)
  {
    hide Span, Gathered;
    var r := new Reader(earlier, header + body[..first]);
    ghost var last := r.bufs[|earlier|];
    assert last[|header|..|header| + first] == last[..|header| + first][|header|..] == body[..first];
    var status := r.EndOfHeader(|header|, length);
    var at, i := first, 0;
    while status == ReadMore && i < |sizes| && at < |body|
      invariant 0 <= i <= |sizes| && first + i <= at <= |body| && fresh(r) && r.contentLength == length
                && r.got == body[..at]
      invariant if status == Done then r.Complete() else r.Waiting()
    {
      var n := if sizes[i] == 0 then 1 else sizes[i];
      n := if n > r.Room() then r.Room() else n;
      n := if n > |body| - at then |body| - at else n;
      assert body[..at] + body[at..at + n] == body[..at + n];
      status := r.ReadData(body[at..at + n]);
      at, i := at + n, i + 1;
    }
    if status == ReadMore {
      return false, [], [];
    }
    pieces := MakePieces(r.bufs, r.start, r.unsent);
    assert body[..at][..length] == body[..length];
    return true, r.bufs, pieces;
  }
}
