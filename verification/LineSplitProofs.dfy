/** What the splitter answers, independently of how its input is cut into reads. */
module LineSplitProofs {
  import opened Bytes
  import opened Outcomes
  import opened LineSplit

  // ---- pieces ----

  /** The inverse of cutting at newlines. */
  function Join(pieces: seq<bytes>): bytes
    requires pieces != []
  {
    if |pieces| == 1 then pieces[0] else pieces[0] + [10] + Join(pieces[1..])
  }

  lemma {:induction false} NotInPrefix(b: bytes, i: nat)
    requires i <= |b| && NEWLINE !in b[..i]
    ensures forall k :: 0 <= k < i ==> b[k] != NEWLINE
  {
    forall k | 0 <= k < i ensures b[k] != NEWLINE {
      assert b[..i][k] == b[k];
    }
  }

  lemma {:induction false} FirstNewlineUnique(b: bytes, i: nat)
    requires i <= |b| && NEWLINE !in b[..i] && (i < |b| ==> b[i] == NEWLINE)
    ensures FirstNewline(b) == i
  {
    NotInPrefix(b, i);
    NotInPrefix(b, FirstNewline(b));
  }

  lemma {:induction false} PiecesHeadTail(head: bytes, tail: bytes)
    requires NEWLINE !in head
    ensures Pieces(head + [NEWLINE] + tail) == [head] + Pieces(tail)
  {
    var b := head + [NEWLINE] + tail;
    assert b[..|head|] == head && b[|head| + 1..] == tail;
    FirstNewlineUnique(b, |head|);
  }

  lemma {:induction false} PiecesWhole(b: bytes)
    requires NEWLINE !in b
    ensures Pieces(b) == [b]
  {
    assert b[..|b|] == b;
    FirstNewlineUnique(b, |b|);
  }

  lemma {:induction false} PiecesOfJoin(pieces: seq<bytes>)
    requires pieces != [] && forall i :: 0 <= i < |pieces| ==> NEWLINE !in pieces[i]
    ensures Pieces(Join(pieces)) == pieces
  {
    if |pieces| == 1 {
      PiecesWhole(pieces[0]);
    } else {
      PiecesOfJoin(pieces[1..]);
      PiecesHeadTail(pieces[0], Join(pieces[1..]));
    }
  }

  lemma {:induction false} JoinOfPieces(stream: bytes)
    ensures Join(Pieces(stream)) == stream
    ensures forall i :: 0 <= i < |Pieces(stream)| ==> NEWLINE !in Pieces(stream)[i]
    decreases |stream|
  {
    var i := FirstNewline(stream);
    if i == |stream| {
      assert stream[..i] == stream;
    } else {
      JoinOfPieces(stream[i + 1..]);
      assert ([stream[..i]] + Pieces(stream[i + 1..]))[1..] == Pieces(stream[i + 1..]);
      assert stream == stream[..i] + [NEWLINE] + stream[i + 1..];
    }
  }

  /** The pieces are the one way to write the stream as newline-free texts joined by newlines. */
  lemma {:induction false} PiecesExact(stream: bytes, pieces: seq<bytes>)
    requires pieces != []
    ensures pieces == Pieces(stream) <==>
            Join(pieces) == stream && forall i :: 0 <= i < |pieces| ==> 10 !in pieces[i]
  {
    JoinOfPieces(stream);
    if forall i :: 0 <= i < |pieces| ==> NEWLINE !in pieces[i] {
      PiecesOfJoin(pieces);
    }
  }

  // ---- chunk independence ----

  /** Every byte up to the first fault that has not been answered yet. */
  function Total(s: State): bytes {
    s.buf + Stream(s.pending)
  }

  function Reference(s: State, max: nat): seq<Item> {
    Expected(Pieces(Total(s)), Faulty(s.pending), max)
  }

  lemma {:induction false} NoNewlineInSum(a: bytes, b: bytes)
    requires NEWLINE !in a && NEWLINE !in b
    ensures NEWLINE !in a + b
  {
  }

  lemma {:induction false} FirstPieceCovers(head: bytes, tail: bytes)
    requires NEWLINE !in head
    ensures |Pieces(head + tail)[0]| >= |head|
  {
    assert forall k :: 0 <= k < |head| ==> (head + tail)[k] == head[k];
  }

  lemma {:induction false} TotalWithNewline(buf: bytes, d: bytes, i: nat, rest: bytes)
    requires i < |d| && d[i] == NEWLINE
    ensures buf + (d + rest) == (buf + d[..i]) + [NEWLINE] + (d[i + 1..] + rest)
  {
    assert d == d[..i] + [NEWLINE] + d[i + 1..];
  }

  lemma {:induction false} ExtendStream(s: State)
    requires s.pending != [] && s.pending[0].Data?
    ensures var d := s.pending[0].data;
            var i := FirstNewline(d);
            i < |d| ==> Stream(Extend(s).pending) == d[i + 1..] + Stream(s.pending[1..])
    ensures Faulty(Extend(s).pending) == Faulty(s.pending)
  {
    var d, tail := s.pending[0].data, s.pending[1..];
    var i := FirstNewline(d);
    if i + 1 < |d| {
      assert ([Data(d[i + 1..])] + tail)[1..] == tail;
    } else if i < |d| {
      assert d[i + 1..] == [];
    }
  }

  /** A read with a newline puts the first piece into the buffer and leaves the others. */
  lemma {:induction false} NewlinePieces(s: State)
    requires NEWLINE !in s.buf && s.pending != [] && s.pending[0].Data?
    requires FirstNewline(s.pending[0].data) < |s.pending[0].data|
    ensures Pieces(Total(s)) == [Extend(s).buf] + Pieces(Total(Extend(s).(buf := [])))
  {
    var d, rest := s.pending[0].data, Stream(s.pending[1..]);
    var i := FirstNewline(d);
    var head, tail := s.buf + d[..i], d[i + 1..] + rest;
    TotalWithNewline(s.buf, d, i, rest);
    NoNewlineInSum(s.buf, d[..i]);
    PiecesHeadTail(head, tail);
    ExtendStream(s);
    assert Total(Extend(s).(buf := [])) == tail;
  }

  /** It completes a line or overruns the cap. */
  lemma {:induction false} NewlineStep(s: State, max: nat)
    requires Ready(s, max) && s.pending != [] && s.pending[0].Data?
    requires FirstNewline(s.pending[0].data) < |s.pending[0].data|
    ensures var next := Extend(s);
            Reference(s, max) == if |next.buf| > max then [TooLong(|next.buf|)]
                                 else [Line(TakeLine(next.buf))] + Reference(next.(buf := []), max)
  {
    NewlinePieces(s);
    ExtendStream(s);
  }

  /** A read without a newline. */
  lemma {:induction false} PartialStep(s: State, max: nat)
    requires Ready(s, max) && s.pending != [] && s.pending[0].Data?
    requires FirstNewline(s.pending[0].data) == |s.pending[0].data|
    ensures Total(Extend(s)) == Total(s)
    ensures |Extend(s).buf| > max ==> |Reference(s, max)| == 1 && Reference(s, max)[0].TooLong?
  {
    var d, rest := s.pending[0].data, Stream(s.pending[1..]);
    assert d[..|d|] == d;
    NoNewlineInSum(s.buf, d);
    assert s.buf + (d + rest) == (s.buf + d) + rest;
    FirstPieceCovers(s.buf + d, rest);
  }

  /** What each step does to the answers that are still due. */
  lemma {:induction false} StepMatches(s: State, max: nat)
    requires Ready(s, max)
    ensures var (next, item) := Step(s, max);
            match item
            case None => Reference(next, max) == Reference(s, max)
            case Some(Line(text)) => Reference(s, max) == [Line(text)] + Reference(next, max)
            case Some(TooLong(_)) => |Reference(s, max)| == 1 && Reference(s, max)[0].TooLong?
            case Some(other) => Reference(s, max) == [other]
  {
    if s.pending == [] || s.pending[0].Fault? {
      assert Total(s) == s.buf;
      PiecesWhole(s.buf);
      PiecesWhole([]);
    } else {
      ExtendStream(s);
      if FirstNewline(s.pending[0].data) < |s.pending[0].data| {
        NewlineStep(s, max);
      } else {
        PartialStep(s, max);
      }
    }
  }

  /** The answers are those of the reference split of everything the reader holds. */
  lemma {:induction false} AnswersMatch(s: State, max: nat)
    requires Ready(s, max)
    ensures SameAnswers(Answers(s, max), Reference(s, max))
    decreases Size(s.pending), |s.buf|
  {
    StepShrinks(s, max);
    StepMatches(s, max);
    var (next, item) := Step(s, max);
    if item.None? || item.value.Line? {
      AnswersMatch(next, max);
    }
  }

  /** Two ways of cutting one stream into reads get the same answers up to the first that is not a line. */
  lemma {:induction false} ChunkIndependent(a: State, b: State, max: nat)
    requires Ready(a, max) && Ready(b, max)
    requires Total(a) == Total(b) && Faulty(a.pending) == Faulty(b.pending)
    ensures SameAnswers(Answers(a, max), Answers(b, max))
  {
    AnswersMatch(a, max);
    AnswersMatch(b, max);
  }

  // ---- what the answers are ----

  /**
   Every answer but the last is the next piece, none over the cap; the last is an over-long
   error exactly when some piece is over the cap.
   */
  lemma {:induction false} ExpectedExactly(pieces: seq<bytes>, faulty: bool, max: nat)
    requires pieces != []
    ensures var items := Expected(pieces, faulty, max);
            && 0 < |items| <= |pieces| + 1
            && (forall i :: 0 <= i < |items| - 1 ==> items[i] == Line(TakeLine(pieces[i])) && |pieces[i]| <= max)
            && !items[|items| - 1].Line?
            && (items[|items| - 1].TooLong? <==> exists i :: 0 <= i < |pieces| && |pieces[i]| > max)
            && (items[|items| - 1].TooLong? ==> |pieces[|items| - 1]| > max)
            && (!items[|items| - 1].TooLong? ==>
                  && items[|items| - 1] == (if faulty then ReadFailed else EndOfInput)
                  && |items| == |pieces| + if faulty || pieces[|pieces| - 1] == [] then 0 else 1)
  {
    if |pieces[0]| <= max && |pieces| > 1 {
      ExpectedExactly(pieces[1..], faulty, max);
      var rest := Expected(pieces[1..], faulty, max);
      var items := Expected(pieces, faulty, max);
      forall i | 0 <= i < |items| - 1 ensures items[i] == Line(TakeLine(pieces[i])) && |pieces[i]| <= max {
        assert i > 0 ==> items[i] == rest[i - 1] && pieces[i] == pieces[1..][i - 1];
      }
      assert forall i :: 1 <= i < |pieces| ==> pieces[i] == pieces[1..][i - 1];
    }
  }

  /** The text of a line: the piece, without one carriage return if it ends in one. */
  predicate TextOf(text: bytes, piece: bytes) {
    piece == text + [13] || (piece == text && (piece == [] || piece[|piece| - 1] != 13))
  }

  lemma {:induction false} TakeLineText(piece: bytes)
    ensures TextOf(TakeLine(piece), piece)
  {
  }

  /** Every line delivered is the text of its piece, whatever the reads. */
  lemma {:induction false} LinesAreTexts(s: State, max: nat)
    requires Ready(s, max)
    ensures var items, pieces := Answers(s, max), Pieces(Total(s));
            forall i :: 0 <= i < |items| && items[i].Line? ==> i < |pieces| && TextOf(items[i].text, pieces[i])
  {
    var items, pieces := Answers(s, max), Pieces(Total(s));
    AnswersMatch(s, max);
    ExpectedExactly(pieces, Faulty(s.pending), max);
    var reference := Expected(pieces, Faulty(s.pending), max);
    forall i | 0 <= i < |items| && items[i].Line? ensures i < |pieces| && TextOf(items[i].text, pieces[i]) {
      assert items[i] == reference[i] && i < |items| - 1;
      TakeLineText(pieces[i]);
    }
  }

  lemma {:induction false} WithinCap(items: seq<Item>, pieces: seq<bytes>, faulty: bool, max: nat)
    requires pieces != [] && SameAnswers(items, Expected(pieces, faulty, max))
    ensures items != [] && LinesShort(items, max)
    ensures items[|items| - 1].TooLong? <==> exists i :: 0 <= i < |pieces| && |pieces[i]| > max
  {
    ExpectedExactly(pieces, faulty, max);
    var reference := Expected(pieces, faulty, max);
    forall i | 0 <= i < |items| && items[i].Line? ensures |items[i].text| <= max {
      assert items[i] == reference[i] && i < |items| - 1;
      assert items[i] == Line(TakeLine(pieces[i]));
    }
  }

  predicate LinesShort(items: seq<Item>, max: nat) {
    forall i :: 0 <= i < |items| && items[i].Line? ==> |items[i].text| <= max
  }

  lemma {:induction false} ConsShort(item: Item, rest: seq<Item>, max: nat)
    requires LinesShort(rest, max) && (item.Line? ==> |item.text| <= max)
    ensures LinesShort([item] + rest, max)
  {
    var items := [item] + rest;
    forall i | 0 <= i < |items| && items[i].Line? ensures |items[i].text| <= max {
      assert items[i] == if i == 0 then item else rest[i - 1];
    }
  }

  /** Past errors, too, no line is over the cap. */
  lemma {:induction false} AllWithinCap(s: State, max: nat)
    requires Ready(s, max)
    ensures LinesShort(AllAnswers(s, max), max)
    decreases Size(s.pending), |s.buf|
  {
    StepShrinks(s, max);
    var (next, item) := Step(s, max);
    if item.None? {
      AllWithinCap(next, max);
    } else if !item.value.EndOfInput? {
      AllWithinCap(next, max);
      ConsShort(item.value, AllAnswers(next, max), max);
    }
  }

  /**
   No line handed out through the end, past every error, is over the cap; and the answers up to
   the first that is not a line end in an over-long error exactly when some piece is over the cap.
   */
  lemma {:induction false} LinesWithinCap(s: State, max: nat)
    requires Ready(s, max)
    ensures LinesShort(AllAnswers(s, max), max)
    ensures var items, pieces := Answers(s, max), Pieces(Total(s));
            && items != []
            && LinesShort(items, max)
            && (items[|items| - 1].TooLong? <==> exists i :: 0 <= i < |pieces| && |pieces[i]| > max)
  {
    AllWithinCap(s, max);
    AnswersMatch(s, max);
    WithinCap(Answers(s, max), Pieces(Total(s)), Faulty(s.pending), max);
  }
}
