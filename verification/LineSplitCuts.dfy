/**
 When all the answers to a stream, past its over-long lines and through its end, are the same
 however the stream is cut into reads.
 */
module LineSplitCuts {
  import opened Bytes
  import opened Outcomes
  import opened LineSplit
  import opened LineSplitProofs

  /** The reads are a way of cutting the stream, without faults. */
  predicate Cuts(cut: seq<Read>, stream: bytes) {
    NonEmptyReads(cut) && !Faulty(cut) && Stream(cut) == stream
  }

  /** All answers to the stream in these reads. */
  function AnswersTo(cut: seq<Read>, max: nat): seq<Item>
    requires NonEmptyReads(cut)
  {
    AllAnswers(State([], cut), max)
  }

  /** Every way of cutting the stream gets the same answers. */
  ghost predicate CutsAgree(stream: bytes, max: nat) {
    forall a, b :: Cuts(a, stream) && Cuts(b, stream) ==> SameAnswers(AnswersTo(a, max), AnswersTo(b, max))
  }

  /** The same, down to the byte counts over-long lines are reported with. */
  ghost predicate CutsEqual(stream: bytes, max: nat) {
    forall a, b :: Cuts(a, stream) && Cuts(b, stream) ==> AnswersTo(a, max) == AnswersTo(b, max)
  }

  /** No line is over the cap; what follows the last newline is at most one byte over. */
  predicate Tame(pieces: seq<bytes>, max: nat)
    requires pieces != []
  {
    if |pieces| == 1 then |pieces[0]| <= max + 1 else |pieces[0]| <= max && Tame(pieces[1..], max)
  }

  lemma {:induction false} TameExactly(pieces: seq<bytes>, max: nat)
    requires pieces != []
    ensures Tame(pieces, max) <==>
            (forall i :: 0 <= i < |pieces| - 1 ==> |pieces[i]| <= max) && |pieces[|pieces| - 1]| <= max + 1
  {
    if |pieces| > 1 {
      TameExactly(pieces[1..], max);
      assert forall i :: 1 <= i < |pieces| ==> pieces[i] == pieces[1..][i - 1];
    }
  }

  // ---- tame streams: the answers are those of the pieces ----

  function TameAnswers(pieces: seq<bytes>, max: nat): seq<Item>
    requires pieces != []
  {
    if |pieces| > 1 then [Line(TakeLine(pieces[0]))] + TameAnswers(pieces[1..], max)
    else if |pieces[0]| > max then [TooLong(|pieces[0]|), EndOfInput]
    else if pieces[0] == [] then [EndOfInput]
    else [Line(TakeLine(pieces[0])), EndOfInput]
  }

  ghost predicate Calm(s: State, max: nat) {
    Ready(s, max) && !Faulty(s.pending) && Tame(Pieces(Total(s)), max)
  }

  lemma {:induction false} NoReadsLeft(cut: seq<Read>)
    requires NonEmptyReads(cut) && !Faulty(cut) && Stream(cut) == []
    ensures cut == []
  {
  }

  /** An overrun in a tame stream takes the whole rest of it. */
  lemma {:induction false} OverrunIsLast(s: State, max: nat)
    requires Calm(s, max) && s.pending != [] && s.pending[0].Data?
    requires FirstNewline(s.pending[0].data) == |s.pending[0].data| && |Extend(s).buf| > max
    ensures Extend(s).pending == [] && Pieces(Total(s)) == [Extend(s).buf]
  {
    var d, rest := s.pending[0].data, s.pending[1..];
    assert d[..|d|] == d;
    var head := s.buf + d;
    NoNewlineInSum(s.buf, d);
    assert Total(s) == head + Stream(rest);
    FirstPieceCovers(head, Stream(rest));
    var pieces := Pieces(Total(s));
    assert |pieces| == 1 && |pieces[0]| == |head|;
    JoinOfPieces(Total(s));
    assert Stream(rest) == [];
    assert forall i :: 0 <= i < |rest| ==> rest[i] == s.pending[i + 1];
    NoReadsLeft(rest);
    assert Total(s) == head;
  }

  lemma {:induction false} CalmStep(s: State, max: nat)
    requires Calm(s, max)
    ensures var (next, item) := Step(s, max);
            var due := TameAnswers(Pieces(Total(s)), max);
            match item
            case None => Calm(next, max) && due == TameAnswers(Pieces(Total(next)), max)
            case Some(EndOfInput) => due == [EndOfInput]
            case Some(Line(text)) => Calm(next, max) && due == [Line(text)] + TameAnswers(Pieces(Total(next)), max)
            case Some(TooLong(seen)) => next == State([], []) && due == [TooLong(seen), EndOfInput]
            case Some(ReadFailed) => false
  {
    StepShrinks(s, max);
    if s.pending == [] {
      assert Total(s) == s.buf;
      PiecesWhole(s.buf);
      PiecesWhole([]);
    } else {
      ExtendStream(s);
      if FirstNewline(s.pending[0].data) < |s.pending[0].data| {
        NewlinePieces(s);
      } else {
        PartialStep(s, max);
        if |Extend(s).buf| > max {
          OverrunIsLast(s, max);
        }
      }
    }
  }

  lemma {:induction false} CalmAnswers(s: State, max: nat)
    requires Calm(s, max)
    ensures AllAnswers(s, max) == TameAnswers(Pieces(Total(s)), max)
    decreases Size(s.pending), |s.buf|
  {
    StepShrinks(s, max);
    CalmStep(s, max);
    var (next, item) := Step(s, max);
    if item.None? || item.value.Line? {
      CalmAnswers(next, max);
    }
  }

  /** On a tame stream all cuts agree. */
  lemma {:induction false} TameCutsAgree(stream: bytes, max: nat)
    requires Tame(Pieces(stream), max)
    ensures CutsAgree(stream, max) && CutsEqual(stream, max)
  {
    forall a, b | Cuts(a, stream) && Cuts(b, stream)
      ensures AnswersTo(a, max) == AnswersTo(b, max)
    {
      assert Total(State([], a)) == stream && Total(State([], b)) == stream;
      CalmAnswers(State([], a), max);
      CalmAnswers(State([], b), max);
    }
  }

  // ---- other streams: two cuts that disagree ----

  function Whole(stream: bytes): (cut: seq<Read>)
    ensures Cuts(cut, stream)
  {
    if stream == [] then [] else [Data(stream)]
  }

  lemma {:induction false} StreamFirst(d: bytes, rest: seq<Read>)
    ensures Stream([Data(d)] + rest) == d + Stream(rest)
    ensures Faulty([Data(d)] + rest) == Faulty(rest)
    ensures d != [] && NonEmptyReads(rest) ==> NonEmptyReads([Data(d)] + rest)
  {
    assert ([Data(d)] + rest)[1..] == rest;
  }

  function CutAt(stream: bytes, n: nat): (cut: seq<Read>)
    requires 0 < n < |stream|
    ensures Cuts(cut, stream)
  {
    StreamFirst(stream[..n], [Data(stream[n..])]);
    assert Cuts([Data(stream[n..])], stream[n..]);
    assert stream[..n] + stream[n..] == stream;
    [Data(stream[..n])] + [Data(stream[n..])]
  }

  /** The reads that are left after a first read d up to its newline i. */
  function After(d: bytes, i: nat, rest: seq<Read>): seq<Read>
    requires i < |d|
  {
    if i + 1 < |d| then [Data(d[i + 1..])] + rest else rest
  }

  /** The answers begin with the first read's first line, or the error for it. */
  lemma {:induction false} FirstAnswer(d: bytes, rest: seq<Read>, max: nat)
    requires NonEmptyReads([Data(d)] + rest)
    requires FirstNewline(d) < |d| || |d| > max
    ensures var i := FirstNewline(d);
            var left := if i < |d| then After(d, i, rest) else rest;
            var first := if i > max then TooLong(i) else Line(TakeLine(d[..i]));
            NonEmptyReads(left) && AnswersTo([Data(d)] + rest, max) == [first] + AnswersTo(left, max)
  {
    var s := State([], [Data(d)] + rest);
    StepShrinks(s, max);
    assert s.pending[1..] == rest && [] + d[..FirstNewline(d)] == d[..FirstNewline(d)];
    assert d[..|d|] == d;
  }

  /** The last, newline-free read of a stream is a line or an error, and then the end. */
  lemma {:induction false} LastRead(d: bytes, max: nat)
    requires d != [] && FirstNewline(d) == |d|
    ensures |AnswersTo([Data(d)], max)| == 2
  {
    var s := State([], [Data(d)]);
    StepShrinks(s, max);
    var (next, item) := Step(s, max);
    assert [] + d[..|d|] == d && s.pending[1..] == [];
    assert next.pending == [];
    if item.None? {
      StepShrinks(next, max);
      assert AllAnswers(next, max) == [Line(TakeLine(d))] + AllAnswers(State([], []), max);
    } else {
      assert AllAnswers(s, max) == [item.value] + AllAnswers(State([], []), max);
    }
  }

  lemma {:induction false} WholeFirst(stream: bytes, tail: bytes, max: nat)
    requires FirstNewline(stream) < |stream| && tail == stream[FirstNewline(stream) + 1..]
    ensures |AnswersTo(Whole(stream), max)| == 1 + |AnswersTo(Whole(tail), max)|
  {
    assert [Data(stream)] + [] == Whole(stream);
    assert After(stream, FirstNewline(stream), []) == Whole(tail);
    FirstAnswer(stream, [], max);
  }

  lemma {:induction false} OverrunFirst(stream: bytes, max: nat)
    requires max + 1 <= FirstNewline(stream) && max + 1 < |stream|
    ensures |AnswersTo(CutAt(stream, max + 1), max)| == 1 + |AnswersTo(Whole(stream[max + 1..]), max)|
  {
    PrefixNewlineFree(stream, max + 1);
    FirstAnswer(stream[..max + 1], [Data(stream[max + 1..])], max);
  }

  /** What an overrun leaves of a line gets as many answers as the line and what follows it. */
  lemma {:induction false} RestOfLine(stream: bytes, n: nat, max: nat)
    requires n <= FirstNewline(stream) < |stream|
    ensures |AnswersTo(Whole(stream[n..]), max)| == |AnswersTo(Whole(stream), max)|
  {
    SuffixNewline(stream, n);
    var tail := stream[FirstNewline(stream) + 1..];
    assert stream[n..][FirstNewline(stream) - n + 1..] == tail;
    WholeFirst(stream, tail, max);
    WholeFirst(stream[n..], tail, max);
  }

  lemma {:induction false} RestOfLast(stream: bytes, n: nat, max: nat)
    requires n < FirstNewline(stream) == |stream|
    ensures |AnswersTo(Whole(stream[n..]), max)| == |AnswersTo(Whole(stream), max)|
  {
    SuffixNewline(stream, n);
    LastRead(stream[n..], max);
    LastRead(stream, max);
  }

  /** Cutting right after the cap is overrun leaves the rest of the line, and one more answer. */
  lemma {:induction false} OverlongDisagrees(stream: bytes, max: nat)
    requires var i := FirstNewline(stream); i > max && (i == |stream| ==> i > max + 1)
    ensures |AnswersTo(CutAt(stream, max + 1), max)| == |AnswersTo(Whole(stream), max)| + 1
  {
    OverrunFirst(stream, max);
    if FirstNewline(stream) < |stream| {
      RestOfLine(stream, max + 1, max);
    } else {
      RestOfLast(stream, max + 1, max);
    }
  }

  lemma {:induction false} PrefixNewlineFree(stream: bytes, n: nat)
    requires n <= FirstNewline(stream)
    ensures FirstNewline(stream[..n]) == n
  {
    NotInPrefix(stream, FirstNewline(stream));
    FirstNewlineUnique(stream[..n], n);
  }

  lemma {:induction false} SuffixNewline(stream: bytes, n: nat)
    requires n <= FirstNewline(stream)
    ensures FirstNewline(stream[n..]) == FirstNewline(stream) - n
  {
    NotInPrefix(stream, FirstNewline(stream));
    FirstNewlineUnique(stream[n..], FirstNewline(stream) - n);
  }

  /** Where to cut a stream that is not tame so that one more answer comes than from the whole. */
  lemma {:induction false} WildCut(stream: bytes, max: nat) returns (n: nat)
    requires !Tame(Pieces(stream), max)
    ensures 0 < n < |stream|
    ensures |AnswersTo(CutAt(stream, n), max)| == |AnswersTo(Whole(stream), max)| + 1
    decreases |stream|
  {
    WildParts(stream, max);
    var i := FirstNewline(stream);
    if i > max {
      n := max + 1;
      OverlongDisagrees(stream, max);
    } else {
      var tail := stream[i + 1..];
      var m := WildCut(tail, max);
      n := LaterDisagrees(stream, tail, m, max);
    }
  }

  /** Either the first piece is too long, or what follows it is not tame. */
  lemma {:induction false} WildParts(stream: bytes, max: nat)
    requires !Tame(Pieces(stream), max)
    ensures var i := FirstNewline(stream);
            if i > max then i == |stream| ==> i > max + 1
            else i < |stream| && !Tame(Pieces(stream[i + 1..]), max)
  {
    var i := FirstNewline(stream);
    if i < |stream| {
      assert ([stream[..i]] + Pieces(stream[i + 1..]))[1..] == Pieces(stream[i + 1..]);
    }
  }

  lemma {:induction false} LaterDisagrees(stream: bytes, tail: bytes, m: nat, max: nat) returns (n: nat)
    requires var i := FirstNewline(stream); i < |stream| && tail == stream[i + 1..] && 0 < m < |tail|
    requires |AnswersTo(CutAt(tail, m), max)| == |AnswersTo(Whole(tail), max)| + 1
    ensures 0 < n < |stream| && |AnswersTo(CutAt(stream, n), max)| == |AnswersTo(Whole(stream), max)| + 1
  {
    n := FirstNewline(stream) + 1 + m;
    LaterCut(stream, tail, m, n, max);
    WholeFirst(stream, tail, max);
  }

  /** A second read does not touch the first read's first line. */
  lemma {:induction false} LineBefore(head: bytes, front: bytes, last: bytes, max: nat)
    requires FirstNewline(head) + 1 < |head| && front == head[FirstNewline(head) + 1..] && last != []
    ensures |AnswersTo([Data(head)] + [Data(last)], max)| == 1 + |AnswersTo([Data(front)] + [Data(last)], max)|
  {
    FirstAnswer(head, [Data(last)], max);
  }

  /** Cutting after the first piece keeps the first answer. */
  lemma {:induction false} LaterCut(stream: bytes, tail: bytes, m: nat, n: nat, max: nat)
    requires var i := FirstNewline(stream);
             i < |stream| && tail == stream[i + 1..] && 0 < m < |tail| && n == i + 1 + m
    ensures n < |stream| && |AnswersTo(CutAt(stream, n), max)| == 1 + |AnswersTo(CutAt(tail, m), max)|
  {
    var i := FirstNewline(stream);
    PrefixNewline(stream, n);
    PartsOfRest(stream, i + 1, m);
    LineBefore(stream[..n], tail[..m], tail[m..], max);
  }

  lemma {:induction false} PartsOfRest(stream: bytes, k: nat, m: nat)
    requires k + m <= |stream|
    ensures stream[..k + m][k..] == stream[k..][..m] && stream[k + m..] == stream[k..][m..]
  {
  }

  lemma {:induction false} PrefixNewline(stream: bytes, n: nat)
    requires FirstNewline(stream) < n <= |stream|
    ensures FirstNewline(stream[..n]) == FirstNewline(stream)
  {
    NotInPrefix(stream, FirstNewline(stream));
    FirstNewlineUnique(stream[..n], FirstNewline(stream));
  }

  /**
   All ways of cutting a fault-free stream into reads get the same answers, through its end and
   past every error, exactly when every line is within the cap and what follows the last newline
   is at most one byte over it. Reporting the lengths of over-long lines makes no difference.
   */
  lemma {:induction false} CutsAgreeExactly(stream: bytes, max: nat)
    ensures CutsAgree(stream, max) <==>
            var pieces := Pieces(stream);
            (forall i :: 0 <= i < |pieces| - 1 ==> |pieces[i]| <= max) && |pieces[|pieces| - 1]| <= max + 1
    ensures CutsEqual(stream, max) <==> CutsAgree(stream, max)
  {
    TameExactly(Pieces(stream), max);
    if Tame(Pieces(stream), max) {
      TameCutsAgree(stream, max);
    } else {
      var n := WildCut(stream, max);
      assert Cuts(CutAt(stream, n), stream) && Cuts(Whole(stream), stream);
      assert !SameAnswers(AnswersTo(CutAt(stream, n), max), AnswersTo(Whole(stream), max));
      assert AnswersTo(CutAt(stream, n), max) != AnswersTo(Whole(stream), max);
    }
  }
}
