/** Splitting a byte stream that arrives in arbitrary reads into lines of bounded length. */
module LineSplit {
  import opened Bytes
  import opened Outcomes

  const NEWLINE: byte := 10
  const RETURN: byte := 13

  /** One fill of the reader's buffer. */
  datatype Read = Data(data: bytes) | Fault

  /** What one call for the next line answers. */
  datatype Item = Line(text: bytes) | EndOfInput | TooLong(seen: nat) | ReadFailed

  /** Text collected so far, and the reads still to come. */
  datatype State = State(buf: bytes, pending: seq<Read>)

  /** A reader only hands out an empty buffer at the end of its input. */
  predicate NonEmptyReads(pending: seq<Read>) {
    forall i :: 0 <= i < |pending| ==> pending[i] != Data([])
  }

  predicate Ready(s: State, max: nat) {
    |s.buf| <= max && NEWLINE !in s.buf && NonEmptyReads(s.pending)
  }

  /** The position of the first newline, or the length. */
  function FirstNewline(b: bytes): (i: nat)
    ensures i <= |b| && NEWLINE !in b[..i] && (i < |b| ==> b[i] == NEWLINE)
  {
    if b == [] || b[0] == NEWLINE then 0 else
    var i := FirstNewline(b[1..]);
    assert b[..i + 1] == [b[0]] + b[1..][..i];
    i + 1
  }

  /** The line in a full buffer, without one carriage return at its end. */
  function TakeLine(buf: bytes): bytes {
    if buf != [] && buf[|buf| - 1] == RETURN then buf[..|buf| - 1] else buf
  }

  // ---- one read, and runs of them ----

  /** The buffer and remaining reads after the bytes of the first read up to its newline are taken. */
  function Extend(s: State): State
    requires s.pending != [] && s.pending[0].Data?
  {
    var d := s.pending[0].data;
    var i := FirstNewline(d);
    State(s.buf + d[..i], if i + 1 < |d| then [Data(d[i + 1..])] + s.pending[1..] else s.pending[1..])
  }

  /** Looks at the reader once; None when the line is still incomplete. */
  function Step(s: State, max: nat): (State, Option<Item>) {
    if s.pending == [] then
      if s.buf == [] then (s, Some(EndOfInput)) else (s.(buf := []), Some(Line(TakeLine(s.buf))))
    else if s.pending[0].Fault? then
      (s.(pending := s.pending[1..]), Some(ReadFailed))
    else
      var next := Extend(s);
      if |next.buf| > max then (next.(buf := []), Some(TooLong(|next.buf|)))
      else if FirstNewline(s.pending[0].data) < |s.pending[0].data| then
        (next.(buf := []), Some(Line(TakeLine(next.buf))))
      else (next, None)
  }

  function Size(pending: seq<Read>): nat {
    if pending == [] then 0 else 1 + (if pending[0].Data? then |pending[0].data| else 0) + Size(pending[1..])
  }

  lemma {:induction false} StepShrinks(s: State, max: nat)
    requires Ready(s, max)
    ensures var (next, item) := Step(s, max);
            Ready(next, max) && (s.pending != [] ==> Size(next.pending) < Size(s.pending))
    ensures var (next, item) := Step(s, max);
            s.pending == [] ==> next.pending == [] && next.buf == [] && item.Some?
  {
    if s.pending != [] && s.pending[0].Data? {
      var d, tail := s.pending[0].data, s.pending[1..];
      var i := FirstNewline(d);
      if i + 1 < |d| {
        assert ([Data(d[i + 1..])] + tail)[1..] == tail;
      }
    }
  }

  /** The answer of one call: steps until there is one. */
  function Next(s: State, max: nat): (State, Item)
    requires Ready(s, max)
    decreases Size(s.pending)
  {
    StepShrinks(s, max);
    var (next, item) := Step(s, max);
    match item
    case Some(answer) => (next, answer)
    case None => Next(next, max)
  }

  /** All answers up to and including the first that is not a line. */
  function Answers(s: State, max: nat): seq<Item>
    requires Ready(s, max)
    decreases Size(s.pending), |s.buf|
  {
    StepShrinks(s, max);
    var (next, item) := Step(s, max);
    match item
    case None => Answers(next, max)
    case Some(answer) => if answer.Line? then [answer] + Answers(next, max) else [answer]
  }

  /** All answers through the end of the input, past every error. */
  function AllAnswers(s: State, max: nat): seq<Item>
    requires Ready(s, max)
    decreases Size(s.pending), |s.buf|
  {
    StepShrinks(s, max);
    var (next, item) := Step(s, max);
    match item
    case None => AllAnswers(next, max)
    case Some(answer) => if answer.EndOfInput? then [answer] else [answer] + AllAnswers(next, max)
  }

  // ---- the reference split ----

  /** The bytes up to the first fault. */
  function Stream(pending: seq<Read>): bytes {
    if pending == [] || pending[0].Fault? then [] else pending[0].data + Stream(pending[1..])
  }

  predicate Faulty(pending: seq<Read>) {
    pending != [] && (pending[0].Fault? || Faulty(pending[1..]))
  }

  /** The pieces between newlines; the last is what follows the last newline. */
  function Pieces(stream: bytes): (pieces: seq<bytes>)
    ensures pieces != []
  {
    var i := FirstNewline(stream);
    if i == |stream| then [stream] else [stream[..i]] + Pieces(stream[i + 1..])
  }

  function Expected(pieces: seq<bytes>, faulty: bool, max: nat): seq<Item>
    requires pieces != []
  {
    if |pieces[0]| > max then [TooLong(|pieces[0]|)]
    else if |pieces| > 1 then [Line(TakeLine(pieces[0]))] + Expected(pieces[1..], faulty, max)
    else if faulty then [ReadFailed]
    else if pieces[0] == [] then [EndOfInput]
    else [Line(TakeLine(pieces[0])), EndOfInput]
  }

  /** Equal answers, except for the byte count an over-long line is reported with. */
  predicate SameAnswers(a: seq<Item>, b: seq<Item>) {
    |a| == |b| && forall i :: 0 <= i < |a| ==> a[i] == b[i] || (a[i].TooLong? && b[i].TooLong?)
  }
}
