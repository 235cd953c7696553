/** The line reader of the stdio planes, as an object that carries partial input across calls. */
module CappedLines {
  import opened Bytes
  import opened Outcomes
  import opened LineSplit

  /** All bytes the reader still holds, across faults. */
  function Unread(pending: seq<Read>): bytes {
    if pending == [] then [] else (if pending[0].Data? then pending[0].data else []) + Unread(pending[1..])
  }

  class CappedLines {
    var pending: seq<Read>
    var buf: bytes
    const max: nat
    /** Every byte that left the object, terminators and refused lines included. */
    ghost var gone: bytes

    ghost predicate Valid()
      reads this
    {
      Ready(Current(), max)
    }

    ghost function Current(): State
      reads this
    {
      State(buf, pending)
    }

    /** Bytes gone, buffered and unread, in stream order. */
    ghost function Everything(): bytes
      reads this
    {
      gone + buf + Unread(pending)
    }

    constructor (reader: seq<Read>, max: nat)
      requires NonEmptyReads(reader)
      ensures Valid() && Current() == State([], reader) && this.max == max
      ensures Everything() == Unread(reader)
    {
      this.pending := reader;
      this.buf := [];
      this.max := max;
      this.gone := [];
    }

    /** Hands out the buffer as a line and empties it; `ending` is what followed it in the stream. */
    method TakeLine(ghost ending: bytes) returns (text: bytes)
      requires ending == [] || ending == [NEWLINE]
      modifies this`buf, this`gone
      ensures text == LineSplit.TakeLine(old(buf)) && buf == []
      ensures gone == old(gone) + old(buf) + ending && gone + buf == gone
      ensures EndsLine(old(gone), gone, text)
    {
      LineLeaves(gone, buf, ending);
      gone := gone + buf + ending;
      if buf != [] && buf[|buf| - 1] == RETURN {
        buf := buf[..|buf| - 1];
      }
      text := buf;
      buf := [];
    }

    /** Drops an over-long line and whatever of its ending was read. */
    method Discard(ghost ending: bytes) returns (seen: nat)
      modifies this`buf, this`gone
      ensures seen == |old(buf)| && buf == []
      ensures gone == old(gone) + old(buf) + ending && gone + buf == gone
    {
      seen := |buf|;
      gone := gone + buf + ending;
      buf := [];
    }

    /** Moves the first read, up to its newline, into the buffer. */
    method FillBuffer() returns (complete: bool)
      requires Valid() && pending != [] && pending[0].Data?
      modifies this`buf, this`pending
      ensures Current() == Extend(old(Current()))
      ensures complete <==> FirstNewline(old(pending[0].data)) < |old(pending[0].data)|
      ensures gone == old(gone)
      ensures gone + buf + (if complete then [NEWLINE] else []) + Unread(pending) == old(Everything())
    {
      var available, rest := pending[0].data, pending[1..];
      var i := FirstNewline(available);
      ghost var was := buf;
      complete := i < |available|;
      buf := buf + available[..i];
      pending := if i + 1 < |available| then [Data(available[i + 1..])] + rest else rest;
      BytesKept(gone, was, available, i, Unread(rest));
      if i + 1 < |available| {
        assert pending[1..] == rest;
      }
    }

    /** Looks at the reader once. */
    method Poll() returns (item: Option<Item>)
      requires Valid()
      modifies this`buf, this`pending, this`gone
      ensures Valid()
      ensures (Current(), item) == Step(old(Current()), max)
      ensures Everything() == old(Everything())
      ensures item.None? ==> gone == old(gone)
      ensures item.Some? && item.value.Line? ==> EndsLine(old(gone), gone, item.value.text)
      ensures item.Some? && item.value.TooLong? ==>
                item.value.seen > max && |gone| - |old(gone)| - item.value.seen in {0, 1}
    {
      StepShrinks(Current(), max);
      if pending == [] {
        if buf == [] {
          return Some(EndOfInput);
        }
        assert gone + buf + [] == gone + buf;
        var text := TakeLine([]);
        return Some(Line(text));
      }
      if pending[0].Fault? {
        pending := pending[1..];
        return Some(ReadFailed);
      }
      var complete := FillBuffer();
      ghost var ending := if complete then [NEWLINE] else [];
      if |buf| > max {
        var seen := Discard(ending);
        return Some(TooLong(seen));
      }
      if complete {
        var text := TakeLine(ending);
        return Some(Line(text));
      }
      assert gone + buf + [] == gone + buf;
      return None;
    }

    /**
     The next line. The caller may drop the call while it waits for input: it looks at the reader
     at most `patience` times. A dropped call leaves exactly the answers that were due before.
     */
    method NextLine(patience: nat) returns (item: Option<Item>)
      requires Valid()
      modifies this`buf, this`pending, this`gone
      ensures Valid()
      ensures item.Some? ==> (Current(), item.value) == Next(old(Current()), max)
      ensures item.None? ==> Next(Current(), max) == Next(old(Current()), max)
      ensures item.None? ==> Answers(Current(), max) == Answers(old(Current()), max)
      ensures AllAnswers(old(Current()), max) ==
              (if item.None? || item.value.EndOfInput? then [] else [item.value]) + AllAnswers(Current(), max)
      ensures Everything() == old(Everything())
      ensures item.None? ==> gone == old(gone)
      ensures item.Some? && item.value.Line? ==> EndsLine(old(gone), gone, item.value.text)
      ensures item.Some? && item.value.TooLong? ==>
                item.value.seen > max && |gone| - |old(gone)| - item.value.seen in {0, 1}
      ensures patience > Size(old(pending)) ==> item.Some?
    {
      ghost var start := Current();
      for looks := 0 to patience
        invariant Valid() && Everything() == old(Everything()) && gone == old(gone)
        invariant Next(Current(), max) == Next(start, max)
        invariant Answers(Current(), max) == Answers(start, max)
        invariant AllAnswers(Current(), max) == AllAnswers(start, max)
        invariant looks + Size(pending) <= Size(old(pending))
      {
        StepShrinks(Current(), max);
        item := Poll();
        if item.Some? {
          return;
        }
      }
      return None;
    }
  }

  lemma BytesKept(gone: bytes, buf: bytes, data: bytes, i: nat, rest: bytes)
    requires i <= |data| && (i < |data| ==> data[i] == NEWLINE)
    ensures i == |data| ==> gone + (buf + data[..i]) + [] + rest == gone + buf + (data + rest)
    ensures i == |data| - 1 ==> gone + (buf + data[..i]) + [NEWLINE] + rest == gone + buf + (data + rest)
    ensures i < |data| ==> gone + (buf + data[..i]) + [NEWLINE] + (data[i + 1..] + rest) == gone + buf + (data + rest)
  {
    if i == |data| {
      assert data[..i] == data;
    } else {
      assert data == data[..i] + [NEWLINE] + data[i + 1..];
    }
  }

  /** What leaves with a line is its text, the one carriage return taken off it, and the newline. */
  predicate EndsLine(before: bytes, after: bytes, text: bytes) {
    || after == before + text + [13]
    || after == before + text + [13, 10]
    || ((text == [] || text[|text| - 1] != 13) && (after == before + text || after == before + text + [10]))
  }

  lemma LineLeaves(before: bytes, buf: bytes, ending: bytes)
    requires ending == [] || ending == [NEWLINE]
    ensures EndsLine(before, before + buf + ending, LineSplit.TakeLine(buf))
  {
    var text := LineSplit.TakeLine(buf);
    if text == buf {
      assert before + buf + [] == before + text;
    } else {
      assert buf == text + [RETURN];
      assert before + (text + [RETURN]) + [] == before + text + [RETURN];
      assert before + (text + [RETURN]) + [NEWLINE] == before + text + [RETURN, NEWLINE];
    }
  }
}
