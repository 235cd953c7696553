/**
 Any number of writers appending to one table, interleaved step by step: read the head,
 link and sign, read the head again and check the link, INSERT. Nothing but the primary
 key orders the INSERTs.
 */
module AppendProtocol {
  import opened Outcomes
  import opened Receipts
  import opened Merkle
  import opened ReceiptStore

  datatype Writer =
    | Idle
    | Fetched(runId: string, head: Option<Receipt>)
    | Signed(receipt: Receipt)
    | Checked(receipt: Receipt)
    | Done(result: Result<(), AppendError>)

  /** The table, every body signed so far, and where each writer is. */
  datatype State = State(rows: Rows, signed: set<Body>, writers: map<nat, Writer>)

  datatype Step =
    | ReadHead(w: nat, runId: string)
    | LinkAndSign(w: nat, content: string)
    | Present(w: nat, receipt: Receipt)  // hand in a receipt signed before
    | Fabricate(w: nat, body: Body)      // sign a body without linking it
    | CheckLink(w: nat)
    | Insert(w: nat)

  const INIT := State(map[], {}, map[])

  function WriterOf(st: State, w: nat): Writer {
    if w in st.writers then st.writers[w] else Idle
  }

  function Move(st: State, w: nat, to: Writer): State {
    st.(writers := st.writers[w := to])
  }

  /** The body a writer builds from the head it fetched. */
  function LinkedBody(s: Scheme, runId: string, head: Option<Receipt>, content: string): Body {
    var (parent, seqNo) := ChainLink(s, head);
    Body(runId, seqNo, parent, s.keyId, content)
  }

  function Sign(s: Scheme, st: State, w: nat, b: Body): State {
    Move(st.(signed := st.signed + {b}), w, Signed(Receipt(b, s.sign(b))))
  }

  /** One step; a step its writer is not ready for does nothing. */
  ghost function Apply(s: Scheme, st: State, step: Step): State {
    var at := WriterOf(st, step.w);
    match step
    case ReadHead(w, runId) => Move(st, w, Fetched(runId, HeadOf(st.rows, runId)))
    case LinkAndSign(w, content) =>
      if at.Fetched? then Sign(s, st, w, LinkedBody(s, at.runId, at.head, content)) else st
    case Present(w, receipt) =>
      if receipt.body in st.signed && s.verifies(receipt) then Move(st, w, Signed(receipt)) else st
    case Fabricate(w, body) => Sign(s, st, w, body)
    case CheckLink(w) =>
      if !at.Signed? then st
      else
        (match CheckAppendLink(s, HeadOf(st.rows, at.receipt.body.runId), at.receipt)
         case Ok(_) => Move(st, w, Checked(at.receipt))
         case Err(e) => Move(st, w, Done(Err(e))))
    case Insert(w) =>
      if !at.Checked? then st
      else if KeyOf(at.receipt) in st.rows then Move(st, w, Done(Err(DuplicateSeq(at.receipt.body.seqNo))))
      else Move(st, w, Done(Ok(()))).(rows := st.rows[KeyOf(at.receipt) := at.receipt])
  }

  ghost function Run(s: Scheme, st: State, steps: seq<Step>): State
    decreases |steps|
  {
    if steps == [] then st else Run(s, Apply(s, st, steps[0]), steps[1..])
  }

  // ---- what every step keeps ----

  ghost predicate WriterOk(s: Scheme, rows: Rows, w: Writer) {
    match w
    case Fetched(runId, head) => head.Some? ==> head.value.body.runId == runId && IsRow(rows, head.value)
    case Signed(r) => s.verifies(r)
    case Checked(r) => s.verifies(r) && LinksIn(s, rows, r.body)
    case _ => true
  }

  ghost predicate IsRow(rows: Rows, r: Receipt) {
    KeyOf(r) in rows && rows[KeyOf(r)] == r
  }

  ghost predicate Safe(s: Scheme, st: State) {
    Chained(s, st.rows) && forall w :: w in st.writers ==> WriterOk(s, st.rows, st.writers[w])
  }

  /** The table only grows: no row is ever changed or removed. */
  ghost predicate Grows(rows: Rows, rows': Rows) {
    rows.Keys <= rows'.Keys && forall k :: k in rows ==> rows'[k] == rows[k]
  }

  lemma {:induction false} LinksGrow(s: Scheme, rows: Rows, rows': Rows, b: Body)
    requires Grows(rows, rows') && LinksIn(s, rows, b)
    ensures LinksIn(s, rows', b)
  {
  }

  lemma {:induction false} WriterGrows(s: Scheme, rows: Rows, rows': Rows, w: Writer)
    requires Grows(rows, rows') && WriterOk(s, rows, w)
    ensures WriterOk(s, rows', w)
  {
  }

  lemma {:induction false} HeadIsRow(s: Scheme, rows: Rows, runId: string)
    requires Chained(s, rows)
    ensures WriterOk(s, rows, Fetched(runId, HeadOf(rows, runId)))
  {
    var seqs := SeqsOf(rows, runId);
    if seqs != {} {
      SeqsMember(rows, runId, MaxOf(seqs));
      assert KeyOf(rows[(runId, MaxOf(seqs))]) == (runId, MaxOf(seqs));
    }
  }

  lemma {:induction false} InsertChained(s: Scheme, rows: Rows, r: Receipt)
    requires Chained(s, rows) && s.verifies(r) && LinksIn(s, rows, r.body) && KeyOf(r) !in rows
    ensures Chained(s, rows[KeyOf(r) := r]) && Grows(rows, rows[KeyOf(r) := r])
  {
    var rows' := rows[KeyOf(r) := r];
    forall k | k in rows'
      ensures KeyOf(rows'[k]) == k && s.verifies(rows'[k]) && LinksIn(s, rows', rows'[k].body)
    {
      LinksGrow(s, rows, rows', rows'[k].body);
    }
  }

  lemma {:induction false} StepSafe(s: Scheme, st: State, step: Step)
    requires SignsCorrectly(s) && Safe(s, st)
    ensures var st' := Apply(s, st, step); Safe(s, st') && Grows(st.rows, st'.rows) && st.signed <= st'.signed
  {
    var st' := Apply(s, st, step);
    var at := WriterOf(st, step.w);
    match step {
      case ReadHead(w, runId) => HeadIsRow(s, st.rows, runId);
      case CheckLink(w) =>
        if at.Signed? && CheckAppendLink(s, HeadOf(st.rows, at.receipt.body.runId), at.receipt).Ok? {
          HeadLinks(s, st.rows, at.receipt);
        }
      case Insert(w) =>
        if at.Checked? && KeyOf(at.receipt) !in st.rows {
          InsertChained(s, st.rows, at.receipt);
        }
      case _ =>
    }
    forall w | w in st'.writers
      ensures WriterOk(s, st'.rows, st'.writers[w])
    {
      if w != step.w {
        WriterGrows(s, st.rows, st'.rows, st.writers[w]);
      }
    }
  }

  lemma {:induction false} RunSafe(s: Scheme, st: State, steps: seq<Step>)
    requires SignsCorrectly(s) && Safe(s, st)
    ensures var st' := Run(s, st, steps); Safe(s, st') && Grows(st.rows, st'.rows) && st.signed <= st'.signed
    decreases |steps|
  {
    if steps != [] {
      StepSafe(s, st, steps[0]);
      RunSafe(s, Apply(s, st, steps[0]), steps[1..]);
    }
  }

  // ---- main results ----

  /**
   After any interleaving of any steps by any writers, each run in the table has exactly
   the sequence numbers 0 .. n-1, can be read back, and is a valid chain.
   */
  lemma {:induction false} EveryInterleavingChains(s: Scheme, steps: seq<Step>, runId: string)
    requires SignsCorrectly(s)
    ensures var rows := Run(s, INIT, steps).rows;
            var rs := RowsOf(rows, runId);
            && (forall n: nat :: (runId, n) in rows <==> n < |rs|)
            && ReadRun(rows, runId) == Ok(rs)
            && (rs != [] ==> ChainHolds(s, runId, rs))
  {
    RunSafe(s, INIT, steps);
    var rows := Run(s, INIT, steps).rows;
    forall n: nat ensures (runId, n) in rows <==> n < |RowsOf(rows, runId)| {
      RunKeys(s, rows, runId, n);
    }
    RunReadable(s, rows, runId);
    forall i | 0 <= i < |RowsOf(rows, runId)| ensures LinkHolds(s, runId, RowsOf(rows, runId), i) {
      RunLinks(s, rows, runId, i);
    }
  }

  lemma {:induction false} RunKeys(s: Scheme, rows: Rows, runId: string, n: nat)
    requires Chained(s, rows)
    ensures (runId, n) in rows <==> n < |RowsOf(rows, runId)|
  {
    var seqs := SeqsOf(rows, runId);
    SeqsDownClosed(s, rows, runId);
    AscendingInitial(seqs);
    SeqsMember(rows, runId, n);
    InitialBound(seqs, n);
    InitialBound(seqs, n + 1);
  }

  lemma {:induction false} RunLinks(s: Scheme, rows: Rows, runId: string, i: nat)
    requires Chained(s, rows) && i < |RowsOf(rows, runId)|
    ensures LinkHolds(s, runId, RowsOf(rows, runId), i)
  {
    RowAt(s, rows, runId, i);
    assert KeyOf(rows[(runId, i)]) == (runId, i);
    if i > 0 {
      RowAt(s, rows, runId, i - 1);
    }
  }

  lemma {:induction false} RunReadable(s: Scheme, rows: Rows, runId: string)
    requires Chained(s, rows)
    ensures ReadRun(rows, runId) == Ok(RowsOf(rows, runId))
  {
    SeqsDownClosed(s, rows, runId);
    AscendingInitial(SeqsOf(rows, runId));
    forall i | 0 <= i < |RowsOf(rows, runId)|
      ensures RowsOf(rows, runId)[i].body.seqNo == Ascending(SeqsOf(rows, runId))[i]
    {
      RunLinks(s, rows, runId, i);
    }
    NoMismatch(rows, runId);
  }

  /** A writer that loses, by the link check or by the primary key, changes no row. */
  lemma {:induction false} LoserChangesNothing(s: Scheme, st: State, step: Step)
    requires var now := WriterOf(Apply(s, st, step), step.w); now.Done? && now.result.Err?
    ensures Apply(s, st, step).rows == st.rows
  {
  }

  /** Two writers that checked the same link: whoever inserts first wins, and the other gets DuplicateSeq. */
  lemma {:induction false} OneWinner(s: Scheme, st: State, v: nat, w: nat)
    requires v != w && WriterOf(st, v).Checked? && WriterOf(st, w).Checked?
    requires KeyOf(WriterOf(st, v).receipt) == KeyOf(WriterOf(st, w).receipt)
    requires KeyOf(WriterOf(st, v).receipt) !in st.rows
    ensures var st' := Run(s, st, [Insert(v), Insert(w)]);
            && WriterOf(st', v) == Done(Ok(()))
            && WriterOf(st', w) == Done(Err(DuplicateSeq(WriterOf(st, w).receipt.body.seqNo)))
            && st'.rows == st.rows[KeyOf(WriterOf(st, v).receipt) := WriterOf(st, v).receipt]
  {
    var st1 := Apply(s, st, Insert(v));
    assert [Insert(v), Insert(w)][1..] == [Insert(w)];
    assert Run(s, st1, [Insert(w)]) == Run(s, Apply(s, st1, Insert(w)), []);
  }

  /** The body that comes next in a run: numbered by the rows there are, with the last one's hash. */
  function NextBody(s: Scheme, runId: string, rs: seq<Receipt>, content: string): Body {
    Body(runId, |rs|, if rs == [] then None else Some(s.hash(rs[|rs| - 1].body)), s.keyId, content)
  }

  lemma {:induction false} LinkedIsNext(s: Scheme, rows: Rows, runId: string, content: string)
    requires Chained(s, rows)
    ensures LinkedBody(s, runId, HeadOf(rows, runId), content) == NextBody(s, runId, RowsOf(rows, runId), content)
  {
    var n := |RowsOf(rows, runId)|;
    HeadIsLast(rows, runId);
    forall m: nat ensures (runId, m) in rows <==> m < n {
      RunKeys(s, rows, runId, m);
    }
    if n > 0 {
      RowAt(s, rows, runId, n - 1);
      assert LastOf(rows, runId, n - 1);
      assert KeyOf(rows[(runId, n - 1)]) == (runId, n - 1);
    } else {
      assert (runId, 0) !in rows;
    }
  }

  /** A writer that is not interrupted appends: retrying a lost race succeeds once it runs alone. */
  lemma {:induction false} AloneSucceeds(s: Scheme, st: State, w: nat, runId: string, content: string)
    requires SignsCorrectly(s) && Safe(s, st)
    ensures var st' := Run(s, st, [ReadHead(w, runId), LinkAndSign(w, content), CheckLink(w), Insert(w)]);
            var b := NextBody(s, runId, RowsOf(st.rows, runId), content);
            && WriterOf(st', w) == Done(Ok(()))
            && RowsOf(st'.rows, runId) == RowsOf(st.rows, runId) + [Receipt(b, s.sign(b))]
  {
    LinkedIsNext(s, st.rows, runId, content);
    var st1 := Apply(s, st, ReadHead(w, runId));
    var st2 := Apply(s, st1, LinkAndSign(w, content));
    var r := WriterOf(st2, w).receipt;
    assert CheckAppendLink(s, HeadOf(st.rows, runId), r).Ok?;
    var st3 := Apply(s, st2, CheckLink(w));
    NextSeqFree(s, st.rows, r);
    RowsGrow(st.rows, r);
    RunFour(s, st, ReadHead(w, runId), LinkAndSign(w, content), CheckLink(w), Insert(w));
  }

  // ---- what a refusal means ----

  /** A receipt linked to an earlier head is refused only after other rows of its run came in. */
  lemma {:induction false} RefusedOnlyIfGrown(s: Scheme, earlier: Rows, rows: Rows, r: Receipt)
    requires Chained(s, earlier) && Grows(earlier, rows)
    requires CheckAppendLink(s, HeadOf(earlier, r.body.runId), r).Ok?
    requires CheckAppendLink(s, HeadOf(rows, r.body.runId), r).Err? || KeyOf(r) in rows
    ensures SeqsOf(earlier, r.body.runId) < SeqsOf(rows, r.body.runId)
  {
    var before, now := SeqsOf(earlier, r.body.runId), SeqsOf(rows, r.body.runId);
    forall n | n in before ensures n in now {
      SeqsMember(earlier, r.body.runId, n);
      SeqsMember(rows, r.body.runId, n);
    }
    if KeyOf(r) in rows {
      NextSeqFree(s, earlier, r);
      SeqsMember(earlier, r.body.runId, r.body.seqNo);
      SeqsMember(rows, r.body.runId, r.body.seqNo);
    } else if before == now {
      SameHead(earlier, rows, r.body.runId);
    }
  }

  lemma {:induction false} SameHead(earlier: Rows, rows: Rows, runId: string)
    requires Grows(earlier, rows) && SeqsOf(earlier, runId) == SeqsOf(rows, runId)
    ensures HeadOf(earlier, runId) == HeadOf(rows, runId)
  {
    var seqs := SeqsOf(earlier, runId);
    if seqs != {} {
      SeqsMember(earlier, runId, MaxOf(seqs));
    }
  }

  ghost predicate NotBy(steps: seq<Step>, w: nat) {
    forall i :: 0 <= i < |steps| ==> steps[i].w != w
  }

  lemma {:induction false} OthersLeaveWriter(s: Scheme, st: State, steps: seq<Step>, w: nat)
    requires NotBy(steps, w)
    ensures WriterOf(Run(s, st, steps), w) == WriterOf(st, w)
    decreases |steps|
  {
    if steps != [] {
      assert steps[0].w != w;
      OthersLeaveWriter(s, Apply(s, st, steps[0]), steps[1..], w);
    }
  }

  /** The writer's receipt is linked to the head of these earlier rows, or its attempt is over. */
  ghost predicate Attempting(s: Scheme, earlier: Rows, st: State, w: nat, runId: string) {
    match WriterOf(st, w)
    case Signed(r) => r.body.runId == runId && CheckAppendLink(s, HeadOf(earlier, runId), r).Ok?
    case Checked(r) => r.body.runId == runId && CheckAppendLink(s, HeadOf(earlier, runId), r).Ok?
    case Done(Err(_)) => SeqsOf(earlier, runId) < SeqsOf(st.rows, runId)
    case _ => false
  }

  lemma {:induction false} OthersKeepAttempt(
      s: Scheme, earlier: Rows, st: State, steps: seq<Step>, w: nat, runId: string)
    requires SignsCorrectly(s) && Safe(s, st) && Grows(earlier, st.rows)
    requires Attempting(s, earlier, st, w, runId) && NotBy(steps, w)
    ensures var st' := Run(s, st, steps);
            && Safe(s, st') && Grows(earlier, st'.rows) && WriterOf(st', w) == WriterOf(st, w)
            && Attempting(s, earlier, st', w, runId)
  {
    RunSafe(s, st, steps);
    OthersLeaveWriter(s, st, steps, w);
    SeqsGrow(st.rows, Run(s, st, steps).rows, runId);
  }

  lemma {:induction false} SeqsGrow(rows: Rows, rows': Rows, runId: string)
    requires Grows(rows, rows')
    ensures SeqsOf(rows, runId) <= SeqsOf(rows', runId)
  {
    forall n | n in SeqsOf(rows, runId) ensures n in SeqsOf(rows', runId) {
      SeqsMember(rows, runId, n);
      SeqsMember(rows', runId, n);
    }
  }

  /**
   One attempt of a writer, with any steps of any other writers in between: it appends its receipt,
   or others extended its run since it read the head. So retries are used up only by progress.
   */
  lemma {:induction false} AttemptFailsOnlyToProgress(
      s: Scheme, st: State, w: nat, runId: string, content: string,
      others0: seq<Step>, others1: seq<Step>, others2: seq<Step>)
    requires SignsCorrectly(s) && Safe(s, st) && NotBy(others0, w) && NotBy(others1, w) && NotBy(others2, w)
    ensures var fetched := Run(s, Apply(s, st, ReadHead(w, runId)), others0);
            var signed := Run(s, Apply(s, fetched, LinkAndSign(w, content)), others1);
            var checked := Run(s, Apply(s, signed, CheckLink(w)), others2);
            var last := Apply(s, checked, Insert(w));
            || WriterOf(last, w) == Done(Ok(()))
            || (&& WriterOf(last, w).Done? && WriterOf(last, w).result.Err?
                && SeqsOf(st.rows, runId) < SeqsOf(last.rows, runId))
  {
    var read := Apply(s, st, ReadHead(w, runId));
    StepSafe(s, st, ReadHead(w, runId));
    RunSafe(s, read, others0);
    OthersLeaveWriter(s, read, others0, w);
    var fetched := Run(s, read, others0);
    StepSafe(s, fetched, LinkAndSign(w, content));
    var linked := Apply(s, fetched, LinkAndSign(w, content));
    assert Attempting(s, st.rows, linked, w, runId);
    OthersKeepAttempt(s, st.rows, linked, others1, w, runId);
    var signed := Run(s, linked, others1);
    CheckKeepsAttempt(s, st.rows, signed, w, runId);
    OthersKeepAttempt(s, st.rows, Apply(s, signed, CheckLink(w)), others2, w, runId);
    InsertEndsAttempt(s, st.rows, Run(s, Apply(s, signed, CheckLink(w)), others2), w, runId);
  }

  lemma {:induction false} CheckKeepsAttempt(s: Scheme, earlier: Rows, st: State, w: nat, runId: string)
    requires SignsCorrectly(s) && Safe(s, st) && Chained(s, earlier) && Grows(earlier, st.rows)
    requires Attempting(s, earlier, st, w, runId)
    ensures var st' := Apply(s, st, CheckLink(w));
            && Safe(s, st') && Grows(earlier, st'.rows) && !WriterOf(st', w).Signed?
            && Attempting(s, earlier, st', w, runId)
  {
    StepSafe(s, st, CheckLink(w));
    var at := WriterOf(st, w);
    if at.Signed? && CheckAppendLink(s, HeadOf(st.rows, runId), at.receipt).Err? {
      RefusedOnlyIfGrown(s, earlier, st.rows, at.receipt);
    }
  }

  lemma {:induction false} InsertEndsAttempt(s: Scheme, earlier: Rows, st: State, w: nat, runId: string)
    requires Chained(s, earlier) && Grows(earlier, st.rows)
    requires Attempting(s, earlier, st, w, runId) && !WriterOf(st, w).Signed?
    ensures var st' := Apply(s, st, Insert(w));
            || WriterOf(st', w) == Done(Ok(()))
            || (&& WriterOf(st', w).Done? && WriterOf(st', w).result.Err?
                && SeqsOf(earlier, runId) < SeqsOf(st'.rows, runId))
  {
    var at := WriterOf(st, w);
    if at.Checked? && KeyOf(at.receipt) in st.rows {
      RefusedOnlyIfGrown(s, earlier, st.rows, at.receipt);
    }
  }

  lemma {:induction false} RunFour(s: Scheme, st: State, a: Step, b: Step, c: Step, d: Step)
    ensures Run(s, st, [a, b, c, d]) == Apply(s, Apply(s, Apply(s, Apply(s, st, a), b), c), d)
  {
    assert [a, b, c, d][1..] == [b, c, d] && [b, c, d][1..] == [c, d] && [c, d][1..] == [d] && [d][1..] == [];
    var st1 := Apply(s, st, a);
    var st2 := Apply(s, st1, b);
    var st3 := Apply(s, st2, c);
    assert Run(s, st3, [d]) == Run(s, Apply(s, st3, d), []);
    assert Run(s, st2, [c, d]) == Run(s, st3, [d]);
    assert Run(s, st1, [b, c, d]) == Run(s, st2, [c, d]);
  }
}
