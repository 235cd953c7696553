/**
 What an accepted chain tells its reader about the store, when every body ever signed was
 linked to a head that was in the store at the time.
 */
module ChainEvidence {
  import opened Outcomes
  import opened Receipts
  import opened Merkle
  import opened ReceiptStore
  import opened AppendProtocol

  /** No writer signs a body it did not link. */
  ghost predicate Honest(steps: seq<Step>) {
    forall i :: 0 <= i < |steps| ==> !steps[i].Fabricate?
  }

  ghost predicate AllLinked(s: Scheme, st: State) {
    forall b :: b in st.signed ==> LinksIn(s, st.rows, b)
  }

  lemma {:induction false} StepLinked(s: Scheme, st: State, step: Step)
    requires SignsCorrectly(s) && Safe(s, st) && AllLinked(s, st) && !step.Fabricate?
    ensures AllLinked(s, Apply(s, st, step))
  {
    var st' := Apply(s, st, step);
    StepSafe(s, st, step);
    forall b | b in st'.signed
      ensures LinksIn(s, st'.rows, b)
    {
      if b in st.signed {
        LinksGrow(s, st.rows, st'.rows, b);
      } else {
        var at := WriterOf(st, step.w);
        assert b == LinkedBody(s, at.runId, at.head, step.content);
      }
    }
  }

  lemma {:induction false} RunLinked(s: Scheme, st: State, steps: seq<Step>)
    requires SignsCorrectly(s) && Safe(s, st) && AllLinked(s, st) && Honest(steps)
    ensures AllLinked(s, Run(s, st, steps))
    decreases |steps|
  {
    if steps != [] {
      StepSafe(s, st, steps[0]);
      StepLinked(s, st, steps[0]);
      RunLinked(s, Apply(s, st, steps[0]), steps[1..]);
    }
  }

  /**
   Any chain that verifies for a run, made only of bodies that were really signed, agrees
   with the stored chain on all but possibly its last receipt, and is at most one longer;
   the last body, too, links the stored row before it.
   */
  lemma {:induction false} AcceptedChainAgrees(s: Scheme, steps: seq<Step>, runId: string, c: seq<Receipt>)
    requires SignsCorrectly(s) && Injective(s) && Honest(steps)
    requires ChainHolds(s, runId, c)
    requires forall i :: 0 <= i < |c| ==> c[i].body in Run(s, INIT, steps).signed
    ensures var rs := RowsOf(Run(s, INIT, steps).rows, runId);
            && |c| <= |rs| + 1
            && (forall i :: 0 <= i < |c| - 1 ==> c[i].body == rs[i].body)
            && LinksIn(s, Run(s, INIT, steps).rows, c[|c| - 1].body)
  {
    var st := Run(s, INIT, steps);
    RunSafe(s, INIT, steps);
    RunLinked(s, INIT, steps);
    var rs := RowsOf(st.rows, runId);
    forall i | 0 <= i < |c| - 1
      ensures i < |rs| && c[i].body == rs[i].body
    {
      assert LinkHolds(s, runId, c, i + 1) && c[i + 1].body in st.signed;
      SuccessorPins(s, st, runId, c, i);
    }
    assert LinkHolds(s, runId, c, |c| - 1);
  }

  /** The signed successor of receipt i names, by hash, the row stored under i. */
  lemma {:induction false} SuccessorPins(s: Scheme, st: State, runId: string, c: seq<Receipt>, i: nat)
    requires Chained(s, st.rows)
    requires i + 1 < |c| && LinkHolds(s, runId, c, i + 1) && LinksIn(s, st.rows, c[i + 1].body)
    ensures i < |RowsOf(st.rows, runId)| && s.hash(c[i].body) == s.hash(RowsOf(st.rows, runId)[i].body)
  {
    RunKeys(s, st.rows, runId, i);
    RowAt(s, st.rows, runId, i);
  }

  /** Every honestly signed body closes an accepted chain after the stored receipts before it. */
  lemma {:induction false} SignedBodyAccepted(s: Scheme, steps: seq<Step>, b: Body)
    requires SignsCorrectly(s) && Honest(steps) && b in Run(s, INIT, steps).signed
    ensures var rs := RowsOf(Run(s, INIT, steps).rows, b.runId);
            b.seqNo <= |rs| && ChainHolds(s, b.runId, rs[..b.seqNo] + [Receipt(b, s.sign(b))])
  {
    var rows := Run(s, INIT, steps).rows;
    RunSafe(s, INIT, steps);
    RunLinked(s, INIT, steps);
    SuccessorFits(s, rows, b.runId, b.seqNo);
    LinkedCloses(s, rows, b, Receipt(b, s.sign(b)));
  }

  lemma {:induction false} SuccessorFits(s: Scheme, rows: Rows, runId: string, n: nat)
    requires Chained(s, rows) && (n > 0 ==> (runId, n - 1) in rows)
    ensures n <= |RowsOf(rows, runId)|
  {
    if n > 0 {
      RunKeys(s, rows, runId, n - 1);
    }
  }

  lemma {:induction false} LinkedCloses(s: Scheme, rows: Rows, b: Body, r: Receipt)
    requires Chained(s, rows) && LinksIn(s, rows, b) && b.seqNo <= |RowsOf(rows, b.runId)|
    requires r.body == b && s.verifies(r)
    ensures ChainHolds(s, b.runId, RowsOf(rows, b.runId)[..b.seqNo] + [r])
  {
    var rs := RowsOf(rows, b.runId);
    forall i: nat | i < b.seqNo ensures LinkHolds(s, b.runId, rs, i) {
      RunLinks(s, rows, b.runId, i);
    }
    if b.seqNo > 0 {
      RowAt(s, rows, b.runId, b.seqNo - 1);
    }
    CloseChain(s, b.runId, rs, b.seqNo, r);
  }

  lemma {:induction false} CloseChain(s: Scheme, runId: string, rs: seq<Receipt>, n: nat, r: Receipt)
    requires n <= |rs| && forall i: nat :: i < n ==> LinkHolds(s, runId, rs, i)
    requires r.body.runId == runId && r.body.seqNo == n && s.verifies(r)
    requires r.body.parentHash == NextParentHash(s, Before(rs, n))
    ensures ChainHolds(s, runId, rs[..n] + [r])
  {
    var c := rs[..n] + [r];
    forall i | 0 <= i < |c| ensures LinkHolds(s, runId, c, i) {
      assert Before(c, i) == Before(rs, i);
      if i < n {
        assert LinkHolds(s, runId, rs, i) && c[i] == rs[i];
      }
    }
  }

  /**
   Of the sequences of really signed bodies with good signatures, exactly those verify for a run
   that copy the stored chain up to a last body of that run that carries the next number.
   */
  lemma {:induction false} AcceptedExactly(s: Scheme, steps: seq<Step>, runId: string, c: seq<Receipt>)
    requires SignsCorrectly(s) && Injective(s) && Honest(steps) && c != []
    requires forall i :: 0 <= i < |c| ==> c[i].body in Run(s, INIT, steps).signed && s.verifies(c[i])
    ensures var rs := RowsOf(Run(s, INIT, steps).rows, runId);
            ChainHolds(s, runId, c) <==>
            && c[|c| - 1].body.runId == runId && c[|c| - 1].body.seqNo == |c| - 1
            && |c| <= |rs| + 1
            && forall i :: 0 <= i < |c| - 1 ==> c[i].body == rs[i].body
  {
    var rows := Run(s, INIT, steps).rows;
    var rs, last := RowsOf(rows, runId), c[|c| - 1].body;
    if ChainHolds(s, runId, c) {
      AcceptedChainAgrees(s, steps, runId, c);
      assert LinkHolds(s, runId, c, |c| - 1);
    }
    if && last.runId == runId && last.seqNo == |c| - 1 && |c| <= |rs| + 1
       && forall i :: 0 <= i < |c| - 1 ==> c[i].body == rs[i].body {
      SignedBodyAccepted(s, steps, last);
      SameBodiesHold(s, runId, rs[..last.seqNo] + [Receipt(last, s.sign(last))], c);
    }
  }

  lemma {:induction false} SameBodiesHold(s: Scheme, runId: string, a: seq<Receipt>, c: seq<Receipt>)
    requires ChainHolds(s, runId, a) && |c| == |a|
    requires forall i :: 0 <= i < |c| ==> c[i].body == a[i].body && s.verifies(c[i])
    ensures ChainHolds(s, runId, c)
  {
    forall i | 0 <= i < |c| ensures LinkHolds(s, runId, c, i) {
      assert LinkHolds(s, runId, a, i);
    }
  }

  /** A chain no longer than the stored one whose last body is stored agrees throughout. */
  lemma {:induction false} StoredTipAgrees(s: Scheme, steps: seq<Step>, runId: string, c: seq<Receipt>)
    requires SignsCorrectly(s) && Injective(s)
    requires ChainHolds(s, runId, c)
    requires var rs := RowsOf(Run(s, INIT, steps).rows, runId); |c| <= |rs| && c[|c| - 1].body == rs[|c| - 1].body
    ensures forall i :: 0 <= i < |c| ==> c[i].body == RowsOf(Run(s, INIT, steps).rows, runId)[i].body
  {
    var rs := RowsOf(Run(s, INIT, steps).rows, runId);
    EveryInterleavingChains(s, steps, runId);
    var prefix := rs[..|c|];
    assert ChainHolds(s, runId, prefix) by {
      forall i | 0 <= i < |prefix| ensures LinkHolds(s, runId, prefix, i) {
        assert LinkHolds(s, runId, rs, i);
      }
    }
    LastBodyDeterminesChain(s, runId, c, runId, prefix);
  }

  /**
   The exception is real: of two writers racing for the first receipt of a run, the loser's
   signed receipt is an accepted chain on its own, though another body is stored.
   */
  lemma {:induction false} LostRaceAccepted(s: Scheme, runId: string)
    requires SignsCorrectly(s)
    ensures var steps := [ReadHead(0, runId), ReadHead(1, runId), LinkAndSign(0, "a"), LinkAndSign(1, "b"),
                          CheckLink(0), Insert(0)];
            var st := Run(s, INIT, steps);
            var loser := LinkedBody(s, runId, None, "b");
            var c := [Receipt(loser, s.sign(loser))];
            && Honest(steps) && ChainHolds(s, runId, c) && c[0].body in st.signed
            && (runId, 0) in st.rows && st.rows[(runId, 0)].body != c[0].body
  {
    var a, b := LinkedBody(s, runId, None, "a"), LinkedBody(s, runId, None, "b");
    NoRows(runId);
    var st1 := Apply(s, INIT, ReadHead(0, runId));
    var st2 := Apply(s, st1, ReadHead(1, runId));
    var st3 := Apply(s, st2, LinkAndSign(0, "a"));
    var st4 := Apply(s, st3, LinkAndSign(1, "b"));
    assert WriterOf(st4, 0) == Signed(Receipt(a, s.sign(a))) && st4.signed == {a, b} && st4.rows == map[];
    var st5 := Apply(s, st4, CheckLink(0));
    assert WriterOf(st5, 0) == Checked(Receipt(a, s.sign(a)));
    var st6 := Apply(s, st5, Insert(0));
    var tail := [LinkAndSign(0, "a"), LinkAndSign(1, "b"), CheckLink(0), Insert(0)];
    RunFour(s, st2, LinkAndSign(0, "a"), LinkAndSign(1, "b"), CheckLink(0), Insert(0));
    assert [ReadHead(0, runId), ReadHead(1, runId)] + tail ==
           [ReadHead(0, runId), ReadHead(1, runId), LinkAndSign(0, "a"), LinkAndSign(1, "b"), CheckLink(0), Insert(0)];
    var steps := [ReadHead(0, runId), ReadHead(1, runId)] + tail;
    assert steps[1..] == [ReadHead(1, runId)] + tail && ([ReadHead(1, runId)] + tail)[1..] == tail;
    assert Run(s, INIT, steps) == Run(s, st1, [ReadHead(1, runId)] + tail) == Run(s, st2, tail) == st6;
    var c := [Receipt(b, s.sign(b))];
    assert LinkHolds(s, runId, c, 0);
  }

  lemma NoRows(runId: string)
    ensures HeadOf(map[], runId) == None
  {
    var none: Rows := map[];
    assert SeqsOf(none, runId) == {};
  }
}
