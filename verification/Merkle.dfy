/** The hash chain that links the receipts of one run. */
module Merkle {
  import opened Outcomes
  import opened Receipts

  function NextParentHash(s: Scheme, head: Option<Receipt>): Option<string> {
    match head
    case None => None
    case Some(r) => Some(s.hash(r.body))
  }

  /** The parent hash and sequence number the next body of a run must carry. */
  function ChainLink(s: Scheme, head: Option<Receipt>): (Option<string>, nat) {
    (NextParentHash(s, head), match head case None => 0 case Some(r) => r.body.seqNo + 1)
  }

  /** The receipt before position i, if there is one. */
  function Before(rs: seq<Receipt>, i: nat): Option<Receipt>
    requires i <= |rs|
  {
    if i == 0 then None else Some(rs[i - 1])
  }

  /** Receipt i is in its place: right run, position, parent and signature. */
  ghost predicate LinkHolds(s: Scheme, runId: string, rs: seq<Receipt>, i: nat)
    requires i < |rs|
  {
    && rs[i].body.runId == runId
    && rs[i].body.seqNo == i
    && rs[i].body.parentHash == NextParentHash(s, Before(rs, i))
    && s.verifies(rs[i])
  }

  /** The declarative chain condition. */
  ghost predicate ChainHolds(s: Scheme, runId: string, rs: seq<Receipt>) {
    rs != [] && forall i :: 0 <= i < |rs| ==> LinkHolds(s, runId, rs, i)
  }

  /** Which check of receipt i fails first. */
  function LinkDefect(s: Scheme, runId: string, rs: seq<Receipt>, i: nat): Option<BreakReason>
    requires i < |rs|
  {
    if rs[i].body.runId != runId then Some(RunMismatch)
    else if rs[i].body.seqNo != i then Some(SeqMismatch)
    else if rs[i].body.parentHash != NextParentHash(s, Before(rs, i)) then Some(ParentMismatch)
    else if !s.verifies(rs[i]) then Some(BadSignature)
    else None
  }

  /** The first receipt with a defect is i, and the defect is the reported one. */
  ghost predicate BreaksAt(s: Scheme, runId: string, rs: seq<Receipt>, i: nat, status: ChainStatus) {
    && i < |rs|
    && (forall j :: 0 <= j < i ==> LinkHolds(s, runId, rs, j))
    && LinkDefect(s, runId, rs, i).Some?
    && status == Broken(rs[i].body.seqNo, LinkDefect(s, runId, rs, i).value)
  }

  method VerifyChain(s: Scheme, rs: seq<Receipt>) returns (status: ChainStatus)
    ensures status.Empty? <==> rs == []
    ensures status.Valid? <==> rs != [] && ChainHolds(s, rs[0].body.runId, rs)
    ensures status.Valid? ==> status.count == |rs|
    ensures status.Broken? ==> exists i :: BreaksAt(s, rs[0].body.runId, rs, i, status)
  {
    if rs == [] {
      return Empty;
    }
    var runId := rs[0].body.runId;
    var expectedParent: Option<string> := None;
    for i := 0 to |rs|
      invariant expectedParent == NextParentHash(s, Before(rs, i))
      invariant forall j :: 0 <= j < i ==> LinkHolds(s, runId, rs, j)
    {
      var r := rs[i];
      var defect := None;
      if r.body.runId != runId {
        defect := Some(RunMismatch);
      } else if r.body.seqNo != i {
        defect := Some(SeqMismatch);
      } else if r.body.parentHash != expectedParent {
        defect := Some(ParentMismatch);
      } else if !s.verifies(r) {
        defect := Some(BadSignature);
      }
      if defect.Some? {
        assert !LinkHolds(s, runId, rs, i);
        assert BreaksAt(s, runId, rs, i, Broken(r.body.seqNo, defect.value));
        return Broken(r.body.seqNo, defect.value);
      }
      expectedParent := Some(s.hash(r.body));
    }
    return Valid(|rs|);
  }

  // ---- the chain condition, spelled out ----

  /** Receipt i carries the hash of the body before it; the first carries none. */
  predicate CarriesParent(s: Scheme, rs: seq<Receipt>, i: nat)
    requires i < |rs|
  {
    if i == 0 then rs[i].body.parentHash == None else rs[i].body.parentHash == Some(s.hash(rs[i - 1].body))
  }

  lemma {:induction false} ChainExactly(s: Scheme, runId: string, rs: seq<Receipt>)
    ensures ChainHolds(s, runId, rs) <==>
            rs != [] && forall i :: 0 <= i < |rs| ==>
              rs[i].body.runId == runId && rs[i].body.seqNo == i && CarriesParent(s, rs, i) && s.verifies(rs[i])
  {
    forall i | 0 <= i < |rs|
      ensures LinkHolds(s, runId, rs, i) <==>
              rs[i].body.runId == runId && rs[i].body.seqNo == i && CarriesParent(s, rs, i) && s.verifies(rs[i])
    {
    }
  }

  /** Why a receipt breaks the chain: the first of the four conditions that fails, in this order. */
  ghost predicate Reason(s: Scheme, runId: string, rs: seq<Receipt>, i: nat, reason: BreakReason)
    requires i < |rs|
  {
    var b := rs[i].body;
    match reason
    case RunMismatch => b.runId != runId
    case SeqMismatch => b.runId == runId && b.seqNo != i
    case ParentMismatch => b.runId == runId && b.seqNo == i && !CarriesParent(s, rs, i)
    case BadSignature => b.runId == runId && b.seqNo == i && CarriesParent(s, rs, i) && !s.verifies(rs[i])
    case SignerMismatch => false
  }

  lemma {:induction false} ReasonExactly(s: Scheme, runId: string, rs: seq<Receipt>, i: nat, reason: BreakReason)
    requires i < |rs|
    ensures LinkDefect(s, runId, rs, i) == Some(reason) <==> Reason(s, runId, rs, i, reason)
  {
  }

  // ---- what an accepted chain determines ----

  /**
   With an injective hash, the last body of an accepted chain determines the whole chain:
   its run, its length and every body before it.
   */
  lemma {:induction false} LastBodyDeterminesChain(s: Scheme, runA: string, a: seq<Receipt>, runB: string, b: seq<Receipt>)
    requires Injective(s) && ChainHolds(s, runA, a) && ChainHolds(s, runB, b)
    requires s.hash(a[|a| - 1].body) == s.hash(b[|b| - 1].body)
    ensures runA == runB && |a| == |b| && forall i :: 0 <= i < |a| ==> a[i].body == b[i].body
  {
    var i := |a| - 1;
    assert LinkHolds(s, runA, a, i) && LinkHolds(s, runB, b, |b| - 1);
    while i > 0
      invariant 0 <= i < |a|
      invariant s.hash(a[i].body) == s.hash(b[i].body)
      invariant forall j :: i < j < |a| ==> a[j].body == b[j].body
    {
      assert LinkHolds(s, runA, a, i) && LinkHolds(s, runB, b, i);
      i := i - 1;
    }
  }
}
