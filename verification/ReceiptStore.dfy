/**
 The receipts table: one row per (run, sequence number), read and written by the two
 steps of an append, which run outside any transaction.
 */
module ReceiptStore {
  import opened Outcomes
  import opened Receipts
  import opened Merkle

  type Rows = map<(string, nat), Receipt>

  datatype AppendError = ChainViolation(at: nat) | DuplicateSeq(at: nat)

  datatype ReadError = ColumnMismatch(at: nat) | UnknownRun(runId: string)

  // ---- queries ----

  function SeqsOf(rows: Rows, runId: string): set<nat> {
    set k | k in rows.Keys && k.0 == runId :: k.1
  }

  predicate IsMax(s: set<nat>, m: nat) {
    m in s && forall n :: n in s ==> n <= m
  }

  lemma {:induction false} MaxExists(s: set<nat>)
    requires s != {}
    ensures exists m :: IsMax(s, m)
    decreases s
  {
    var k :| k in s;
    if s == {k} {
      assert IsMax(s, k);
    } else {
      MaxExists(s - {k});
      var m :| IsMax(s - {k}, m);
      assert IsMax(s, if m > k then m else k) by {
        assert forall n :: n in s ==> n == k || n in s - {k};
      }
    }
  }

  ghost function MaxOf(s: set<nat>): (m: nat)
    requires s != {}
    ensures IsMax(s, m)
  {
    MaxExists(s);
    var m :| IsMax(s, m);
    m
  }

  /** The row of the run with the greatest sequence number. */
  ghost function HeadOf(rows: Rows, runId: string): Option<Receipt> {
    var seqs := SeqsOf(rows, runId);
    if seqs == {} then None else Some(rows[(runId, MaxOf(seqs))])
  }

  /** The elements of s in ascending order. */
  ghost function Ascending(s: set<nat>): (ns: seq<nat>)
    ensures |ns| == |s|
    decreases s
  {
    if s == {} then []
    else
      var m := MaxOf(s);
      assert |s - {m}| == |s| - 1;
      Ascending(s - {m}) + [m]
  }

  lemma {:induction false} AscendingElements(s: set<nat>)
    ensures forall i :: 0 <= i < |s| ==> Ascending(s)[i] in s
    ensures forall i, j :: 0 <= i < j < |s| ==> Ascending(s)[i] < Ascending(s)[j]
    decreases s
  {
    if s != {} {
      var m := MaxOf(s);
      AscendingElements(s - {m});
    }
  }

  lemma SeqsMember(rows: Rows, runId: string, n: nat)
    ensures n in SeqsOf(rows, runId) <==> (runId, n) in rows
  {
    if (runId, n) in rows {
      assert (runId, n).1 in SeqsOf(rows, runId);
    }
  }

  /** The rows of a run by ascending sequence number. */
  ghost function RowsOf(rows: Rows, runId: string): (rs: seq<Receipt>)
    ensures |rs| == |SeqsOf(rows, runId)|
  {
    var ns := Ascending(SeqsOf(rows, runId));
    AscendingElements(SeqsOf(rows, runId));
    seq(|ns|, i requires 0 <= i < |ns| => rows[(runId, ns[i])])
  }

  // ---- the append contract ----

  function CheckAppendLink(s: Scheme, head: Option<Receipt>, incoming: Receipt): Result<(), AppendError> {
    var (parent, seqNo) := ChainLink(s, head);
    if incoming.body.seqNo != seqNo || incoming.body.parentHash != parent
    then Err(ChainViolation(incoming.body.seqNo))
    else Ok(())
  }

  function KeyOf(r: Receipt): (string, nat) {
    (r.body.runId, r.body.seqNo)
  }

  /** The body follows a stored row, or starts its run. */
  ghost predicate LinksIn(s: Scheme, rows: Rows, b: Body) {
    if b.seqNo == 0 then b.parentHash == None
    else
      && (b.runId, b.seqNo - 1) in rows
      && b.parentHash == Some(s.hash(rows[(b.runId, b.seqNo - 1)].body))
  }

  /** Every row sits under its own key, verifies, and links the row before it. */
  ghost predicate Chained(s: Scheme, rows: Rows) {
    forall k :: k in rows ==> KeyOf(rows[k]) == k && s.verifies(rows[k]) && LinksIn(s, rows, rows[k].body)
  }

  /** Reading a run: its rows in order, or the first body that disagrees with its key column. */
  ghost function ReadRun(rows: Rows, runId: string): Result<seq<Receipt>, ReadError> {
    var ns, rs := Ascending(SeqsOf(rows, runId)), RowsOf(rows, runId);
    var i := FirstMismatch(ns, rs, 0);
    if i == |rs| then Ok(rs) else Err(ColumnMismatch(rs[i].body.seqNo))
  }

  ghost function FirstMismatch(ns: seq<nat>, rs: seq<Receipt>, from: nat): (i: nat)
    requires |ns| == |rs| && from <= |rs|
    ensures from <= i <= |rs| && (i < |rs| ==> rs[i].body.seqNo != ns[i])
    ensures forall j :: from <= j < i ==> rs[j].body.seqNo == ns[j]
    decreases |rs| - from
  {
    if from == |rs| || rs[from].body.seqNo != ns[from] then from else FirstMismatch(ns, rs, from + 1)
  }

  lemma {:induction false} FirstMismatchAt(rows: Rows, runId: string, i: nat)
    requires i < |RowsOf(rows, runId)|
    requires var ns, rs := Ascending(SeqsOf(rows, runId)), RowsOf(rows, runId);
             rs[i].body.seqNo != ns[i] && forall j :: 0 <= j < i ==> rs[j].body.seqNo == ns[j]
    ensures ReadRun(rows, runId) == Err(ColumnMismatch(RowsOf(rows, runId)[i].body.seqNo))
  {
    var ns, rs := Ascending(SeqsOf(rows, runId)), RowsOf(rows, runId);
    assert FirstMismatch(ns, rs, 0) == i;
  }

  lemma {:induction false} NoMismatch(rows: Rows, runId: string)
    requires var ns, rs := Ascending(SeqsOf(rows, runId)), RowsOf(rows, runId);
             forall j :: 0 <= j < |rs| ==> rs[j].body.seqNo == ns[j]
    ensures ReadRun(rows, runId) == Ok(RowsOf(rows, runId))
  {
  }

  /** The body comes right after the last row of its run and carries that row's hash, or starts the run. */
  ghost predicate FollowsHead(s: Scheme, rows: Rows, b: Body) {
    if forall n: nat :: (b.runId, n) !in rows then b.seqNo == 0 && b.parentHash == None
    else
      exists n: nat ::
        && LastOf(rows, b.runId, n)
        && b.seqNo == rows[(b.runId, n)].body.seqNo + 1 && b.parentHash == Some(s.hash(rows[(b.runId, n)].body))
  }

  ghost predicate LastOf(rows: Rows, runId: string, n: nat) {
    (runId, n) in rows && forall m: nat :: (runId, m) in rows ==> m <= n
  }

  lemma {:induction false} HeadIsLast(rows: Rows, runId: string)
    ensures HeadOf(rows, runId).None? <==> forall n: nat :: (runId, n) !in rows
    ensures forall n: nat :: LastOf(rows, runId, n) ==> HeadOf(rows, runId) == Some(rows[(runId, n)])
    ensures HeadOf(rows, runId).Some? ==> exists n: nat :: LastOf(rows, runId, n)
  {
    var seqs := SeqsOf(rows, runId);
    forall n: nat ensures n in seqs <==> (runId, n) in rows {
      SeqsMember(rows, runId, n);
    }
    if seqs != {} {
      assert IsMax(seqs, MaxOf(seqs));
      assert LastOf(rows, runId, MaxOf(seqs));
    }
  }

  // ---- what a link check establishes ----

  /** A receipt that passes the check links a stored row (the head), or starts its run. */
  lemma {:induction false} HeadLinks(s: Scheme, rows: Rows, r: Receipt)
    requires Chained(s, rows) && CheckAppendLink(s, HeadOf(rows, r.body.runId), r).Ok?
    ensures LinksIn(s, rows, r.body)
  {
    var seqs := SeqsOf(rows, r.body.runId);
    if seqs != {} {
      assert (r.body.runId, MaxOf(seqs)) in rows;
    }
  }

  lemma {:induction false} NextSeqFree(s: Scheme, rows: Rows, r: Receipt)
    requires Chained(s, rows) && CheckAppendLink(s, HeadOf(rows, r.body.runId), r).Ok?
    ensures KeyOf(r) !in rows
    ensures forall n :: n in SeqsOf(rows, r.body.runId) ==> n < r.body.seqNo
  {
    var seqs := SeqsOf(rows, r.body.runId);
    SeqsMember(rows, r.body.runId, r.body.seqNo);
    if seqs != {} {
      SeqsMember(rows, r.body.runId, MaxOf(seqs));
      assert KeyOf(rows[(r.body.runId, MaxOf(seqs))]).1 == MaxOf(seqs);
      assert IsMax(seqs, MaxOf(seqs));
    }
  }

  // ---- the rows of a run are its receipts 0, 1, 2, ... ----

  ghost predicate DownClosed(s: set<nat>) {
    forall n :: n in s && n > 0 ==> n - 1 in s
  }

  /** A down-closed set of naturals is an initial segment. */
  lemma {:induction false} AscendingInitial(s: set<nat>)
    requires DownClosed(s)
    ensures forall i :: 0 <= i < |s| ==> Ascending(s)[i] == i
    decreases s
  {
    if s != {} {
      var m := MaxOf(s);
      var rest := s - {m};
      assert IsMax(s, m);
      AscendingInitial(rest);
      AscendingElements(rest);
      assert |s| == |rest| + 1;
      assert m > 0 ==> m - 1 in rest;
      InitialBound(rest, m);
    }
  }

  /** A set whose ascending order is 0, 1, 2, ... holds just the numbers below its size. */
  lemma {:induction false} InitialBound(s: set<nat>, m: nat)
    requires forall i :: 0 <= i < |s| ==> Ascending(s)[i] == i
    ensures m < |s| ==> m in s
    ensures m > 0 && m - 1 in s ==> m <= |s|
  {
    AscendingElements(s);
    if m < |s| {
      assert Ascending(s)[m] == m;
    } else if m > 0 && m - 1 in s {
      AscendingMember(s, m - 1);
    }
  }

  lemma {:induction false} AscendingMember(s: set<nat>, n: nat)
    requires n in s
    ensures exists i :: 0 <= i < |s| && Ascending(s)[i] == n
    decreases s
  {
    var m := MaxOf(s);
    if n == m {
      assert Ascending(s)[|s| - 1] == n;
    } else {
      AscendingMember(s - {m}, n);
      var i :| 0 <= i < |s - {m}| && Ascending(s - {m})[i] == n;
      assert Ascending(s)[i] == n;
    }
  }

  lemma {:induction false} SeqsDownClosed(s: Scheme, rows: Rows, runId: string)
    requires Chained(s, rows)
    ensures DownClosed(SeqsOf(rows, runId))
  {
    forall n | n in SeqsOf(rows, runId) && n > 0
      ensures n - 1 in SeqsOf(rows, runId)
    {
      SeqsMember(rows, runId, n);
      SeqsMember(rows, runId, n - 1);
    }
  }

  /** Row i of a chained run is the one under sequence number i. */
  lemma {:induction false} RowAt(s: Scheme, rows: Rows, runId: string, i: nat)
    requires Chained(s, rows) && i < |RowsOf(rows, runId)|
    ensures (runId, i) in rows && RowsOf(rows, runId)[i] == rows[(runId, i)]
  {
    SeqsDownClosed(s, rows, runId);
    AscendingInitial(SeqsOf(rows, runId));
    AscendingElements(SeqsOf(rows, runId));
    SeqsMember(rows, runId, Ascending(SeqsOf(rows, runId))[i]);
  }

  lemma {:induction false} RowsGrow(rows: Rows, r: Receipt)
    requires KeyOf(r) !in rows && forall n :: n in SeqsOf(rows, r.body.runId) ==> n < r.body.seqNo
    ensures RowsOf(rows[KeyOf(r) := r], r.body.runId) == RowsOf(rows, r.body.runId) + [r]
  {
    var rows' := rows[KeyOf(r) := r];
    var seqs, seqs' := SeqsOf(rows, r.body.runId), SeqsOf(rows', r.body.runId);
    SeqsAfter(rows, r, r.body.runId);
    AscendingAdd(seqs, r.body.seqNo);
    AscendingElements(seqs);
    RowsOfAscending(rows, r.body.runId, Ascending(seqs));
    RowsOfAscending(rows', r.body.runId, Ascending(seqs) + [r.body.seqNo]);
    SameElements(RowsOf(rows', r.body.runId), RowsOf(rows, r.body.runId) + [r]);
  }

  lemma {:induction false} SameElements(a: seq<Receipt>, b: seq<Receipt>)
    requires |a| == |b| && forall i :: 0 <= i < |a| ==> a[i] == b[i]
    ensures a == b
  {
  }

  lemma {:induction false} RowsOfAscending(rows: Rows, runId: string, ns: seq<nat>)
    requires Ascending(SeqsOf(rows, runId)) == ns
    ensures |RowsOf(rows, runId)| == |ns|
    ensures forall i :: 0 <= i < |ns| ==> (runId, ns[i]) in rows && RowsOf(rows, runId)[i] == rows[(runId, ns[i])]
  {
    AscendingElements(SeqsOf(rows, runId));
  }

  lemma {:induction false} AscendingAdd(s: set<nat>, n: nat)
    requires forall m :: m in s ==> m < n
    ensures Ascending(s + {n}) == Ascending(s) + [n]
  {
    var s' := s + {n};
    assert IsMax(s', n) && IsMax(s', MaxOf(s'));
    assert s' - {n} == s;
  }

  /** Inserting a row adds its sequence number to its own run and to no other. */
  lemma {:induction false} SeqsAfter(rows: Rows, r: Receipt, runId: string)
    ensures SeqsOf(rows[KeyOf(r) := r], runId) ==
            SeqsOf(rows, runId) + if runId == r.body.runId then {r.body.seqNo} else {}
  {
    forall n: nat
      ensures n in SeqsOf(rows[KeyOf(r) := r], runId) <==>
              n in SeqsOf(rows, runId) || (runId == r.body.runId && n == r.body.seqNo)
    {
      SeqsMember(rows, runId, n);
      SeqsMember(rows[KeyOf(r) := r], runId, n);
    }
  }

  class SqliteReceiptStore {
    var rows: Rows
    const scheme: Scheme

    constructor (scheme: Scheme)
      ensures rows == map[] && this.scheme == scheme
    {
      rows := map[];
      this.scheme := scheme;
    }

    method Head(runId: string) returns (head: Option<Receipt>)
      ensures head == HeadOf(rows, runId)
    {
      var seqs := SeqsOf(rows, runId);
      if seqs == {} {
        return None;
      }
      MaxExists(seqs);
      var m :| m in seqs && IsMax(seqs, m);
      return Some(rows[(runId, m)]);
    }

    /** The sequence numbers of a run, in ascending order. */
    method OrderedSeqs(runId: string) returns (ns: seq<nat>)
      ensures ns == Ascending(SeqsOf(rows, runId))
    {
      ns := [];
      var rest := SeqsOf(rows, runId);
      ghost var all := Ascending(rest);
      assert all == all + ns;
      while rest != {}
        invariant all == Ascending(rest) + ns
        decreases rest
      {
        MaxExists(rest);
        var m :| m in rest && IsMax(rest, m);
        assert Ascending(rest) + ns == Ascending(rest - {m}) + ([m] + ns);
        ns := [m] + ns;
        rest := rest - {m};
      }
    }

    /** Rows by ascending sequence number, unless a row's body disagrees with its key column. */
    method GetRun(runId: string) returns (r: Result<seq<Receipt>, ReadError>)
      ensures r == ReadRun(rows, runId)
    {
      var ns := OrderedSeqs(runId);
      ghost var all := RowsOf(rows, runId);
      AscendingElements(SeqsOf(rows, runId));
      var rs: seq<Receipt> := [];
      for i := 0 to |ns|
        invariant rs == all[..i]
        invariant forall j :: 0 <= j < i ==> all[j].body.seqNo == ns[j]
      {
        SeqsMember(rows, runId, ns[i]);
        var row := rows[(runId, ns[i])];
        if row.body.seqNo != ns[i] {
          FirstMismatchAt(rows, runId, i);
          return Err(ColumnMismatch(row.body.seqNo));
        }
        rs := rs + [row];
      }
      assert rs == all;
      NoMismatch(rows, runId);
      return Ok(rs);
    }

    method VerifyRun(runId: string) returns (r: Result<ChainStatus, ReadError>)
      ensures match ReadRun(rows, runId)
              case Err(e) => r == Err(e)
              case Ok(rs) =>
                if rs == [] then r == Err(UnknownRun(runId))
                else if ChainHolds(scheme, rs[0].body.runId, rs) then r == Ok(Valid(|rs|))
                else r.Ok? && exists i: nat :: BreaksAt(scheme, rs[0].body.runId, rs, i, r.value)
    {
      var run := GetRun(runId);
      if run.Err? {
        return Err(run.error);
      }
      if run.value == [] {
        return Err(UnknownRun(runId));
      }
      var status := VerifyChain(scheme, run.value);
      return Ok(status);
    }

    /** First half of an append: read the head, check the link. Changes nothing. */
    method CheckLink(r: Receipt) returns (result: Result<(), AppendError>)
      ensures result == CheckAppendLink(scheme, HeadOf(rows, r.body.runId), r)
      ensures result.Ok? <==> FollowsHead(scheme, rows, r.body)
      ensures result.Err? ==> result.error == ChainViolation(r.body.seqNo)
    {
      var head := Head(r.body.runId);
      HeadIsLast(rows, r.body.runId);
      result := CheckAppendLink(scheme, head, r);
    }

    /** Second half: the INSERT, guarded by the primary key alone. */
    method Insert(r: Receipt) returns (result: Result<(), AppendError>)
      modifies this
      ensures if KeyOf(r) in old(rows) then
                result == Err(DuplicateSeq(r.body.seqNo)) && rows == old(rows)
              else
                result == Ok(()) && rows == old(rows)[KeyOf(r) := r]
      ensures Chained(scheme, old(rows)) && scheme.verifies(r) && LinksIn(scheme, old(rows), r.body) ==>
                Chained(scheme, rows)
    {
      if KeyOf(r) in rows {
        return Err(DuplicateSeq(r.body.seqNo));
      }
      rows := rows[KeyOf(r) := r];
      return Ok(());
    }

    /** Both halves with no other writer in between: the run grows by r, or nothing changes. */
    method Append(r: Receipt) returns (result: Result<(), AppendError>)
      requires Chained(scheme, rows) && scheme.verifies(r)
      modifies this
      ensures Chained(scheme, rows)
      ensures if CheckAppendLink(scheme, HeadOf(old(rows), r.body.runId), r).Ok? then
                result == Ok(()) && RowsOf(rows, r.body.runId) == RowsOf(old(rows), r.body.runId) + [r]
              else
                result == Err(ChainViolation(r.body.seqNo)) && rows == old(rows)
      ensures forall k: (string, nat) :: k.0 != r.body.runId ==>
                (k in rows <==> k in old(rows)) && (k in rows ==> rows[k] == old(rows)[k])
    {
      result := CheckLink(r);
      if result.Err? {
        return;
      }
      HeadLinks(scheme, rows, r);
      NextSeqFree(scheme, rows, r);
      result := Insert(r);
      RowsGrow(old(rows), r);
    }
  }
}
