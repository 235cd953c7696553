/** The nodes of an expression, and the first of a list that has a property. */
module Trees {
  import opened Outcomes
  import opened Ast

  /** Every node of e, itself first, then its operands left to right. */
  function Subterms(e: Expr): seq<Expr>
    decreases e, 0
  {
    match e
    case Literal(_) => [e]
    case Path(_) => [e]
    case Unary(_, inner) => [e] + Subterms(inner)
    case Binary(_, l, r) => [e] + (Subterms(l) + Subterms(r))
    case Membership(_, n, hs) => [e] + (Subterms(n) + Subterms(hs))
    case Call(_, args) => [e] + ArgsSubterms(args)
  }

  function ArgsSubterms(args: seq<Expr>): seq<Expr>
    decreases args, 0
  {
    if args == [] then [] else Subterms(args[0]) + ArgsSubterms(args[1..])
  }

  /** The first element with the property. */
  function First<T>(s: seq<T>, p: T -> bool): Option<T> {
    if s == [] then None else if p(s[0]) then Some(s[0]) else First(s[1..], p)
  }

  ghost predicate FirstAt<T(!new)>(s: seq<T>, p: T -> bool, k: nat) {
    k < |s| && p(s[k]) && forall j :: 0 <= j < k ==> !p(s[j])
  }

  ghost predicate Nowhere<T(!new)>(s: seq<T>, p: T -> bool) {
    forall k :: 0 <= k < |s| ==> !p(s[k])
  }

  lemma {:induction false} FirstExactly<T(!new)>(s: seq<T>, p: T -> bool, x: T)
    ensures First(s, p).None? <==> Nowhere(s, p)
    ensures First(s, p) == Some(x) <==> exists k: nat :: FirstAt(s, p, k) && s[k] == x
  {
    if s != [] {
      FirstExactly(s[1..], p, x);
      forall k: nat | k < |s| - 1 ensures s[1..][k] == s[k + 1] {
      }
      if p(s[0]) {
        assert FirstAt(s, p, 0);
      } else {
        forall k: nat ensures FirstAt(s, p, k + 1) <==> FirstAt(s[1..], p, k) {
          assert forall j :: 1 <= j < |s| ==> s[j] == s[1..][j - 1];
        }
        assert forall k: nat :: FirstAt(s, p, k) ==> k > 0 && FirstAt(s[1..], p, k - 1);
      }
    }
  }

  lemma {:induction false} FirstAppend<T>(a: seq<T>, b: seq<T>, p: T -> bool)
    ensures First(a + b, p) == if First(a, p).Some? then First(a, p) else First(b, p)
    decreases |a|
  {
    if a == [] {
      assert a + b == b;
    } else {
      assert (a + b)[1..] == a[1..] + b;
      FirstAppend(a[1..], b, p);
    }
  }

  lemma FirstOne<T>(x: T, p: T -> bool)
    ensures First([x], p) == if p(x) then Some(x) else None
  {
  }

  /** The first element as a position, and none as an absence. */
  lemma {:induction false} FirstMeans<T(!new)>(s: seq<T>, p: T -> bool)
    ensures First(s, p).None? <==> forall x :: x in s ==> !p(x)
    ensures First(s, p).Some? ==> exists k: nat :: FirstAt(s, p, k) && s[k] == First(s, p).value
  {
    if First(s, p).Some? {
      FirstExactly(s, p, First(s, p).value);
      var k: nat :| FirstAt(s, p, k) && s[k] == First(s, p).value;
      assert s[k] in s;
    } else if s != [] {
      FirstExactly(s, p, s[0]);
    }
  }
}
