/** Double-and-add scalar multiplication over any addition that forms a commutative monoid. */
module ScalarMult {
  /** Point addition with its identity, and the points it is an addition on. */
  datatype Addition<!P(!new)> = Addition(add: (P, P) -> P, zero: P, isPoint: P -> bool) {
    ghost predicate ClosedAt(p: P, q: P) {
      isPoint(p) && isPoint(q) ==> isPoint(add(p, q))
    }

    ghost predicate AssociatesAt(p: P, q: P, r: P) {
      isPoint(p) && isPoint(q) && isPoint(r) ==> add(add(p, q), r) == add(p, add(q, r))
    }

    ghost predicate CommutesAt(p: P, q: P) {
      isPoint(p) && isPoint(q) ==> add(p, q) == add(q, p)
    }

    ghost predicate IdentityAt(p: P) {
      isPoint(p) ==> add(zero, p) == p
    }

    ghost predicate Laws() {
      && isPoint(zero)
      && (forall p, q :: ClosedAt(p, q))
      && (forall p, q, r :: AssociatesAt(p, q, r))
      && (forall p, q :: CommutesAt(p, q))
      && (forall p :: IdentityAt(p))
    }
  }

  /** p added to the identity e times; negative multiples are taken as none at all. */
  ghost function Times<P(!new)>(g: Addition<P>, p: P, e: int): (r: P)
    requires g.Laws() && g.isPoint(p)
    ensures g.isPoint(r)
  {
    if e <= 0 then g.zero else
    var r := Times(g, p, e - 1);
    assert g.ClosedAt(r, p);
    g.add(r, p)
  }

  lemma {:induction false} TimesSum<P(!new)>(g: Addition<P>, p: P, a: nat, b: nat)
    requires g.Laws() && g.isPoint(p)
    ensures Times(g, p, a + b) == g.add(Times(g, p, a), Times(g, p, b))
  {
    var left := Times(g, p, a);
    if b == 0 {
      assert g.CommutesAt(left, g.zero) && g.IdentityAt(left);
    } else {
      TimesSum(g, p, a, b - 1);
      assert g.AssociatesAt(left, Times(g, p, b - 1), p);
    }
  }

  /** Multiplying a multiple multiplies the multipliers. */
  lemma {:induction false} TimesProduct<P(!new)>(g: Addition<P>, p: P, a: nat, b: nat)
    requires g.Laws() && g.isPoint(p)
    ensures Times(g, Times(g, p, a), b) == Times(g, p, a * b)
  {
    if b == 0 {
      assert a * b == 0;
    } else {
      TimesProduct(g, p, a, b - 1);
      assert a * b == a * (b - 1) + a;
      TimesSum(g, p, a * (b - 1), a);
    }
  }

  lemma {:induction false} TimesHalved<P(!new)>(g: Addition<P>, p: P, e: nat)
    requires g.Laws() && g.isPoint(p) && g.isPoint(g.add(p, p))
    ensures Times(g, g.add(p, p), e / 2) == Times(g, p, e - e % 2)
  {
    assert g.IdentityAt(p);
    assert Times(g, p, 1) == g.add(Times(g, p, 0), p);
    assert Times(g, p, 2) == g.add(Times(g, p, 1), p);
    TimesProduct(g, p, 2, e / 2);
  }

  /** One round of the loop leaves the total unchanged. */
  lemma {:induction false} RoundKeepsTotal<P(!new)>(g: Addition<P>, result: P, base: P, e: nat)
    requires g.Laws() && g.isPoint(result) && g.isPoint(base)
    ensures g.isPoint(g.add(result, base)) && g.isPoint(g.add(base, base))
    ensures var next := if e % 2 == 1 then g.add(result, base) else result;
            g.add(next, Times(g, g.add(base, base), e / 2)) == g.add(result, Times(g, base, e))
  {
    assert g.ClosedAt(result, base) && g.ClosedAt(base, base);
    TimesHalved(g, base, e);
    if e % 2 == 1 {
      var rest := Times(g, base, e - 1);
      assert g.AssociatesAt(result, base, rest) && g.CommutesAt(base, rest);
    }
  }

  /** Least significant bit first; every e is handled, and e at most zero gives the identity. */
  method ScalarMultiply<P(!new)>(g: Addition<P>, p: P, scalar: int) returns (result: P)
    requires g.Laws() && g.isPoint(p)
    ensures g.isPoint(result) && result == Times(g, p, scalar)
  {
    result := g.zero;
    var base, e := p, scalar;
    assert g.IdentityAt(Times(g, p, scalar));
    while e > 0
      invariant g.isPoint(result) && g.isPoint(base)
      invariant g.add(result, Times(g, base, e)) == Times(g, p, scalar)
    {
      RoundKeepsTotal(g, result, base, e);
      if e % 2 == 1 {
        result := g.add(result, base);
      }
      base := g.add(base, base);
      e := e / 2;
    }
    assert g.CommutesAt(result, g.zero) && g.IdentityAt(result);
  }

  // ---- the equation a signature check evaluates ----

  /** base generates a cycle of length order. */
  ghost predicate HasOrder<P(!new)>(g: Addition<P>, base: P, order: nat)
    requires g.Laws() && g.isPoint(base)
  {
    && order > 0
    && Times(g, base, order) == g.zero
    && forall n: nat :: 0 < n < order ==> Times(g, base, n) != g.zero
  }

  lemma {:induction false} WholeCyclesVanish<P(!new)>(g: Addition<P>, base: P, order: nat, n: nat)
    requires g.Laws() && g.isPoint(base) && HasOrder(g, base, order)
    ensures Times(g, base, order * n) == g.zero
  {
    if n == 0 {
      assert order * n == 0;
    } else {
      WholeCyclesVanish(g, base, order, n - 1);
      assert order * n == order * (n - 1) + order;
      TimesSum(g, base, order * (n - 1), order);
      assert g.IdentityAt(g.zero);
    }
  }

  lemma {:induction false} TimesReduces<P(!new)>(g: Addition<P>, base: P, order: nat, n: nat)
    requires g.Laws() && g.isPoint(base) && HasOrder(g, base, order)
    ensures Times(g, base, n) == Times(g, base, n % order)
  {
    var cycles := n / order;
    assert n == order * cycles + n % order;
    WholeCyclesVanish(g, base, order, cycles);
    TimesSum(g, base, order * cycles, n % order);
    assert g.IdentityAt(Times(g, base, n % order));
  }

  lemma {:induction false} DistinctWithinCycle<P(!new)>(g: Addition<P>, base: P, order: nat, low: nat, high: nat)
    requires g.Laws() && g.isPoint(base) && HasOrder(g, base, order)
    requires low < high < order
    ensures Times(g, base, low) != Times(g, base, high)
  {
    TimesSum(g, base, order - high, high);
    TimesSum(g, base, order - high, low);
    assert Times(g, base, order - high + low) != g.zero;
  }

  /** Multiples of a generator coincide exactly when the multipliers are congruent. */
  lemma {:induction false} TimesInjective<P(!new)>(g: Addition<P>, base: P, order: nat, a: nat, b: nat)
    requires g.Laws() && g.isPoint(base) && HasOrder(g, base, order)
    ensures Times(g, base, a) == Times(g, base, b) <==> a % order == b % order
  {
    TimesReduces(g, base, order, a);
    TimesReduces(g, base, order, b);
    if a % order < b % order {
      DistinctWithinCycle(g, base, order, a % order, b % order);
    } else if b % order < a % order {
      DistinctWithinCycle(g, base, order, b % order, a % order);
    }
  }

  /** The final comparison of the signature check, for decoded points and hashed challenge. */
  method CheckEquation<P(!new,==)>(g: Addition<P>, base: P, commitment: P, key: P, s: nat, challenge: nat)
    returns (ok: bool)
    requires g.Laws() && g.isPoint(base) && g.isPoint(commitment) && g.isPoint(key)
    ensures ok <==> Times(g, base, s) == g.add(commitment, Times(g, key, challenge))
  {
    var left := ScalarMultiply(g, base, s);
    var product := ScalarMultiply(g, key, challenge);
    ok := left == g.add(commitment, product);
  }

  /**
   The equation of section 5.1.7 of RFC 8032, for a key and a commitment that are multiples of
   the base point: it holds exactly when s is congruent to the value an honest signer computes.
   */
  lemma {:induction false} SignatureEquation<P(!new)>(
      g: Addition<P>, base: P, order: nat, secret: nat, nonce: nat, challenge: nat, s: nat)
    requires g.Laws() && g.isPoint(base) && HasOrder(g, base, order)
    ensures var key, commitment := Times(g, base, secret), Times(g, base, nonce);
            Times(g, base, s) == g.add(commitment, Times(g, key, challenge))
            <==> s % order == (nonce + secret * challenge) % order
  {
    TimesProduct(g, base, secret, challenge);
    TimesSum(g, base, nonce, secret * challenge);
    TimesInjective(g, base, order, s, nonce + secret * challenge);
  }
}
