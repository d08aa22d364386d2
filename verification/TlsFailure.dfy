/** Searching an exception's cause chain, which may be cyclic, for a TLS error. */
module TlsFailure {
  class Exc {
    var cause: Exc?
    var context: Exc?
    const isSslError: bool
  }

  /** The chain follows the cause, and the context where there is no cause. */
  ghost function Next(e: Exc): Exc?
    reads e
  {
    if e.cause != null then e.cause else e.context
  }

  /** The exception n places down the chain, or null past its end. */
  ghost function Nth(e: Exc?, n: nat): Exc?
    reads *
  {
    if n == 0 || e == null then e else Nth(Next(e), n - 1)
  }

  ghost predicate SslReachable(exc: Exc)
    reads *
  {
    exists n: nat :: Nth(exc, n) != null && Nth(exc, n).isSslError
  }

  lemma {:induction false} NthAfter(e: Exc?, n: nat)
    requires Nth(e, n) != null
    ensures Nth(e, n + 1) == Next(Nth(e, n))
  {
    if n > 0 {
      NthAfter(Next(e), n - 1);
    }
  }

  /** A set that the chain does not leave holds everything down the chain from its members. */
  lemma {:induction false} NeverLeaves(seen: set<Exc>, e: Exc?, n: nat)
    requires forall x :: x in seen ==> Next(x) == null || Next(x) in seen
    requires e == null || e in seen
    ensures Nth(e, n) == null || Nth(e, n) in seen
  {
    if n > 0 && e != null {
      NeverLeaves(seen, Next(e), n - 1);
    }
  }

  /** The exception is a TLS error itself, or one is on the chain of its cause or, where it has none, of its context. */
  lemma ReachableFrom(exc: Exc)
    ensures SslReachable(exc)
            <==> || exc.isSslError
                 || (exc.cause != null && SslReachable(exc.cause))
                 || (exc.cause == null && exc.context != null && SslReachable(exc.context))
  {
    assert Nth(exc, 0) == exc;
    if exc.isSslError {
      assert Nth(exc, 0).isSslError;
    }
    if n: nat :| Nth(exc, n) != null && Nth(exc, n).isSslError && n > 0 {
      assert Nth(exc, n) == Nth(Next(exc), n - 1);
    }
    var next := Next(exc);
    if next != null && SslReachable(next) {
      var n: nat :| Nth(next, n) != null && Nth(next, n).isSslError;
      assert Nth(exc, n + 1) == Nth(next, n);
    }
  }

  /** Ends on every heap, cyclic chains included, and answers whether a TLS error is on the chain. */
  method IsTlsFailure(exc: Exc) returns (found: bool)
    ensures found <==> SslReachable(exc)
  {
    ghost var heap := set e: Exc | allocated(e) && Nth(e, 0) == e;
    ghost var n := 0;
    var seen: set<Exc> := {};
    var cur: Exc? := exc;
    while cur != null && cur !in seen
      invariant cur == Nth(exc, n)
      invariant exc == cur || exc in seen
      invariant forall x :: x in seen ==> !x.isSslError && (Next(x) == cur || Next(x) in seen)
      invariant seen <= heap
      decreases heap - seen
    {
      assert Nth(cur, 0) == cur && cur in heap - seen;
      seen := seen + {cur};
      if cur.isSslError {
        return true;
      }
      NthAfter(exc, n);
      n := n + 1;
      cur := if cur.cause != null then cur.cause else cur.context;
    }
    forall k: nat
      ensures Nth(exc, k) == null || Nth(exc, k) in seen
    {
      NeverLeaves(seen, exc, k);
    }
    return false;
  }
}
