/** The virtual nonces of the pool: what each account's next nonce is once everything
    pending has been applied, read from the chain state until the pool knows better. */
module Noncers {
  import opened Transactions
  import opened PoolLists

  class TxNoncer {
    var fallback: Address -> nat
    var nonces: map<Address, nat>

    function Nonce(a: Address): nat
      reads this
    {
      if a in nonces then nonces[a] else fallback(a)
    }

    /** The answers as a function, for use once they have changed. */
    ghost function View(): (f: Address -> nat)
      reads this
      ensures forall a :: f(a) == Nonce(a)
    {
      var m, g := nonces, fallback;
      (a: Address) => if a in m then m[a] else g(a)
    }

    constructor (state: Address -> nat)
      ensures forall a :: Nonce(a) == state(a)
    {
      fallback, nonces := state, map[];
    }

    /** Starts over from a new state, as a freshly made noncer would. */
    method Restart(state: Address -> nat)
      modifies this
      ensures forall a :: Nonce(a) == state(a)
    {
      fallback, nonces := state, map[];
    }

    /** Reading fills the cache and changes no answer. */
    method Get(a: Address) returns (n: nat)
      modifies this
      ensures n == Nonce(a) && forall b :: Nonce(b) == old(Nonce(b))
    {
      if a !in nonces {
        nonces := nonces[a := fallback(a)];
      }
      n := nonces[a];
    }

    method Set(a: Address, n: nat)
      modifies this
      ensures Nonce(a) == n && forall b :: b != a ==> Nonce(b) == old(Nonce(b))
    {
      nonces := nonces[a := n];
    }

    method SetIfLower(a: Address, n: nat)
      modifies this
      ensures Nonce(a) == Min(old(Nonce(a)), n) && forall b :: b != a ==> Nonce(b) == old(Nonce(b))
    {
      if a !in nonces {
        nonces := nonces[a := fallback(a)];
      }
      if nonces[a] <= n {
        return;
      }
      nonces := nonces[a := n];
    }

    /** Sets the nonce of every account in `pending` to the one after its last. */
    method SetAfter(pending: ListMap)
      requires NoEmpty(pending)
      modifies this
      ensures forall a :: NextNonce(ListOf(pending, a), old(Nonce(a)), Nonce(a))
    {
      var rest := pending.Keys;
      forall a | a !in rest ensures NextNonce(ListOf(pending, a), Nonce(a), Nonce(a)) {
        NextOfLast(ListOf(pending, a), Nonce(a), 0);
      }
      assert forall a :: a in rest ==> ListOf(pending, a) != map[];
      hide NextNonce, ListOf;
      while rest != {}
        invariant rest <= pending.Keys
        invariant forall a :: a !in rest ==> NextNonce(ListOf(pending, a), old(Nonce(a)), Nonce(a))
        invariant forall a :: a in rest ==> Nonce(a) == old(Nonce(a))
      {
        var a :| a in rest;
        var p := ListOf(pending, a);
        ghost var last := GreatestNonce(p);
        var n :| n in p && forall k :: k in p ==> k <= n;
        NextOfLast(p, old(Nonce(a)), n);
        Set(a, n + 1);
        rest := rest - {a};
      }
    }
  }
}
