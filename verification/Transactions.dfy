/** Transactions as the pool, the packer and the processor see them. */
module Transactions {

  type Address = nat

  const EMPTY_ADDRESS: Address := 0

  /** `id` stands for everything that the other fields leave out (recipient, signature values), so that equal
      transactions are exactly those with equal hashes. `payer` is EMPTY_ADDRESS when the sender pays for its gas,
      and `fee` is zero when the transaction carries none. */
  datatype Tx = Tx(id: nat, from: Address, payer: Address, nonce: nat, price: nat, gas: nat,
                   value: int, fee: int, create: bool, data: seq<bv8>, size: nat)
  {
    function AmountCost(): int { value + fee }

    function GasCost(): nat { price * gas }

    function Cost(): int { GasCost() + AmountCost() }

    /** Somebody other than the sender buys the gas. */
    predicate HasOtherPayer() { payer != EMPTY_ADDRESS && payer != from }

    /** What the sender itself has to be able to afford. */
    function SenderCost(): int { if HasOtherPayer() then AmountCost() else Cost() }
  }

  ghost predicate IsLeast(m: nat, s: set<nat>) {
    m in s && forall x :: x in s ==> m <= x
  }

  /** The least number in a non-empty finite set. */
  function Least(s: set<nat>): (m: nat)
    requires s != {}
    ensures IsLeast(m, s)
  {
    LeastExists(s);
    var m: nat :| m in s && forall x :: x in s ==> m <= x;
    m
  }

  lemma {:induction false} LeastExists(s: set<nat>)
    requires s != {}
    ensures exists m: nat :: IsLeast(m, s)
  {
    var a :| a in s;
    var rest := s - {a};
    assert forall x :: x in s && x != a ==> x in rest;
    if rest == {} {
      assert IsLeast(a, s);
    } else {
      LeastExists(rest);
      var b: nat :| IsLeast(b, rest);
      assert IsLeast(if a < b then a else b, s);
    }
  }
}
