/** Arithmetic and iteration shared by several modules. */
module Basics {
  function Min(a: int, b: int): int {
    if a < b then a else b
  }

  function Pow2(n: nat): nat {
    if n == 0 then 1 else 2 * Pow2(n - 1)
  }

  lemma {:induction false} Pow2IsPositive(n: nat)
    ensures Pow2(n) >= 1
    decreases n
  {
    if n > 0 {
      Pow2IsPositive(n - 1);
    }
  }

  /** The keys of an object in the order a `for … in` loop happens to visit them. */
  method KeysInOrder<V>(table: map<string, V>) returns (keys: seq<string>)
    ensures forall k :: k in keys <==> k in table
    ensures forall i, j :: 0 <= i < j < |keys| ==> keys[i] != keys[j]
  {
    keys := [];
    var rest := table.Keys;
    while rest != {}
      invariant forall k :: k in table <==> k in keys || k in rest
      invariant forall k :: k in keys ==> k !in rest
      invariant forall i, j :: 0 <= i < j < |keys| ==> keys[i] != keys[j]
      decreases |rest|
    {
      var k :| k in rest;
      keys := keys + [k];
      rest := rest - {k};
    }
  }
}
