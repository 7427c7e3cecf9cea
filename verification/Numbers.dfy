/** Machine numbers, and arithmetic the solver should not have to find. */
module Numbers {

  const U32_MAX: nat := 0xFFFF_FFFF
  const U64_MAX: nat := 0xFFFF_FFFF_FFFF_FFFF

  type U32 = n: nat | n <= U32_MAX

  type Byte = n: nat | n < 256

  function Min(a: nat, b: nat): nat {
    if a < b then a else b
  }

  function Max(a: nat, b: nat): nat {
    if a < b then b else a
  }

  lemma {:induction false} TimesGrows(a: nat, b: nat, n: nat)
    requires a <= b
    ensures 0 <= a * n <= b * n
  {
    if n > 0 { TimesGrows(a, b, n - 1); }
  }

  /** There is always a number not yet taken. */
  lemma {:induction false} Above(ids: set<nat>) returns (bound: nat)
    ensures forall id | id in ids :: id < bound
    decreases |ids|
  {
    if ids == {} {
      bound := 0;
    } else {
      var id :| id in ids;
      var rest := Above(ids - {id});
      bound := if rest <= id then id + 1 else rest;
      assert forall x | x in ids :: x == id || x in ids - {id};
    }
  }
}
