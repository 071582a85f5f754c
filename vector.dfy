/** pgm_vector: a float vector with index range nl .. nh, zero-filled.  The C
    function returns the allocation shifted by -nl so that v[nl] .. v[nh] are
    its entries; here entry k of that range is v[k - nl] of a fresh array,
    so entries nl .. nh are v[0 .. nh - nl]. */
module Vector {

  /** Allocates nh - nl + 1 entries and zero-fills them one by one. */
  method PgmVector(nl: int, nh: int) returns (v: array<real>)
    requires nl <= nh + 1
    ensures fresh(v)
    ensures v.Length == nh - nl + 1
    ensures forall k :: 0 <= k < v.Length ==> v[k] == 0.0
  {
    v := new real[nh - nl + 1];
    var i := 0;
    while i <= nh - nl
      invariant 0 <= i <= nh - nl + 1
      invariant forall k :: 0 <= k < i ==> v[k] == 0.0
    {
      v[i] := 0.0;
      i := i + 1;
    }
  }
}
