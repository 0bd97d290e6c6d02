/** What every part of the model uses. */
module Basics {
  const MAX_U64: nat := 0xFFFF_FFFF_FFFF_FFFF

  type U64 = n: nat | n <= MAX_U64

  type Byte = n: nat | n < 256

  type Address = nat

  datatype Option<+T> = None | Some(value: T)

  lemma {:induction false} SubsetCount<T>(a: set<T>, b: set<T>)
    requires a <= b
    ensures |a| <= |b|
  {
    if a != {} {
      var x :| x in a;
      SubsetCount(a - {x}, b - {x});
    }
  }
}
