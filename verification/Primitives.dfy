/** What all modules share. */
module Primitives {

  type Byte = b: int | 0 <= b < 256

  type Bytes = seq<Byte>

  // How many levels of tables there are.
  const NUM_LEVELS: nat := 7

  datatype Option<+T> = None | Some(value: T)

  // How many bytes two strings begin with in common.
  function CommonPrefix(a: Bytes, b: Bytes): (n: nat)
    ensures n <= |a| && n <= |b| && a[..n] == b[..n]
    ensures n < |a| && n < |b| ==> a[n] != b[n]
  {
    if a == [] || b == [] || a[0] != b[0] then 0 else
      var n := 1 + CommonPrefix(a[1..], b[1..]);
      assert a[..n] == [a[0]] + a[1..][..n - 1] && b[..n] == [b[0]] + b[1..][..n - 1];
      n
  }
}
