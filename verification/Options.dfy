/** A value that may be missing. */
module Options {
  datatype Option<+T> = None | Some(value: T)

  function Least(a: nat, b: nat): (m: nat)
    ensures m <= a && m <= b && (m == a || m == b)
  {
    if a < b then a else b
  }
}
