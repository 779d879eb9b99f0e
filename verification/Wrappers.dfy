/** Types that several modules share. */
module Wrappers {

  datatype Option<+T> = None | Some(value: T)

  type byte = bv8

  type uint32 = x: int | 0 <= x < 0x1_0000_0000

  function Min(a: int, b: int): (m: int)
    ensures m <= a && m <= b && (m == a || m == b)
  {
    if a < b then a else b
  }

  predicate IsDigit(c: char) {
    '0' <= c <= '9'
  }

  /** A number as printf's %d and %u write it. */
  function Decimal(n: nat): (s: string)
    ensures |s| > 0 && forall i :: 0 <= i < |s| ==> IsDigit(s[i])
  {
    (if n >= 10 then Decimal(n / 10) else "") + ['0' + (n % 10) as char]
  }

  lemma Assoc<T>(a: seq<T>, b: seq<T>, c: seq<T>)
    ensures (a + b) + c == a + (b + c)
  {
  }
}
