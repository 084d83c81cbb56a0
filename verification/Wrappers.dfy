/** An optional value, in place of None, and what several modules need of lists and numbers. */
module Wrappers {
  datatype Option<+T> = None | Some(value: T)

  predicate Distinct<T(==)>(items: seq<T>) {
    forall i, j :: 0 <= i < j < |items| ==> items[i] != items[j]
  }

  function Pow2(n: nat): nat {
    if n == 0 then 1 else 2 * Pow2(n - 1)
  }

  function Cut(text: string, size: nat): string {
    if |text| <= size then text else text[..size]
  }
}
