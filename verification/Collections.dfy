/** Optional values, the `int` of the C sources, and what the modules need to know about sequences of parts and of
counted items. */
module Collections {

  datatype Option<+T> = None | Some(value: T)

  /** The parts one after another. */
  function Flatten<T>(parts: seq<seq<T>>): (whole: seq<T>) {
    if parts == [] then [] else Flatten(parts[..|parts| - 1]) + parts[|parts| - 1]
  }

  /** How often an item occurs. */
  function Count<T(==)>(q: seq<T>, item: T): (n: nat) {
    multiset(q)[item]
  }

  lemma CountAppend<T>(q: seq<T>, last: T, item: T)
    ensures Count(q + [last], item) == Count(q, item) + (if last == item then 1 else 0)
    ensures item in q + [last] <==> item in q || item == last
  {
  }

  const INT_RANGE: nat := 0x1_0000_0000

  /** The conversion to a 32-bit `int`. */
  function ToInt(x: int): (r: int)
    ensures r == 0 <==> x % INT_RANGE == 0
  {
    if x % INT_RANGE < 0x8000_0000 then x % INT_RANGE else x % INT_RANGE - INT_RANGE
  }
}
