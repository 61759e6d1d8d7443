/** Traffic counters of both directions. */
module Counters {
  datatype Counter = Counter(up: int, down: int)

  const ZERO := Counter(0, 0)

  function Add(a: Counter, b: Counter): Counter { Counter(a.up + b.up, a.down + b.down) }

  predicate Le(a: Counter, b: Counter) { a.up <= b.up && a.down <= b.down }
}
