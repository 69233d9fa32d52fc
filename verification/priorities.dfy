/** Entry priorities. The source stores a float; here it is an exact real,
    so the clamp is exact and NaN does not exist. */
module Priorities {

  const DefaultPriority: real := 0.5
  const MinPriority: real := 0.0
  const MaxPriority: real := 1.0

  type Priority = p: real | 0.0 <= p <= 1.0 witness 0.5

  function Distance(a: real, b: real): real {
    if a <= b then b - a else a - b
  }

  function Max(a: real, b: real): real {
    if a >= b then a else b
  }

  function Min(a: real, b: real): real {
    if a <= b then a else b
  }

  /** The priority setter's clamp: the point of [0.0, 1.0] nearest `p`. */
  function Clamp(p: real): (r: Priority)
    ensures forall q: Priority :: Distance(r, p) <= Distance(q, p)
    ensures r == Max(MinPriority, Min(MaxPriority, p))
  {
    if p > MaxPriority then MaxPriority
    else if p < MinPriority then MinPriority
    else p
  }

  lemma ClampKeepsInRangeValues(p: real)
    requires MinPriority <= p <= MaxPriority
    ensures Clamp(p) == p
  {
  }

  lemma ClampIdempotent(p: real)
    ensures Clamp(Clamp(p)) == Clamp(p)
  {
  }
}
