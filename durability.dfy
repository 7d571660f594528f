/** The wear arithmetic shared by both generations of `PartData`:
    `TakeDamage` clamps at zero with `Mathf.Max`, `Repair` clamps at the
    record's maximum with `Mathf.Min`. Durability is a C# `float`; it is
    modelled as `real`. */
module Durability {

  /** Current durability after `TakeDamage(amount)`. */
  function AfterDamage(current: real, amount: real): (r: real)
    ensures r >= 0.0 && r >= current - amount
    ensures r == 0.0 || r == current - amount
  {
    if current - amount > 0.0 then current - amount else 0.0
  }

  /** Whether `TakeDamage(amount)` calls the breaking handler. */
  function Breaks(current: real, amount: real): (b: bool)
    ensures b <==> current <= amount
  {
    AfterDamage(current, amount) <= 0.0
  }

  /** Current durability after `Repair(amount)` on a record whose maximum is `max`. */
  function AfterRepair(max: real, current: real, amount: real): (r: real)
    ensures r <= max && r <= current + amount
    ensures r == max || r == current + amount
  {
    if current + amount < max then current + amount else max
  }

  /** Durability in the range the editor slider suggests: `0 <= current <= max`. */
  predicate InRange(max: real, current: real)
  {
    0.0 <= current <= max
  }

  /** With non-negative amounts, damage and repair keep durability in range. */
  lemma ClampsKeepRange(max: real, current: real, amount: real)
    requires InRange(max, current) && amount >= 0.0
    ensures InRange(max, AfterDamage(current, amount))
    ensures InRange(max, AfterRepair(max, current, amount))
  {
  }

  /** Damaging a part by at least its current durability always breaks it and
      leaves it at exactly zero; a smaller amount never breaks it. */
  lemma DamageBreaksExactlyAtZero(current: real, amount: real)
    ensures Breaks(current, amount) <==> AfterDamage(current, amount) == 0.0
  {
  }

  /** Repair never takes durability below where it was when the amount is
      non-negative and the part was in range, and a large enough repair restores
      the maximum. */
  lemma RepairMonotone(max: real, current: real, amount: real)
    requires InRange(max, current) && amount >= 0.0
    ensures current <= AfterRepair(max, current, amount)
    ensures amount >= max - current ==> AfterRepair(max, current, amount) == max
  {
  }
}
