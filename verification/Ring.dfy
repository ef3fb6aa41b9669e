/** Positions on a ring of slots: walking up by one and around. */
module Ring {

  function Step(size: int, n: int): int {
    if n + 1 == size then 0 else n + 1
  }

  /** Steps from slot a to slot b. */
  function Dist(size: int, a: int, b: int): int {
    if a <= b then b - a else size - a + b
  }

  /** The slot reached after so many steps. */
  function Walk(size: int, start: int, steps: nat): int {
    if steps == 0 then start else Step(size, Walk(size, start, steps - 1))
  }

  lemma {:induction false} WalkReaches(size: int, start: int, steps: nat)
    requires 0 <= start < size && steps < size
    ensures 0 <= Walk(size, start, steps) < size && Dist(size, start, Walk(size, start, steps)) == steps
  {
    if steps > 0 {
      WalkReaches(size, start, steps - 1);
    }
  }

  lemma DistInjective(size: int, a: int, b: int, c: int)
    requires 0 <= a < size && 0 <= b < size && 0 <= c < size && Dist(size, a, b) == Dist(size, a, c)
    ensures b == c
  {
  }

  lemma {:induction false} WalkInRange(size: int, start: int, steps: nat)
    requires 0 <= start < size
    ensures 0 <= Walk(size, start, steps) < size
  {
    if steps > 0 {
      WalkInRange(size, start, steps - 1);
    }
  }

  lemma {:induction false} WalkOn(size: int, start: int, a: nat, b: nat)
    ensures Walk(size, Walk(size, start, a), b) == Walk(size, start, a + b)
  {
    if b > 0 {
      WalkOn(size, start, a, b - 1);
    }
  }

  /** Within one lap no slot is visited twice; after a lap the walk is back. */
  lemma {:induction false} WalkDistinct(size: int, start: int, a: nat, b: nat)
    requires 0 <= start < size && a < b <= a + size
    ensures Walk(size, start, a) == Walk(size, start, b) <==> b == a + size
  {
    var s := Walk(size, start, a);
    WalkInRange(size, start, a);
    WalkOn(size, start, a, b - a);
    if b < a + size {
      WalkReaches(size, s, b - a);
    } else {
      WalkReaches(size, s, size - 1);
      DistInjective(size, s, Walk(size, s, size - 1), if s == 0 then size - 1 else s - 1);
    }
  }
}
