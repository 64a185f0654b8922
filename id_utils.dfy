/**
 * Generating view ids: a shared counter hands out ids from 1 up to the
 * largest id below the range the resource compiler uses, then starts over
 * at 1, never at 0.
 */
module IdUtils {
  import opened Common

  /** The largest generated id: resource-compiler ids have a non-zero high byte. */
  const MAX_ID: nat := 0x00FF_FFFF

  /** An id the generator can hand out. */
  predicate InRange(id: int)
  {
    1 <= id <= MAX_ID
  }

  /** The counter's next value: one more, rolling over to 1 past the largest id. */
  function Next(value: int): (next: int)
    ensures value < MAX_ID ==> next == value + 1
    ensures value >= MAX_ID ==> next == 1
  {
    var newValue := value + 1;
    if newValue > MAX_ID then 1 else newValue
  }

  /** The counter after `k` calls. */
  function Iterate(value: int, k: nat): int
  {
    if k == 0 then value else Next(Iterate(value, k - 1))
  }

  /** From an id in range, the counter walks the range in a circle: `k` calls on, it is `k` places further round. */
  lemma {:induction false} IterateClosedForm(value: int, k: nat)
    requires InRange(value)
    ensures Iterate(value, k) == (value - 1 + k) % MAX_ID + 1
  {
    if k > 0 {
      IterateClosedForm(value, k - 1);
      ModSucc(value - 1 + (k - 1), MAX_ID);
    }
  }

  /** Every id the counter holds, however many calls on, is in range. */
  lemma IterateInRange(value: int, k: nat)
    requires InRange(value)
    ensures InRange(Iterate(value, k))
  {
    IterateClosedForm(value, k);
  }

  /** Two positions less than a full turn apart are different places on the circle. */
  lemma ModDistinct(a: int, i: int, j: int)
    requires 0 <= i < j < MAX_ID
    ensures (a + i) % MAX_ID != (a + j) % MAX_ID
  {
    var q1, q2 := (a + i) / MAX_ID, (a + j) / MAX_ID;
    DivModIdentity(a + i, MAX_ID);
    DivModIdentity(a + j, MAX_ID);
    if (a + i) % MAX_ID == (a + j) % MAX_ID {
      assert (q2 - q1) * MAX_ID == j - i;
      MulStrict(0, q2 - q1, MAX_ID);
      MulMono(1, q2 - q1, MAX_ID);
      assert false;
    }
  }

  /** Fewer calls than there are ids never repeat an id. */
  lemma NoRepeatWithinCycle(value: int, i: nat, j: nat)
    requires InRange(value) && i < j < MAX_ID
    ensures Iterate(value, i) != Iterate(value, j)
  {
    IterateClosedForm(value, i);
    IterateClosedForm(value, j);
    ModDistinct(value - 1, i, j);
  }

  /** After as many calls as there are ids, the counter is back where it started. */
  lemma FullCycle(value: int)
    requires InRange(value)
    ensures Iterate(value, MAX_ID) == value
  {
    IterateClosedForm(value, MAX_ID);
    DivModUnique(value - 1 + MAX_ID, MAX_ID, 1, value - 1);
  }

  /** Every id in range is handed out within one cycle, wherever the counter starts. */
  lemma EveryIdWithinCycle(value: int, id: int) returns (k: nat)
    requires InRange(value) && InRange(id)
    ensures k < MAX_ID && Iterate(value, k) == id
  {
    k := if id >= value then id - value else id - value + MAX_ID;
    IterateClosedForm(value, k);
    DivModUnique(value - 1 + k, MAX_ID, if id >= value then 0 else 1, id - 1);
  }

  /** The process-wide counter. */
  class IdGenerator {
    var nextGeneratedId: int

    predicate Valid()
      reads this
    {
      InRange(nextGeneratedId)
    }

    /** The counter starts at 1. */
    constructor ()
      ensures nextGeneratedId == 1 && Valid()
    {
      nextGeneratedId := 1;
    }

    /**
     * `generateId`, its compare-and-set taken as one step: hand out the
     * counter's value and move the counter on.
     */
    method GenerateId() returns (id: int)
      requires Valid()
      modifies this
      ensures Valid() && InRange(id)
      ensures id == old(nextGeneratedId) && nextGeneratedId == Next(id)
    {
      var result := nextGeneratedId;
      var newValue := result + 1;
      if newValue > MAX_ID {
        newValue := 1;
      }
      nextGeneratedId := newValue;
      id := result;
    }
  }
}
