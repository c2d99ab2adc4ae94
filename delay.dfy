// The measurement delay: a deque with `maxlen == delaySteps`. Each call appends;
// while the deque is shorter than its capacity the oldest element is peeked,
// and once an append fills it the oldest element is popped. The pop puts the
// length back at `delaySteps - 1` before the next append, so the deque's own
// eviction never fires and the effective latency is `delaySteps - 1` calls.
module Delay {
  import opened BoundedDeque

  /** The index, into the inputs pushed so far, of the value returned by the
      `n`-th call (counting from 1) on a delay of capacity `delaySteps`. */
  function OutputIndex(n: nat, delaySteps: nat): (i: nat)
    requires 1 <= n && 1 <= delaySteps
    ensures i < n
    ensures n < delaySteps ==> i == 0
    ensures delaySteps <= n ==> i == n - delaySteps
  {
    if n < delaySteps then 0 else n - delaySteps
  }

  class MeasurementDelay {
    const delaySteps: nat
    var buffer: seq<real>
    /** Every value ever passed to `Apply`, oldest first. */
    ghost var pushed: seq<real>

    /** Between calls the deque holds the last `delaySteps - 1` inputs. */
    ghost predicate Valid()
      reads this
    {
      delaySteps >= 1 && buffer == Recent(pushed, delaySteps - 1)
    }

    constructor (delaySteps: nat)
      requires delaySteps >= 1
      ensures Valid() && this.delaySteps == delaySteps && pushed == [] && buffer == []
    {
      this.delaySteps := delaySteps;
      buffer := [];
      pushed := [];
    }

    method Apply(value: real) returns (output: real)
      requires Valid()
      modifies this
      ensures Valid()
      ensures pushed == old(pushed) + [value]
      ensures output == pushed[OutputIndex(|pushed|, delaySteps)]
      // filling: the oldest element is peeked and stays in the deque
      ensures |old(buffer)| + 1 < delaySteps ==>
                buffer == old(buffer) + [value] && output == buffer[0]
      // full: the oldest element is popped, leaving delaySteps - 1 elements
      ensures |old(buffer)| + 1 == delaySteps ==>
                old(buffer) + [value] == [output] + buffer && |buffer| == delaySteps - 1
      ensures |buffer| < delaySteps
    {
      AppendNoEviction(buffer, value, delaySteps);
      buffer := BoundedAppend(buffer, value, delaySteps);
      pushed := pushed + [value];
      if |buffer| < delaySteps {
        output := buffer[0];
      } else {
        output := buffer[0];
        buffer := buffer[1..];
      }
    }
  }
}
