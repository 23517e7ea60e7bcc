/** Measures that add up over the parts of a loop's state, for loops in which any part may move next. */
module Progress {

  function Total<T(!new)>(parts: seq<T>, cost: T -> nat): nat {
    if parts == [] then 0 else cost(parts[0]) + Total(parts[1..], cost)
  }

  lemma {:induction false} TotalUpdate<T(!new)>(parts: seq<T>, i: nat, part: T, cost: T -> nat)
    requires i < |parts|
    ensures Total(parts[i := part], cost) == Total(parts, cost) - cost(parts[i]) + cost(part)
  {
    if i == 0 {
      assert parts[i := part][1..] == parts[1..];
    } else {
      assert parts[i := part][1..] == parts[1..][i - 1 := part];
      TotalUpdate(parts[1..], i - 1, part, cost);
    }
  }

  /** A part that still has something to do counts one. */
  function Pending(done: bool): nat { if done then 0 else 1 }

  function Itself(n: nat): nat { n }
}
