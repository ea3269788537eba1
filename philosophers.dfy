/** 10c-dining-philosophers-hierarchy: philosopher num needs chopsticks num
    and (num + 1) mod 5 and always takes the lower-numbered one first, which
    rules out a circular wait. The chopstick mutexes, the delays and the
    printing are not modelled; eatTask is its sequence of take and give
    calls. */
module Philosophers {

  /** NUM_TASKS */
  const NumTasks: nat := 5

  /** index1 and index2 of eatTask. */
  datatype Sticks = Sticks(first: nat, second: nat)

  /** The choice of eatTask: its own chopstick first when it is the lower
      number, otherwise its neighbour's. */
  function Order(num: nat): Sticks
    requires num < NumTasks
  {
    if num < (num + 1) % NumTasks then Sticks(num, (num + 1) % NumTasks)
    else Sticks((num + 1) % NumTasks, num)
  }

  /** The lower chopstick comes first, the two are the philosopher's two
      neighbours, and only the last philosopher takes the else branch. */
  lemma OrderIsHierarchy(num: nat)
    requires num < NumTasks
    ensures Order(num).first < Order(num).second < NumTasks
    ensures {Order(num).first, Order(num).second} == {num, (num + 1) % NumTasks}
    ensures !(num < (num + 1) % NumTasks) <==> num == NumTasks - 1
    ensures num == NumTasks - 1 ==> Order(num) == Sticks(0, NumTasks - 1)
  {
  }

  datatype Op = Take(stick: nat) | Give(stick: nat)

  /** The mutex calls of eatTask in program order. */
  function EatOps(num: nat): seq<Op>
    requires num < NumTasks
  {
    var s := Order(num);
    [Take(s.first), Take(s.second), Give(s.second), Give(s.first)]
  }

  /** Chopsticks are taken in increasing order and given back in the
      reverse order, each exactly once. */
  lemma EatOpsNest(num: nat)
    requires num < NumTasks
    ensures |EatOps(num)| == 4
    ensures EatOps(num)[0].Take? && EatOps(num)[1].Take?
    ensures EatOps(num)[0].stick < EatOps(num)[1].stick
    ensures EatOps(num)[2] == Give(EatOps(num)[1].stick)
    ensures EatOps(num)[3] == Give(EatOps(num)[0].stick)
  {
    OrderIsHierarchy(num);
  }

  /** A chain of philosophers in which each holds its first chopstick and
      waits for its second, held as first chopstick by the next one. */
  ghost predicate WaitChain(ps: seq<nat>) {
    (forall i :: 0 <= i < |ps| ==> ps[i] < NumTasks) &&
    forall i :: 0 <= i < |ps| - 1 ==> Order(ps[i]).second == Order(ps[i + 1]).first
  }

  /** Along a wait chain the first chopsticks strictly increase, so the
      chain can never close into a cycle: no deadlock. */
  lemma {:induction false} WaitChainIncreases(ps: seq<nat>)
    requires WaitChain(ps) && |ps| > 1
    ensures Order(ps[0]).first < Order(ps[|ps| - 1]).first
    ensures ps[0] != ps[|ps| - 1]
    decreases |ps|
  {
    OrderIsHierarchy(ps[0]);
    if |ps| > 2 {
      assert WaitChain(ps[1..]);
      WaitChainIncreases(ps[1..]);
      assert ps[1..][|ps[1..]| - 1] == ps[|ps| - 1];
    }
  }
}
