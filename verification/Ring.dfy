/** Bounded logs that keep their newest entries. */
module Ring {

  /** The last `n` members of a log, or all of them. */
  function Newest<T>(log: seq<T>, n: nat): (r: seq<T>)
    ensures |r| == if |log| <= n then |log| else n
  {
    if |log| <= n then log else log[|log| - n..]
  }

  lemma NewestPush<T>(log: seq<T>, x: T, n: nat)
    requires n >= 1
    ensures Newest(Newest(log, n) + [x], n) == Newest(log + [x], n)
  {}
}
