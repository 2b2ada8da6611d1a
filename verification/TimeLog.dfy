/** Lists of timed entries, oldest first, that are pruned from the front when they are used. */
module TimeLog {
  /** `_prune_rate_limit_bucket`, `_prune_llm_rate_bucket`: drops entries up to the first after `cutoff`. */
  function Prune<T>(b: seq<T>, cutoff: real, at: T -> real): seq<T> {
    if b != [] && at(b[0]) <= cutoff then Prune(b[1..], cutoff, at) else b
  }

  lemma {:induction false} PruneTwice<T>(b: seq<T>, c: real, c': real, at: T -> real)
    requires c <= c'
    ensures Prune(Prune(b, c, at), c', at) == Prune(b, c', at)
  {
    if b != [] && at(b[0]) <= c {
      PruneTwice(b[1..], c, c', at);
    }
  }

  lemma {:induction false} PruneAppend<T>(a: seq<T>, b: seq<T>, c: real, at: T -> real)
    ensures Prune(a + b, c, at) == if Prune(a, c, at) == [] then Prune(b, c, at) else Prune(a, c, at) + b
  {
    if a == [] {
      assert a + b == b;
    } else if at(a[0]) <= c {
      assert (a + b)[1..] == a[1..] + b;
      PruneAppend(a[1..], b, c, at);
    }
  }

  lemma {:induction false} PruneAll<T>(b: seq<T>, c: real, at: T -> real)
    requires forall i :: 0 <= i < |b| ==> at(b[i]) <= c
    ensures Prune(b, c, at) == []
  {
    if b != [] {
      PruneAll(b[1..], c, at);
    }
  }
}
