/** Containers shared by the models. */
module Common {

  datatype Option<+T> = None | Some(value: T)

  datatype Result<+T, +E> = Ok(value: T) | Err(error: E)

  /** `s` without its first `n` elements; empty when `n` runs past the end. */
  function Drop<T>(s: seq<T>, n: nat): (r: seq<T>)
    ensures |r| == if n <= |s| then |s| - n else 0
  {
    if n <= |s| then s[n..] else []
  }

  /** `s` has `prefix` at its front. */
  predicate StartsWith(s: string, prefix: string) {
    |prefix| <= |s| && s[..|prefix|] == prefix
  }

  lemma {:induction false} HeadTail<T>(s: seq<T>)
    requires s != []
    ensures [s[0]] + s[1..] == s
  {
  }

  lemma {:induction false} Regroup<T>(a: seq<T>, b: seq<T>, c: seq<T>)
    ensures a + (b + c) == (a + b) + c
  {
  }

  lemma {:induction false} StartsHead(s: string, prefix: string)
    requires prefix != []
    ensures StartsWith(s, prefix) ==> s[0] == prefix[0]
  {
    assert StartsWith(s, prefix) ==> s[..|prefix|][0] == prefix[0];
  }

  /** A prefix of `s + t` lies inside `s`, or reaches the first character of `t`. */
  lemma {:induction false} StartsInside(s: string, t: string, prefix: string)
    ensures StartsWith(s + t, prefix) && |prefix| <= |s| ==> StartsWith(s, prefix)
    ensures StartsWith(s + t, prefix) && |s| < |prefix| ==> t != [] && t[0] == prefix[|s|]
  {
    var u := s + t;
    assert |prefix| <= |s| ==> u[..|prefix|] == s[..|prefix|];
    assert |s| < |prefix| <= |u| ==> u[..|prefix|][|s|] == u[|s|] == t[0];
  }
}
