/** Optional values: `None` stands for JavaScript's `null` and `undefined`. */
module Wrappers {
  datatype Option<+T> = None | Some(value: T)

  /** JavaScript truthiness of a `string | null | undefined`: present and not empty. */
  predicate Truthy(s: Option<string>)
  {
    s.Some? && s.value != ""
  }

  /** The string held by `o`, or the empty string when there is none (`o || ''`). */
  function OrEmpty(o: Option<string>): string
  {
    match o
    case Some(s) => s
    case None => ""
  }
}

/** Order-preserving sublists, the result shape of every `Array.prototype.filter` in the model. */
module Sequences {
  /** `a` is obtained from `b` by deleting elements, keeping the rest in order. */
  ghost predicate IsSubsequence<T>(a: seq<T>, b: seq<T>)
    decreases |b|
  {
    if a == [] then true
    else if b == [] then false
    else (a[0] == b[0] && IsSubsequence(a[1..], b[1..])) || IsSubsequence(a, b[1..])
  }

  /** Every sequence is a subsequence of itself. */
  lemma {:induction false} SubsequenceReflexive<T>(s: seq<T>)
    ensures IsSubsequence(s, s)
    decreases |s|
  {
    if s != [] {
      SubsequenceReflexive(s[1..]);
    }
  }
}
