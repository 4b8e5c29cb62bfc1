/** What the controllers rely on from the Kubernetes API server: an object with a
    resourceVersion, writes that succeed only on the latest version, and reads that may
    return an older one. */
module Versioned {

  datatype Option<+T> = None | Some(value: T)

  /** How one API call or Kubernetes write ends. A call that is `Lost` took effect but
      reported an error to its caller (a timeout after the server acted). */
  datatype Outcome = Ok | Fail | Lost

  /** The object at resourceVersion `rv`, and every version ever persisted. */
  datatype Store<T> = Store(rv: nat, latest: T, history: set<T>)

  /** Persisting `next`. The API server makes no new version for an unchanged object. */
  function Persist<T(==)>(st: Store<T>, next: T): Store<T> {
    if next == st.latest then st else Store(st.rv + 1, next, st.history + {next})
  }

  /** A read returns the latest version, or a cached earlier one with its older number. */
  predicate CanRead<T(==)>(st: Store<T>, seen: T, at: nat) {
    seen in st.history && (if seen == st.latest then at <= st.rv else at < st.rv)
  }

  /** A step taken `steps` times. */
  function Repeat<S>(next: S -> S, s: S, steps: nat): S
    decreases steps
  {
    if steps == 0 then s else Repeat(next, next(s), steps - 1)
  }

  lemma {:induction false} RepeatAdds<S>(next: S -> S, s: S, m: nat, n: nat)
    ensures Repeat(next, Repeat(next, s, m), n) == Repeat(next, s, m + n)
    decreases m
  {
    if m > 0 {
      RepeatAdds(next, next(s), m - 1, n);
    }
  }
}
