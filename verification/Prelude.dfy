/** Small shared vocabulary: optional values, results and the tail of a sequence. */
module Prelude {
  datatype Option<+T> = None | Some(value: T)

  datatype Result<+T, +E> = Ok(value: T) | Err(error: E)

  function MaxReal(a: real, b: real): real {
    if a < b then b else a
  }

  function MinReal(a: real, b: real): real {
    if b < a then b else a
  }

  function MaxInt(a: int, b: int): int {
    if a < b then b else a
  }

  function AbsInt(a: int): nat {
    if a < 0 then -a else a
  }

  function Last<T>(s: seq<T>): T
    requires s != []
  {
    s[|s| - 1]
  }

  function Init<T>(s: seq<T>): seq<T>
    requires s != []
  {
    s[..|s| - 1]
  }

  predicate Distinct<T(==)>(s: seq<T>) {
    forall i, j :: 0 <= i < j < |s| ==> s[i] != s[j]
  }

  /** The contents of a `deque(maxlen=n)` after the elements of `s` were appended in order. */
  function LastN<T>(n: nat, s: seq<T>): (r: seq<T>)
    ensures |r| <= n
  {
    if |s| <= n then s else s[|s| - n..]
  }

  /** What is kept is the end of the sequence, as much of it as fits. */
  lemma LastNExactly<T>(n: nat, s: seq<T>)
    ensures |LastN(n, s)| == if |s| < n then |s| else n
    ensures forall i :: 0 <= i < |LastN(n, s)| ==> LastN(n, s)[i] == s[|s| - |LastN(n, s)| + i]
  {
  }

  /** Trimming after every append leaves what trimming once at the end leaves. */
  lemma LastNOfAppend<T>(n: nat, a: seq<T>, b: seq<T>)
    ensures LastN(n, LastN(n, a) + b) == LastN(n, a + b)
  {
  }
}
