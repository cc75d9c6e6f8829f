/** Failure-carrying values shared by every module of the model. */
module Wrappers {

  /** A value that may be absent: a missing map key, an unparseable number. */
  datatype Option<+T> = None | Some(value: T)

  /** The C++ `absl::StatusOr<T>` and the Python "value or exception" shape. */
  datatype Result<+T, +E> = Ok(value: T) | Err(error: E)
}

/** The absl status codes the core returns, and an error carrying one with its message. */
module Status {

  datatype Code = InvalidArgument | NotFound | OutOfRange | DataLoss | Unimplemented

  datatype Error = Error(code: Code, message: string)
}

/** Small facts about sequences the proofs lean on. */
module Seqs {

  /** Concatenation regroups freely; stated once so that proofs need not rebuild long sequences. */
  lemma AppendAssoc<T>(a: seq<T>, b: seq<T>, c: seq<T>)
    ensures (a + b) + c == a + (b + c)
  {
  }

  /** Non-increasing by `key`. */
  predicate Descending<T>(s: seq<T>, key: T -> int) {
    forall i, j :: 0 <= i < j < |s| ==> key(s[i]) >= key(s[j])
  }

  /** Put `e` into the descending `s`, after every element whose key is at least its key. */
  function InsertDescending<T(==)>(e: T, s: seq<T>, key: T -> int): (r: seq<T>)
    requires Descending(s, key)
    ensures multiset(r) == multiset(s) + multiset{e}
    ensures Descending(r, key)
    ensures |r| > 0 && (r[0] == e || (s != [] && r[0] == s[0]))
    decreases |s|
  {
    if s == [] then [e]
    else if key(s[0]) >= key(e) then
      var rest := InsertDescending(e, s[1..], key);
      assert s == [s[0]] + s[1..];
      DescendingCons(s[0], rest, key);
      assert multiset([s[0]] + rest) == multiset{s[0]} + multiset(rest);
      [s[0]] + rest
    else
      DescendingCons(e, s, key);
      [e] + s
  }

  lemma DescendingCons<T>(x: T, s: seq<T>, key: T -> int)
    requires Descending(s, key) && (s != [] ==> key(x) >= key(s[0]))
    ensures Descending([x] + s, key)
  {
    var r := [x] + s;
    forall i, j | 0 <= i < j < |r| ensures key(r[i]) >= key(r[j]) {
      if i == 0 {
        assert r[j] == s[j - 1];
      } else {
        assert r[i] == s[i - 1] && r[j] == s[j - 1];
      }
    }
  }

  /** Insertion sort into non-increasing order of `key`: a permutation of `s`. */
  function SortDescending<T(==)>(s: seq<T>, key: T -> int): (r: seq<T>)
    ensures multiset(r) == multiset(s)
    ensures Descending(r, key)
    decreases |s|
  {
    if s == [] then []
    else
      assert s == [s[0]] + s[1..];
      InsertDescending(s[0], SortDescending(s[1..], key), key)
  }
}
