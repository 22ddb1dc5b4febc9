/** Small shared vocabulary: optional values, results, and permutations of sequences. */
module Common {

  datatype Option<+T> = None | Some(value: T) {
    function GetOr(default: T): T {
      match this
      case Some(v) => v
      case None => default
    }
  }

  datatype Result<+T, +E> = Ok(value: T) | Err(error: E)

  function Min(a: int, b: int): int {
    if a < b then a else b
  }

  ghost predicate IsPermutation<T>(a: seq<T>, b: seq<T>) {
    multiset(a) == multiset(b)
  }

  function RemoveAt<T>(s: seq<T>, i: nat): seq<T>
    requires i < |s|
  {
    s[..i] + s[i + 1..]
  }

  /** The head of one arrangement stands somewhere in the other; taking it out of both leaves arrangements
      of the same elements.  Every induction over a permutation in this project goes through this step. */
  lemma SplitPermutation<T>(a: seq<T>, b: seq<T>) returns (i: nat)
    requires a != [] && IsPermutation(a, b)
    ensures i < |b| && b[i] == a[0]
    ensures IsPermutation(a[1..], RemoveAt(b, i))
    ensures |RemoveAt(b, i)| == |a| - 1
  {
    assert a[0] in multiset(b);
    i :| 0 <= i < |b| && b[i] == a[0];
    assert b == b[..i] + [b[i]] + b[i + 1..];
    assert a == [a[0]] + a[1..];
    calc {
      multiset(a[1..]);
      multiset(a) - multiset{a[0]};
      multiset(b[..i] + [b[i]] + b[i + 1..]) - multiset{b[i]};
      multiset(RemoveAt(b, i));
    }
    assert |multiset(a)| == |a| && |multiset(b)| == |b|;
  }

  lemma TailPermutation<T>(a: seq<T>, b: seq<T>)
    requires a != [] && b != [] && a[0] == b[0] && IsPermutation(a, b)
    ensures IsPermutation(a[1..], b[1..])
  {
    assert a == [a[0]] + a[1..] && b == [b[0]] + b[1..];
    calc {
      multiset(a[1..]);
      multiset([a[0]] + a[1..]) - multiset{a[0]};
      multiset([b[0]] + b[1..]) - multiset{b[0]};
      multiset(b[1..]);
    }
  }

  lemma MultisetInsert<T>(s: seq<T>, k: nat, x: T)
    requires k <= |s|
    ensures multiset(s[..k] + [x] + s[k..]) == multiset(s) + multiset{x}
  {
    assert s == s[..k] + s[k..];
    assert multiset(s) == multiset(s[..k]) + multiset(s[k..]);
  }

  lemma MultisetSnoc<T>(s: seq<T>)
    requires s != []
    ensures multiset(s) == multiset(s[..|s| - 1]) + multiset{s[|s| - 1]}
  {
    assert s == s[..|s| - 1] + [s[|s| - 1]];
  }

  /** The converse of SplitPermutation: putting the same element back keeps a permutation. */
  lemma JoinPermutation<T>(a: seq<T>, b: seq<T>, i: nat)
    requires a != [] && i < |b| && b[i] == a[0] && IsPermutation(a[1..], RemoveAt(b, i))
    ensures IsPermutation(a, b)
  {
    assert a == [a[0]] + a[1..];
    MultisetInsert(RemoveAt(b, i), i, b[i]);
    assert b == RemoveAt(b, i)[..i] + [b[i]] + RemoveAt(b, i)[i..];
  }
}
