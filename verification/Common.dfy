/** Small vocabulary shared by the other modules. */
module Common {

  /** A value that may be absent: a null pointer, a free lock, an unset field. */
  datatype Option<+T> = None | Some(value: T)

  /** No element occurs twice. */
  ghost predicate Distinct<T>(s: seq<T>) {
    forall i, j :: 0 <= i < j < |s| ==> s[i] != s[j]
  }

  ghost predicate StrictlyIncreasing(s: seq<int>) {
    forall i, j :: 0 <= i < j < |s| ==> s[i] < s[j]
  }

  /** A sequence without repetition is no longer than a set that holds its elements. */
  lemma {:induction false} DistinctFits<T>(s: seq<T>, all: set<T>)
    requires Distinct(s)
    requires forall i :: 0 <= i < |s| ==> s[i] in all
    ensures |s| <= |all|
  {
    if s == [] {
    } else {
      var rest := s[1..];
      forall i | 0 <= i < |rest| ensures rest[i] in all - {s[0]} {
        assert rest[i] == s[i + 1];
      }
      DistinctFits(rest, all - {s[0]});
    }
  }

  function UpTo(n: nat): (r: set<nat>)
    ensures |r| == n
    ensures forall k: nat :: k in r <==> k < n
  {
    if n == 0 then {} else UpTo(n - 1) + {n - 1}
  }

  lemma DistinctBelow(s: seq<nat>, n: nat)
    requires Distinct(s)
    requires forall i :: 0 <= i < |s| ==> s[i] < n
    ensures |s| <= n
  {
    DistinctFits(s, UpTo(n));
  }

  /** The C library's isspace. */
  predicate IsSpace(c: char) {
    c == ' ' || 9 as char <= c <= 13 as char
  }
}
