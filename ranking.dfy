/**
 * The ranking step of `main` (main.go): `sort.Slice` reorders the collected
 * records in place so that `Ping` never decreases. For slices of at most
 * twelve elements Go's pattern-defeating quicksort (Go 1.19 and later) runs
 * the insertion sort
 * modelled here; the lemma `PingsDetermined` shows that every correct sort
 * leaves the same latencies in the same places.
 */
module Ranking {
  import opened Selection

  /** Latencies never decrease along `s`. */
  predicate SortedByPing(s: seq<SNIResult>) {
    forall i, j :: 0 <= i < j < |s| ==> s[i].ping <= s[j].ping
  }

  /**
   * Sorts `a` by ascending ping with Go's `insertionSort_func` and the
   * comparator `a[i].Ping < a[j].Ping`: the records after the first are
   * moved, one at a time, into place among the sorted records before them.
   */
  method SortByPing(a: array<SNIResult>)
    modifies a
    ensures SortedByPing(a[..])
    ensures multiset(a[..]) == multiset(old(a[..]))
  {
    var i := 1;
    while i < a.Length
      invariant 1 <= i
      invariant forall p, q :: 0 <= p < q < i && q < a.Length ==> a[p].ping <= a[q].ping
      invariant multiset(a[..]) == multiset(old(a[..]))
      decreases a.Length - i
    {
      InsertLeft(a, i);
      i := i + 1;
    }
  }

  /**
   * The inner loop of the insertion sort: `a[i]` is swapped leftwards while it
   * is strictly faster than its left neighbour, which extends the sorted
   * prefix by one record; the prefix is only rearranged and the records after
   * position `i` are not touched.
   */
  method InsertLeft(a: array<SNIResult>, i: nat)
    requires i < a.Length
    requires forall p, q :: 0 <= p < q < i ==> a[p].ping <= a[q].ping
    modifies a
    ensures forall p, q :: 0 <= p < q <= i ==> a[p].ping <= a[q].ping
    ensures multiset(a[..]) == multiset(old(a[..]))
    ensures forall k :: i < k < a.Length ==> a[k] == old(a[k])
    ensures multiset(a[..i + 1]) == multiset(old(a[..i + 1]))
  {
    var j := i;
    while j > 0 && a[j].ping < a[j - 1].ping
      invariant 0 <= j <= i
      invariant forall p, q :: 0 <= p < q <= i && p != j && q != j ==> a[p].ping <= a[q].ping
      invariant forall q :: j < q <= i ==> a[j].ping <= a[q].ping
      invariant multiset(a[..]) == multiset(old(a[..]))
      invariant forall k :: i < k < a.Length ==> a[k] == old(a[k])
    {
      SwapWithLeft(a, j);
      j := j - 1;
    }
    PrefixPermuted(a[..], old(a[..]), i + 1);
  }

  /**
   * Two permutations of each other that agree after position `n` are
   * permutations of each other up to `n`.
   */
  lemma PrefixPermuted(s: seq<SNIResult>, t: seq<SNIResult>, n: nat)
    requires multiset(s) == multiset(t)
    requires n <= |s| == |t|
    requires forall k :: n <= k < |s| ==> s[k] == t[k]
    ensures multiset(s[..n]) == multiset(t[..n])
  {
    assert s[n..] == t[n..];
    assert s == s[..n] + s[n..] && t == t[..n] + t[n..];
    MultisetCancel(multiset(s[..n]), multiset(t[..n]), multiset(s[n..]));
  }

  /** `data.Swap(j, j-1)`: exchanges a record with its left neighbour. */
  method SwapWithLeft(a: array<SNIResult>, j: nat)
    requires 0 < j < a.Length
    modifies a
    ensures a[j] == old(a[j - 1]) && a[j - 1] == old(a[j])
    ensures forall k :: 0 <= k < a.Length && k != j && k != j - 1 ==> a[k] == old(a[k])
    ensures multiset(a[..]) == multiset(old(a[..]))
  {
    a[j], a[j - 1] := a[j - 1], a[j];
  }

  /** The latency column of a list of records. */
  function Pings(s: seq<SNIResult>): (r: seq<int>)
    ensures |r| == |s| && forall k :: 0 <= k < |s| ==> r[k] == s[k].ping
  {
    seq(|s|, k requires 0 <= k < |s| => s[k].ping)
  }

  lemma MultisetCancel<T>(a: multiset<T>, b: multiset<T>, m: multiset<T>)
    requires a + m == b + m
    ensures a == b
  {
    forall v ensures a[v] == b[v] {
      assert (a + m)[v] == a[v] + m[v] && (b + m)[v] == b[v] + m[v];
    }
  }

  lemma PingsAppend(a: seq<SNIResult>, b: seq<SNIResult>)
    ensures Pings(a + b) == Pings(a) + Pings(b)
  {
  }

  /** The pings of a non-empty list are its first ping followed by the rest. */
  lemma PingsCons(s: seq<SNIResult>)
    requires s != []
    ensures multiset(Pings(s)) == multiset(Pings(s[1..])) + multiset{s[0].ping}
  {
    var p, q := Pings(s), Pings(s[1..]);
    assert p == [s[0].ping] + q;
    assert multiset(p) == multiset([s[0].ping]) + multiset(q);
  }

  /** Taking the record at position `j` out of `t` takes its ping out of the pings. */
  lemma PingsRemove(t: seq<SNIResult>, j: nat)
    requires j < |t|
    ensures multiset(Pings(t)) == multiset(Pings(t[..j] + t[j + 1..])) + multiset{t[j].ping}
  {
    var a, b := Pings(t[..j]), Pings(t[j + 1..]);
    assert Pings(t) == a + [t[j].ping] + b by {
      PingsAppend(t[..j], [t[j]] + t[j + 1..]);
      PingsAppend([t[j]], t[j + 1..]);
      assert t[..j] + ([t[j]] + t[j + 1..]) == t;
    }
    PingsAppend(t[..j], t[j + 1..]);
    assert multiset(a + [t[j].ping] + b) == multiset(a) + multiset([t[j].ping]) + multiset(b);
  }

  /** Removing the same record from two permutations of each other leaves permutations. */
  lemma RemoveMatching(s: seq<SNIResult>, t: seq<SNIResult>, j: nat)
    requires multiset(s) == multiset(t)
    requires s != [] && j < |t| && t[j] == s[0]
    ensures multiset(s[1..]) == multiset(t[..j] + t[j + 1..])
  {
    var x := s[0];
    var t' := t[..j] + t[j + 1..];
    assert s == [x] + s[1..];
    assert t == t[..j] + [x] + t[j + 1..];
    assert multiset(t) == multiset(t') + multiset([x]);
    assert multiset(s) == multiset(s[1..]) + multiset([x]);
    MultisetCancel(multiset(s[1..]), multiset(t'), multiset([x]));
  }

  /** The first record of `s` occurs in any permutation `t` of `s`. */
  lemma FindMatch(s: seq<SNIResult>, t: seq<SNIResult>) returns (j: nat)
    requires multiset(s) == multiset(t) && s != []
    ensures j < |t| && t[j] == s[0]
  {
    assert s[0] in t by {
      assert s[0] in multiset(t);
    }
    j :| 0 <= j < |t| && t[j] == s[0];
  }

  lemma {:induction false} PingsOfPermutation(s: seq<SNIResult>, t: seq<SNIResult>)
    requires multiset(s) == multiset(t)
    ensures multiset(Pings(s)) == multiset(Pings(t))
    decreases |s|
  {
    if s == [] {
      assert |t| == |multiset(t)| == 0;
    } else {
      var j := FindMatch(s, t);
      var s', t' := s[1..], t[..j] + t[j + 1..];
      var x := s[0].ping;
      assert multiset(Pings(s')) == multiset(Pings(t')) by {
        RemoveMatching(s, t, j);
        PingsOfPermutation(s', t');
      }
      assert multiset(Pings(s)) == multiset(Pings(s')) + multiset{x} by {
        PingsCons(s);
      }
      assert multiset(Pings(t)) == multiset(Pings(t')) + multiset{x} by {
        PingsRemove(t, j);
      }
    }
  }

  lemma {:induction false} SortedIntsUnique(s: seq<int>, t: seq<int>)
    requires forall i, j :: 0 <= i < j < |s| ==> s[i] <= s[j]
    requires forall i, j :: 0 <= i < j < |t| ==> t[i] <= t[j]
    requires multiset(s) == multiset(t)
    ensures s == t
    decreases |s|
  {
    if s == [] {
      assert |t| == |multiset(t)| == 0;
    } else {
      assert |t| == |multiset(t)| == |s|;
      assert s[0] == t[0] by {
        assert s[0] in multiset(t) && t[0] in multiset(s);
      }
      assert multiset(s[1..]) == multiset(t[1..]) by {
        assert s == [s[0]] + s[1..] && t == [t[0]] + t[1..];
        assert multiset(s) == multiset(s[1..]) + multiset([s[0]]);
        assert multiset(t) == multiset(t[1..]) + multiset([s[0]]);
        MultisetCancel(multiset(s[1..]), multiset(t[1..]), multiset([s[0]]));
      }
      SortedIntsUnique(s[1..], t[1..]);
      assert s == [s[0]] + s[1..] && t == [t[0]] + t[1..];
    }
  }

  /**
   * Any two orderings of the same records that are both sorted by ping agree
   * on the ping at every position; they can differ only in the order of
   * records with equal pings.
   */
  lemma PingsDetermined(s: seq<SNIResult>, t: seq<SNIResult>)
    requires SortedByPing(s) && SortedByPing(t)
    requires multiset(s) == multiset(t)
    ensures Pings(s) == Pings(t)
  {
    PingsOfPermutation(s, t);
    SortedIntsUnique(Pings(s), Pings(t));
  }
}
