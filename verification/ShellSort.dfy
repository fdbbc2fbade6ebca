/** The Shell sort with which rw_scattered orders its buffer queue by block number. */
module ShellSort {
  import opened Lists

  ghost predicate SortedBy(key: seq<nat>, q: seq<nat>, n: nat)
    requires n <= |q| && forall k :: 0 <= k < n ==> q[k] < |key|
  {
    forall i, j :: 0 <= i < j < n ==> key[q[i]] <= key[q[j]]
  }

  ghost predicate Indexes(q: seq<nat>, key: seq<nat>) {
    forall k :: 0 <= k < |q| ==> q[k] < |key|
  }

  /** Sorted up to j except that the element at position h may be too small for its place. */
  ghost predicate SortedExcept(key: seq<nat>, q: seq<nat>, j: nat, h: int)
    requires j < |q| && Indexes(q, key)
  {
    && (forall a, b :: 0 <= a < b <= j && b != h ==> key[q[a]] <= key[q[b]])
    && (forall a :: h < a <= j && 0 <= h ==> key[q[h]] <= key[q[a]])
  }

  lemma SwapPermutes(s: seq<nat>, t: seq<nat>, i: nat, j: nat)
    requires i < j < |s| && t == s[i := s[j]][j := s[i]]
    ensures multiset(t) == multiset(s)
  {
    assert multiset(s[i := s[j]]) == multiset(s) - multiset{s[i]} + multiset{s[j]};
  }

  lemma PermutedDistinct(s: seq<nat>, t: seq<nat>)
    requires multiset(s) == multiset(t) && Distinct(s)
    ensures Distinct(t) && |s| == |t| && forall x :: x in s <==> x in t
  {
    assert |multiset(s)| == |s| && |multiset(t)| == |t|;
    assert forall x :: x in s <==> x in multiset(s);
    forall i, j | 0 <= i < j < |t| ensures t[i] != t[j] {
      if t[i] == t[j] {
        var x := t[i];
        Twice(t, i, j);
        assert x in multiset(s);
        Once(s, x);
      }
    }
  }

  lemma Twice(t: seq<nat>, i: nat, j: nat)
    requires i < j < |t| && t[i] == t[j]
    ensures multiset(t)[t[i]] >= 2
  {
    assert t == t[..j] + [t[j]] + t[j + 1..];
    assert multiset(t) == multiset(t[..j]) + multiset{t[j]} + multiset(t[j + 1..]);
    assert t[i] in t[..j];
  }

  lemma Once(s: seq<nat>, x: nat)
    requires Distinct(s) && x in s
    ensures multiset(s)[x] == 1
  {
    var i :| 0 <= i < |s| && s[i] == x;
    assert s == s[..i] + [x] + s[i + 1..];
    assert multiset(s) == multiset(s[..i]) + multiset{x} + multiset(s[i + 1..]);
    assert x !in s[..i] && x !in s[i + 1..];
  }

  lemma ExchangeOk(s: seq<nat>, t: seq<nat>, j: nat, i: nat, gap: nat, key: seq<nat>)
    requires gap >= 1 && i + gap <= j < |s| && Indexes(s, key) && key[s[i]] > key[s[i + gap]]
    requires t == s[i := s[i + gap]][i + gap := s[i]]
    ensures multiset(t) == multiset(s) && Indexes(t, key)
    ensures gap == 1 && SortedExcept(key, s, j, i + 1) ==> SortedExcept(key, t, j, i)
  {
    SwapPermutes(s, t, i, i + gap);
  }

  method Exchange(q: array<nat>, j: nat, i: nat, gap: nat, key: seq<nat>)
    requires gap >= 1 && i + gap <= j < q.Length && Indexes(q[..], key) && key[q[i]] > key[q[i + gap]]
    modifies q
    ensures multiset(q[..]) == multiset(old(q[..])) && Indexes(q[..], key)
    ensures gap == 1 && SortedExcept(key, old(q[..]), j, i + 1) ==> SortedExcept(key, q[..], j, i)
  {
    ghost var s := q[..];
    q[i], q[i + gap] := q[i + gap], q[i];
    assert q[..] == s[i := s[i + gap]][i + gap := s[i]];
    ExchangeOk(s, q[..], j, i, gap, key);
  }

  /** The insertion of element j into its gap chain. */
  method Insert(q: array<nat>, j: nat, gap: nat, key: seq<nat>)
    requires gap >= 1 && gap <= j < q.Length && Indexes(q[..], key)
    requires gap == 1 ==> SortedBy(key, q[..], j)
    modifies q
    ensures multiset(q[..]) == multiset(old(q[..])) && Indexes(q[..], key)
    ensures gap == 1 ==> SortedBy(key, q[..], j + 1)
  {
    var i: int := j - gap;
    while i >= 0 && key[q[i]] > key[q[i + gap]]
      invariant 0 <= i + gap <= j
      invariant multiset(q[..]) == multiset(old(q[..])) && Indexes(q[..], key)
      invariant gap == 1 ==> SortedExcept(key, q[..], j, i + 1)
      decreases i + gap
    {
      Exchange(q, j, i, gap, key);
      i := i - gap;
    }
  }

  /** One pass of the sort at a fixed gap. */
  method Pass(q: array<nat>, gap: nat, key: seq<nat>)
    requires gap >= 1 && Indexes(q[..], key)
    modifies q
    ensures multiset(q[..]) == multiset(old(q[..])) && Indexes(q[..], key)
    ensures gap == 1 ==> SortedBy(key, q[..], q.Length)
  {
    var j := gap;
    while j < q.Length
      invariant gap <= j
      invariant multiset(q[..]) == multiset(old(q[..])) && Indexes(q[..], key)
      invariant gap == 1 && j <= q.Length ==> SortedBy(key, q[..], j)
      invariant gap == 1 ==> j <= q.Length || q.Length == 0
    {
      Insert(q, j, gap, key);
      j := j + 1;
    }
  }

  /** The gaps 1, 4, 13, 40, ... that the sort steps through. */
  ghost predicate IsGap(gap: nat)
  {
    gap == 1 || (gap >= 4 && (gap - 1) % 3 == 0 && IsGap((gap - 1) / 3))
  }

  /** The queue ends sorted by block number and holds the same buffers. */
  method Sort(q: array<nat>, key: seq<nat>)
    requires Indexes(q[..], key)
    modifies q
    ensures multiset(q[..]) == multiset(old(q[..])) && Indexes(q[..], key)
    ensures SortedBy(key, q[..], q.Length)
  {
    var gap := 4;
    while gap <= q.Length
      invariant gap >= 4 && IsGap(gap)
    {
      gap := 3 * gap + 1;
    }
    while gap != 1
      invariant gap >= 1 && IsGap(gap)
      invariant multiset(q[..]) == multiset(old(q[..])) && Indexes(q[..], key)
      invariant gap == 1 ==> SortedBy(key, q[..], q.Length)
      decreases gap
    {
      gap := gap / 3;
      Pass(q, gap, key);
    }
  }
}
