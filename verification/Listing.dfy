/** ORDER BY, LIMIT and OFFSET. */
module Listing {
  import opened Prelude

  /** `a` comes no later than `b` under ORDER BY rank DESC, id. */
  predicate Before(rank: map<int, int>, a: int, b: int)
    requires a in rank && b in rank
  {
    rank[a] > rank[b] || (rank[a] == rank[b] && a <= b)
  }

  predicate IsFirst(rank: map<int, int>, k: int) {
    k in rank && forall x | x in rank :: Before(rank, k, x)
  }

  lemma {:induction false} FirstExists(rank: map<int, int>)
    requires rank != map[]
    ensures exists k :: IsFirst(rank, k)
    decreases |rank|
  {
    if forall k :: k !in rank { assert false; }
    var k :| k in rank;
    var rest := rank - {k};
    assert rest.Keys == rank.Keys - {k};
    assert |rest| == |rest.Keys| < |rank.Keys| == |rank|;
    if rest == map[] {
      assert rest.Keys == {};
      assert IsFirst(rank, k);
    } else {
      FirstExists(rest);
      var m :| IsFirst(rest, m);
      var best := if Before(rank, m, k) then m else k;
      forall x | x in rank ensures Before(rank, best, x) {
        assert x == k || (x in rest && Before(rest, m, x));
      }
      assert IsFirst(rank, best);
    }
  }

  /** All ids of `rank`, highest rank first and by id within a rank. */
  ghost function Ordered(rank: map<int, int>): (s: seq<int>)
    ensures |s| == |rank|
    ensures forall k :: k in s <==> k in rank
    decreases |rank|
  {
    if rank == map[] then []
    else
      FirstExists(rank);
      var k :| IsFirst(rank, k);
      assert (rank - {k}).Keys == rank.Keys - {k};
      assert |rank - {k}| == |(rank - {k}).Keys| < |rank.Keys| == |rank|;
      [k] + Ordered(rank - {k})
  }

  lemma FirstUnique(rank: map<int, int>, a: int, b: int)
    requires IsFirst(rank, a) && IsFirst(rank, b)
    ensures a == b
  {
    assert Before(rank, a, b) && Before(rank, b, a);
  }

  lemma OrderedFrom(rank: map<int, int>, k: int)
    requires IsFirst(rank, k)
    ensures Ordered(rank) == [k] + Ordered(rank - {k})
    ensures |rank - {k}| < |rank|
  {
    assert k in rank;
    hide IsFirst;
    FirstExists(rank);
    var first :| IsFirst(rank, first) && Ordered(rank) == [first] + Ordered(rank - {first});
    FirstUnique(rank, k, first);
    assert (rank - {k}).Keys == rank.Keys - {k};
    assert |rank - {k}| == |(rank - {k}).Keys| < |rank.Keys| == |rank|;
  }

  predicate Sorted(rank: map<int, int>, s: seq<int>) {
    forall i, j | 0 <= i < j < |s| ::
      s[i] in rank && s[j] in rank && s[i] != s[j] && Before(rank, s[i], s[j])
  }

  /** The first id before the sorted rest. */
  lemma HeadFirst(rank: map<int, int>, k: int, rest: seq<int>)
    requires IsFirst(rank, k) && Sorted(rank - {k}, rest) && forall x | x in rest :: x in rank - {k}
    ensures Sorted(rank, [k] + rest)
  {
    var s := [k] + rest;
    forall i, j | 0 <= i < j < |s|
      ensures s[i] in rank && s[j] in rank && s[i] != s[j] && Before(rank, s[i], s[j])
    {
      assert s[j] == rest[j - 1] && s[j] in rank - {k};
      if i > 0 {
        assert s[i] == rest[i - 1] && s[i] in rank - {k};
      }
    }
  }

  /** The order of the result is the one asked for, and no id repeats. */
  lemma {:induction false} OrderedIsSorted(rank: map<int, int>)
    ensures Sorted(rank, Ordered(rank))
    decreases |rank|
  {
    if rank == map[] {
      OrderedNone();
    } else {
      FirstExists(rank);
      var k :| IsFirst(rank, k);
      OrderedFrom(rank, k);
      hide IsFirst, Sorted;
      OrderedIsSorted(rank - {k});
      HeadFirst(rank, k, Ordered(rank - {k}));
    }
  }

  /** The OFFSET of a page, computed in 32-bit arithmetic. */
  function Offset(page: int, size: int): int32 {
    Wrap32((page - 1) * size)
  }

  /** LIMIT size OFFSET (page - 1) * size; the database refuses a negative limit or offset and no rows come back. */
  function Page<T>(s: seq<T>, page: int, size: int): (r: seq<T>)
    ensures size >= 0 ==> |r| <= size
    ensures forall i | 0 <= i < |r| :: r[i] in s
  {
    var offset := Offset(page, size);
    if size < 0 || offset < 0 || offset >= |s| then [] else s[offset..Min(offset + size, |s|)]
  }

  /** Pages 1 to n, one after another. */
  function Pages<T>(s: seq<T>, n: nat, size: int): seq<T> {
    if n == 0 then [] else Pages(s, n - 1, size) + Page(s, n, size)
  }

  /** As long as the offsets fit 32 bits, n pages read the first n * size rows, each once and in order. */
  lemma {:induction false} PagesArePrefix<T>(s: seq<T>, n: nat, size: int)
    requires size >= 1 && n > 0 ==> (n - 1) * size <= INT32_MAX
    requires size >= 1
    ensures n * size >= 0
    ensures Pages(s, n, size) == s[..Min(n * size, |s|)]
  {
    if n > 0 {
      assert n * size == (n - 1) * size + size;
      if n > 1 { assert (n - 2) * size <= (n - 1) * size; }
      PagesArePrefix(s, n - 1, size);
    }
  }

  lemma OrderedNone()
    ensures Ordered(map[]) == []
  {
  }

  method First(rank: map<int, int>) returns (k: int)
    requires rank != map[]
    ensures IsFirst(rank, k)
  {
    FirstExists(rank);
    k :| k in rank && IsFirst(rank, k);
  }

  /** SELECT ids ORDER BY rank DESC, id: a selection loop. */
  method OrderBy(rank: map<int, int>) returns (s: seq<int>)
    ensures s == Ordered(rank)
  {
    OrderedNone();
    hide Ordered, IsFirst;
    s := [];
    var left := rank;
    while left != map[]
      invariant s + Ordered(left) == Ordered(rank)
      decreases |left|
    {
      var k := First(left);
      OrderedFrom(left, k);
      s := s + [k];
      left := left - {k};
    }
  }
}
