/** Sequence operations standing in for JavaScript array built-ins: `filter`, the sorted distinct list
    `Array.from(new Set(xs)).sort()` produces, the in-place `array.sort((a, b) => key(b) - key(a))`
    and `[...xs].sort(...).slice(0, k)`. */
module Sequences {
  ghost predicate StrictlyIncreasing(u: seq<int>) {
    forall i, j :: 0 <= i < j < |u| ==> u[i] < u[j]
  }

  /** Inserts x into a strictly increasing list, keeping one copy of each value. */
  function InsertDistinct(u: seq<int>, x: int): (r: seq<int>)
    requires StrictlyIncreasing(u)
    ensures StrictlyIncreasing(r)
    ensures forall k :: k in r <==> k in u || k == x
    ensures |r| == if x in u then |u| else |u| + 1
  {
    if u == [] then [x]
    else if x < u[0] then [x] + u
    else if x == u[0] then u
    else
      var t := InsertDistinct(u[1..], x);
      assert forall k :: k in u[1..] ==> u[0] < k;
      assert x in u <==> x in u[1..];
      assert forall j :: 0 <= j < |t| ==> u[0] < t[j] by {
        assert forall j :: 0 <= j < |t| ==> t[j] in t;
      }
      [u[0]] + t
  }

  /** `Array.from(new Set(xs)).sort()`: the distinct values of xs in increasing order. */
  function UniqueSorted(xs: seq<int>): (u: seq<int>)
    ensures StrictlyIncreasing(u)
    ensures forall k :: k in u <==> k in xs
  {
    if xs == [] then []
    else
      var init := xs[..|xs| - 1];
      assert xs == init + [xs[|xs| - 1]];
      InsertDistinct(UniqueSorted(init), xs[|xs| - 1])
  }

  /** Two lists with the same members are both empty or both not. */
  lemma SameMembersBothEmpty<T>(a: seq<T>, b: seq<T>)
    requires forall d :: d in a <==> d in b
    ensures a == [] <==> b == []
  {
    if a != [] {
      var x := a[0];
      assert x in a;
      assert x in b;
    }
    if b != [] {
      var x := b[0];
      assert x in b;
      assert x in a;
    }
  }

  /** A strictly increasing list is fixed by the set of its values. */
  lemma {:induction false} StrictlyIncreasingUnique(u: seq<int>, v: seq<int>)
    requires StrictlyIncreasing(u) && StrictlyIncreasing(v)
    requires forall k :: k in u <==> k in v
    ensures u == v
  {
    SameMembersBothEmpty(u, v);
    if u != [] {
      assert u[0] == v[0] by {
        assert u[0] in v && v[0] in u;
      }
      forall k | k in u[1..] ensures k in v[1..] {
        assert k in v && k != v[0];
      }
      forall k | k in v[1..] ensures k in u[1..] {
        assert k in u && k != u[0];
      }
      StrictlyIncreasingUnique(u[1..], v[1..]);
      assert u == [u[0]] + u[1..] && v == [v[0]] + v[1..];
    }
  }

  /** The last element of a nonempty strictly increasing list is its largest. */
  lemma StrictlyIncreasingMax(u: seq<int>)
    requires StrictlyIncreasing(u) && u != []
    ensures forall d :: d in u ==> d <= u[|u| - 1]
  {
  }

  /** The length of a duplicate-free list is the number of values it holds. */
  lemma {:induction false} StrictlyIncreasingCard(u: seq<int>)
    requires StrictlyIncreasing(u)
    ensures |set k | k in u| == |u|
  {
    if u != [] {
      var t := u[1..];
      StrictlyIncreasingCard(t);
      assert (set k | k in u) == (set k | k in t) + {u[0]};
      assert u[0] !in t;
    }
  }

  /** The number of distinct values of xs is the length of UniqueSorted(xs). */
  lemma UniqueSortedLength(xs: seq<int>)
    ensures |UniqueSorted(xs)| == |set k | k in xs|
  {
    var u := UniqueSorted(xs);
    StrictlyIncreasingCard(u);
    assert (set k | k in u) == (set k | k in xs);
  }

  /** Larger keys first, as `(a, b) => key(b) - key(a)` puts them. */
  ghost predicate NonIncreasing<T>(s: seq<T>, key: T -> int) {
    forall i, j :: 0 <= i < j < |s| ==> key(s[i]) >= key(s[j])
  }

  /** The elements of s whose key is k, in their order in s. */
  ghost function Ties<T>(s: seq<T>, key: T -> int, k: int): seq<T> {
    if s == [] then []
    else Ties(s[..|s| - 1], key, k) + if key(s[|s| - 1]) == k then [s[|s| - 1]] else []
  }

  /** Elements with equal keys come in the same order in s as in t, as a stable sort keeps them. */
  ghost predicate SameTies<T>(s: seq<T>, t: seq<T>, key: T -> int) {
    forall k :: Ties(s, key, k) == Ties(t, key, k)
  }

  lemma {:induction false} TiesAppend<T>(a: seq<T>, b: seq<T>, key: T -> int, k: int)
    ensures Ties(a + b, key, k) == Ties(a, key, k) + Ties(b, key, k)
    decreases |b|
  {
    if b == [] {
      assert a + b == a;
    } else {
      var init := b[..|b| - 1];
      assert (a + b)[..|a + b| - 1] == a + init;
      TiesAppend(a, init, key, k);
    }
  }

  /** The ties among the first n elements come first among all the ties. */
  lemma TiesPrefix<T>(s: seq<T>, n: nat, key: T -> int, k: int)
    requires n <= |s|
    ensures Ties(s[..n], key, k) <= Ties(s, key, k)
  {
    assert s == s[..n] + s[n..];
    TiesAppend(s[..n], s[n..], key, k);
  }

  /** Exchanging two neighbours with different keys changes no list of ties. */
  lemma SwapKeepsTies<T>(s: seq<T>, j: nat, key: T -> int, orig: seq<T>)
    requires 0 < j < |s| && key(s[j - 1]) != key(s[j]) && SameTies(s, orig, key)
    ensures SameTies(s[j - 1 := s[j]][j := s[j - 1]], orig, key)
  {
    var t := s[j - 1 := s[j]][j := s[j - 1]];
    var pre, x, y, post := s[..j - 1], s[j - 1], s[j], s[j + 1..];
    assert s == pre + [x, y] + post;
    assert t == pre + [y, x] + post;
    forall k ensures Ties(t, key, k) == Ties(s, key, k) {
      TiesAppend(pre + [x, y], post, key, k);
      TiesAppend(pre + [y, x], post, key, k);
      TiesAppend(pre, [x, y], key, k);
      TiesAppend(pre, [y, x], key, k);
      assert [x, y][..1] == [x] && [y, x][..1] == [y];
      assert [x][..0] == [] && [y][..0] == [];
    }
  }

  lemma {:induction false} TiesHas<T>(s: seq<T>, key: T -> int, k: int, z: T)
    ensures z in Ties(s, key, k) <==> z in s && key(z) == k
  {
    if s != [] {
      var init := s[..|s| - 1];
      TiesHas(init, key, k, z);
      assert s == init + [s[|s| - 1]];
    }
  }

  /** A list sorted by descending key is fixed by its lists of ties: there is one stable sort. */
  lemma {:induction false} StableSortUnique<T>(s: seq<T>, t: seq<T>, key: T -> int)
    requires NonIncreasing(s, key) && NonIncreasing(t, key) && SameTies(s, t, key)
    ensures s == t
    decreases |s|
  {
    if s == [] {
      if t != [] {
        LastKeyAgrees(t, s, key);
      }
    } else {
      LastKeyAgrees(s, t, key);
      LastKeyAgrees(t, s, key);
      var x, y := s[|s| - 1], t[|t| - 1];
      LastTiesAgree(s, t, key);
      var s', t' := s[..|s| - 1], t[..|t| - 1];
      assert NonIncreasing(s', key) && NonIncreasing(t', key);
      StableSortUnique(s', t', key);
      assert s == s' + [x] && t == t' + [y];
    }
  }

  /** When two lists with the same ties end on equal keys they end on the same element, and without
      it they still have the same ties. */
  lemma LastTiesAgree<T>(s: seq<T>, t: seq<T>, key: T -> int)
    requires s != [] && t != [] && SameTies(s, t, key) && key(s[|s| - 1]) == key(t[|t| - 1])
    ensures s[|s| - 1] == t[|t| - 1]
    ensures SameTies(s[..|s| - 1], t[..|t| - 1], key)
  {
    var s', x, t', y := s[..|s| - 1], s[|s| - 1], t[..|t| - 1], t[|t| - 1];
    var m := key(x);
    assert Ties(s, key, m) == Ties(s', key, m) + [x];
    assert Ties(t, key, m) == Ties(t', key, m) + [y];
    assert x == Ties(s, key, m)[|Ties(s, key, m)| - 1];
    forall k ensures Ties(s', key, k) == Ties(t', key, k) {
      var e := if m == k then [x] else [];
      assert Ties(s, key, k) == Ties(s', key, k) + e;
      assert Ties(t, key, k) == Ties(t', key, k) + e;
      assert Ties(s', key, k) == Ties(s, key, k)[..|Ties(s, key, k)| - |e|];
      assert Ties(t', key, k) == Ties(t, key, k)[..|Ties(t, key, k)| - |e|];
    }
  }

  /** The last element of a sorted list s appears in any sorted t with the same ties, and t's last
      key is no larger. */
  lemma LastKeyAgrees<T>(s: seq<T>, t: seq<T>, key: T -> int)
    requires s != [] && NonIncreasing(t, key) && SameTies(s, t, key)
    ensures t != [] && key(t[|t| - 1]) <= key(s[|s| - 1])
  {
    var x := s[|s| - 1];
    TiesHas(s, key, key(x), x);
    TiesHas(t, key, key(x), x);
    var i :| 0 <= i < |t| && t[i] == x;
  }

  /** `a.sort((x, y) => key(y) - key(x))`, in place: an insertion sort by adjacent swaps. Like
      JavaScript's sort it is stable: elements with equal keys keep their order. */
  method SortByKeyDescending<T>(a: array<T>, key: T -> int)
    modifies a
    ensures NonIncreasing(a[..], key)
    ensures multiset(a[..]) == multiset(old(a[..]))
    ensures SameTies(a[..], old(a[..]), key)
  {
    var i := 0;
    while i < a.Length
      invariant 0 <= i <= a.Length
      invariant NonIncreasing(a[..i], key)
      invariant multiset(a[..]) == multiset(old(a[..]))
      invariant SameTies(a[..], old(a[..]), key)
    {
      InsertLeft(a, i, key);
      i := i + 1;
    }
  }

  /** One pass of the insertion sort: moves a[i] left past every smaller key, so a[..i+1] ends up in order. */
  method InsertLeft<T>(a: array<T>, i: nat, key: T -> int)
    requires i < a.Length
    requires NonIncreasing(a[..i], key)
    modifies a
    ensures NonIncreasing(a[..i + 1], key)
    ensures multiset(a[..]) == multiset(old(a[..]))
    ensures SameTies(a[..], old(a[..]), key)
  {
    var j: nat := i;
    SiftStart(a[..], i, key);
    while j > 0 && key(a[j - 1]) < key(a[j])
      invariant j <= i
      invariant Sifting(a[..], i, j, key)
      invariant multiset(a[..]) == multiset(old(a[..]))
      invariant SameTies(a[..], old(a[..]), key)
    {
      ghost var s := a[..];
      Swap(a, j);
      SiftStep(s, i, j, key);
      SwapKeepsTies(s, j, key, old(a[..]));
      j := j - 1;
    }
    SiftDone(a[..], i, j, key);
  }

  /** While a[i] moves left to position j: the others stay in order, and the moving key is larger than
      everything it has passed. */
  ghost predicate Sifting<T>(s: seq<T>, i: nat, j: nat, key: T -> int) {
    && j <= i < |s|
    && (forall p, q :: 0 <= p < q <= i && p != j && q != j ==> key(s[p]) >= key(s[q]))
    && (forall p, q :: 0 <= p < j < q <= i ==> key(s[p]) >= key(s[q]))
    && (forall q :: j < q <= i ==> key(s[j]) > key(s[q]))
  }

  lemma SiftStart<T>(s: seq<T>, i: nat, key: T -> int)
    requires i < |s| && NonIncreasing(s[..i], key)
    ensures Sifting(s, i, i, key)
  {
    forall p, q | 0 <= p < q < i ensures key(s[p]) >= key(s[q]) {
      assert s[..i][p] == s[p] && s[..i][q] == s[q];
    }
  }

  lemma SiftStep<T>(s: seq<T>, i: nat, j: nat, key: T -> int)
    requires Sifting(s, i, j, key) && 0 < j && key(s[j - 1]) < key(s[j])
    ensures Sifting(s[j - 1 := s[j]][j := s[j - 1]], i, j - 1, key)
  {
  }

  /** Exchanges a[j - 1] and a[j]. */
  method Swap<T>(a: array<T>, j: nat)
    requires 0 < j < a.Length
    modifies a
    ensures a[..] == old(a[..])[j - 1 := old(a[j])][j := old(a[j - 1])]
    ensures multiset(a[..]) == multiset(old(a[..]))
  {
    a[j - 1], a[j] := a[j], a[j - 1];
  }

  lemma SiftDone<T>(s: seq<T>, i: nat, j: nat, key: T -> int)
    requires Sifting(s, i, j, key) && (j == 0 || key(s[j - 1]) >= key(s[j]))
    ensures NonIncreasing(s[..i + 1], key)
  {
    forall p, q | 0 <= p < q <= i ensures key(s[p]) >= key(s[q]) {
      if q == j && p < j - 1 {
        assert key(s[p]) >= key(s[j - 1]);
      }
    }
    assert forall p :: 0 <= p <= i ==> s[..i + 1][p] == s[p];
  }

  /** `[...xs].sort((a, b) => key(b) - key(a)).slice(0, k)`: the k entries with the largest keys;
      among equal keys the earlier entries of xs are taken, in their order. */
  method TopByKey<T>(xs: seq<T>, key: T -> int, k: nat) returns (top: seq<T>)
    ensures |top| == if |xs| < k then |xs| else k
    ensures NonIncreasing(top, key)
    ensures multiset(top) <= multiset(xs)
    ensures |xs| <= k ==> multiset(top) == multiset(xs)
    ensures forall x, y :: x in multiset(xs) - multiset(top) && y in top ==> key(x) <= key(y)
    ensures forall c :: Ties(top, key, c) <= Ties(xs, key, c)
  {
    var a := new T[|xs|](i requires 0 <= i < |xs| => xs[i]);
    assert a[..] == xs;
    SortByKeyDescending(a, key);
    var n := if a.Length < k then a.Length else k;
    top := a[..n];
    TakeLargest(a[..], xs, n, key);
    forall c ensures Ties(top, key, c) <= Ties(xs, key, c) {
      TiesPrefix(a[..], n, key, c);
    }
  }

  /** The first n entries of a list sorted by key, largest first, are n entries of largest key. */
  lemma TakeLargest<T>(s: seq<T>, xs: seq<T>, n: nat, key: T -> int)
    requires NonIncreasing(s, key) && multiset(s) == multiset(xs) && n <= |s|
    ensures NonIncreasing(s[..n], key)
    ensures multiset(s[..n]) <= multiset(xs)
    ensures n == |s| ==> multiset(s[..n]) == multiset(xs)
    ensures forall x, y :: x in multiset(xs) - multiset(s[..n]) && y in s[..n] ==> key(x) <= key(y)
  {
    var top, rest := s[..n], s[n..];
    assert s == top + rest;
    assert multiset(xs) - multiset(top) == multiset(rest);
    forall x, y | x in multiset(xs) - multiset(top) && y in top ensures key(x) <= key(y) {
      var p :| 0 <= p < |rest| && rest[p] == x;
      var q :| 0 <= q < n && top[q] == y;
      assert s[n + p] == x && s[q] == y;
    }
  }

  /** idx lists, in increasing order, the positions of xs that the elements of r are taken from. */
  ghost predicate Embeds<T>(idx: seq<int>, r: seq<T>, xs: seq<T>) {
    && |idx| == |r|
    && (forall i :: 0 <= i < |idx| ==> 0 <= idx[i] < |xs| && xs[idx[i]] == r[i])
    && (forall i, j :: 0 <= i < j < |idx| ==> idx[i] < idx[j])
  }

  /** r is xs with some elements left out and the others kept in their relative order. */
  ghost predicate Subsequence<T>(r: seq<T>, xs: seq<T>) {
    exists idx :: Embeds(idx, r, xs)
  }

  /** Appending x to xs and, optionally, to r keeps r a subsequence. */
  lemma SubsequenceSnoc<T>(r: seq<T>, xs: seq<T>, x: T, keep: bool)
    requires Subsequence(r, xs)
    ensures Subsequence(r + (if keep then [x] else []), xs + [x])
  {
    var idx :| Embeds(idx, r, xs);
    if keep {
      assert Embeds(idx + [|xs|], r + [x], xs + [x]);
    } else {
      assert r + [] == r;
      assert Embeds(idx, r, xs + [x]);
    }
  }

  /** Putting x in front of xs and, optionally, of r keeps r a subsequence. */
  lemma SubsequenceCons<T>(r: seq<T>, xs: seq<T>, x: T, keep: bool)
    requires Subsequence(r, xs)
    ensures Subsequence((if keep then [x] else []) + r, [x] + xs)
  {
    var idx :| Embeds(idx, r, xs);
    var shifted := Shift(idx);
    ShiftEmbeds(idx, r, xs, x);
    if keep {
      KeepFront(shifted, r, xs, x);
    } else {
      assert [] + r == r;
    }
  }

  function Shift(idx: seq<int>): (r: seq<int>)
    ensures |r| == |idx| && forall i :: 0 <= i < |idx| ==> r[i] == idx[i] + 1
  {
    seq(|idx|, i requires 0 <= i < |idx| => idx[i] + 1)
  }

  lemma ShiftEmbeds<T>(idx: seq<int>, r: seq<T>, xs: seq<T>, x: T)
    requires Embeds(idx, r, xs)
    ensures Embeds(Shift(idx), r, [x] + xs)
  {
    forall i | 0 <= i < |idx| ensures ([x] + xs)[Shift(idx)[i]] == r[i] {
      assert ([x] + xs)[idx[i] + 1] == xs[idx[i]];
    }
  }

  lemma KeepFront<T>(shifted: seq<int>, r: seq<T>, xs: seq<T>, x: T)
    requires Embeds(shifted, r, [x] + xs)
    requires forall i :: 0 <= i < |shifted| ==> shifted[i] > 0
    ensures Embeds([0] + shifted, [x] + r, [x] + xs)
  {
    var both := [0] + shifted;
    forall i | 0 < i < |both| ensures ([x] + xs)[both[i]] == ([x] + r)[i] {
      assert both[i] == shifted[i - 1] && ([x] + r)[i] == r[i - 1];
    }
  }

  lemma SubsequenceTransitive<T>(a: seq<T>, b: seq<T>, c: seq<T>)
    requires Subsequence(a, b) && Subsequence(b, c)
    ensures Subsequence(a, c)
  {
    var ia :| Embeds(ia, a, b);
    var ib :| Embeds(ib, b, c);
    var ic := seq(|ia|, i requires 0 <= i < |ia| => ib[ia[i]]);
    assert Embeds(ic, a, c);
  }

  /** Leaving elements out of a list sorted by descending key leaves it sorted. */
  lemma SubsequenceNonIncreasing<T>(r: seq<T>, xs: seq<T>, key: T -> int)
    requires Subsequence(r, xs) && NonIncreasing(xs, key)
    ensures NonIncreasing(r, key)
  {
    var idx :| Embeds(idx, r, xs);
    forall i, j | 0 <= i < j < |r| ensures key(r[i]) >= key(r[j]) {
      assert r[i] == xs[idx[i]] && r[j] == xs[idx[j]];
    }
  }

  /** `xs.filter(p)`: the elements satisfying p, in their original order. */
  function Filter<T(!new)>(xs: seq<T>, p: T -> bool): (r: seq<T>)
    ensures |r| <= |xs|
    ensures forall x :: multiset(r)[x] == if p(x) then multiset(xs)[x] else 0
    ensures Subsequence(r, xs)
  {
    if xs == [] then
      assert Embeds([], [], xs);
      []
    else
      var init, last := xs[..|xs| - 1], xs[|xs| - 1];
      assert xs == init + [last];
      var rest := Filter(init, p);
      SubsequenceSnoc(rest, init, last, p(last));
      rest + if p(last) then [last] else []
  }

  lemma FilterMembers<T(!new)>(xs: seq<T>, p: T -> bool)
    ensures forall x :: x in Filter(xs, p) <==> x in xs && p(x)
  {
    forall x ensures x in Filter(xs, p) <==> x in xs && p(x) {
      assert x in Filter(xs, p) <==> x in multiset(Filter(xs, p));
      assert x in xs <==> x in multiset(xs);
    }
  }

  /** In a sequence without repeats every element occurs at most once. */
  lemma {:induction false} DistinctOnce<T>(s: seq<T>, x: T)
    requires forall i, j :: 0 <= i < j < |s| ==> s[i] != s[j]
    ensures multiset(s)[x] <= 1
  {
    if s != [] {
      var init := s[..|s| - 1];
      assert s == init + [s[|s| - 1]];
      DistinctOnce(init, x);
      assert s[|s| - 1] == x ==> x !in init;
    }
  }

  /** Filtering a sequence with one more element at the end. */
  lemma FilterSnoc<T(!new)>(xs: seq<T>, p: T -> bool)
    requires xs != []
    ensures Filter(xs, p) == Filter(xs[..|xs| - 1], p) + if p(xs[|xs| - 1]) then [xs[|xs| - 1]] else []
  {
  }

  /** A predicate every element satisfies filters nothing out. */
  lemma {:induction false} FilterKeepsAll<T(!new)>(xs: seq<T>, p: T -> bool)
    requires forall i :: 0 <= i < |xs| ==> p(xs[i])
    ensures Filter(xs, p) == xs
  {
    if xs != [] {
      var init, last := xs[..|xs| - 1], xs[|xs| - 1];
      assert xs == init + [last];
      FilterKeepsAll(init, p);
      FilterSnoc(xs, p);
    }
  }
}
