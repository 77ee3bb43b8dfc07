/** `Array.prototype.sort` with a comparator `(a, b) => key(b) - key(a)`: a
    stable sort into descending key order. ECMAScript requires `sort` to be
    stable, so elements with equal keys keep their relative order; the model
    is a stable insertion sort. */
module Sorting {
  import opened Seqs

  predicate SortedDesc<T>(s: seq<T>, key: T -> int)
  {
    forall i, j :: 0 <= i < j < |s| ==> key(s[i]) >= key(s[j])
  }

  /** The selector of the elements whose key is `k`. */
  function KeyIs<T>(key: T -> int, k: int): T -> bool
  {
    x => key(x) == k
  }

  /** Where `x` goes in `s`: before the first element whose key is not larger
      than its own, so ahead of every element with an equal key. The sort
      inserts each element into the sorted rest of the input, whose elements
      all follow it, which is what makes the sort stable. */
  function InsertPos<T>(x: T, s: seq<T>, key: T -> int): (i: nat)
    ensures i <= |s|
    ensures forall j :: 0 <= j < i ==> key(s[j]) > key(x)
    ensures i < |s| ==> key(s[i]) <= key(x)
  {
    if s == [] || key(s[0]) <= key(x) then 0 else 1 + InsertPos(x, s[1..], key)
  }

  function Insert<T>(x: T, s: seq<T>, key: T -> int): (r: seq<T>)
    ensures |r| == |s| + 1
    ensures multiset(r) == multiset(s) + multiset{x}
  {
    var i := InsertPos(x, s, key);
    assert s == s[..i] + s[i..];
    s[..i] + [x] + s[i..]
  }

  lemma {:induction false} InsertSorted<T>(x: T, s: seq<T>, key: T -> int)
    requires SortedDesc(s, key)
    ensures SortedDesc(Insert(x, s, key), key)
  {
    var i := InsertPos(x, s, key);
    var r := Insert(x, s, key);
    forall a, b | 0 <= a < b < |r| ensures key(r[a]) >= key(r[b]) {
      if b < i {
        assert r[a] == s[a] && r[b] == s[b];
      } else if b == i {
        assert r[a] == s[a] && r[b] == x;
      } else if a < i {
        assert r[a] == s[a] && r[b] == s[b - 1];
      } else if a == i {
        assert r[a] == x && r[b] == s[b - 1];
        assert key(s[i]) >= key(s[b - 1]) || i == b - 1;
      } else {
        assert r[a] == s[a - 1] && r[b] == s[b - 1];
      }
    }
  }

  function SortDesc<T>(s: seq<T>, key: T -> int): (r: seq<T>)
    ensures |r| == |s|
    ensures multiset(r) == multiset(s)
    ensures SortedDesc(r, key)
  {
    if s == [] then []
    else
      assert s == [s[0]] + s[1..];
      var t := SortDesc(s[1..], key);
      InsertSorted(s[0], t, key);
      Insert(s[0], t, key)
  }

  lemma {:induction false} InsertStable<T(!new)>(x: T, s: seq<T>, key: T -> int, k: int)
    ensures key(x) == k ==> Filter(Insert(x, s, key), KeyIs(key, k)) == [x] + Filter(s, KeyIs(key, k))
    ensures key(x) != k ==> Filter(Insert(x, s, key), KeyIs(key, k)) == Filter(s, KeyIs(key, k))
  {
    var i := InsertPos(x, s, key);
    var p := KeyIs(key, k);
    FilterInsert(x, s, key, p);
    FilterSplit(s, i, p);
    if key(x) == k {
      PrefixBeforeEqualKey(x, s, key);
    }
  }

  lemma FilterInsert<T(!new)>(x: T, s: seq<T>, key: T -> int, p: T -> bool)
    ensures var i := InsertPos(x, s, key);
      p(x) ==> Filter(Insert(x, s, key), p) == Filter(s[..i], p) + ([x] + Filter(s[i..], p))
    ensures var i := InsertPos(x, s, key);
      !p(x) ==> Filter(Insert(x, s, key), p) == Filter(s[..i], p) + Filter(s[i..], p)
  {
    var i := InsertPos(x, s, key);
    var pre, post := s[..i], s[i..];
    assert Insert(x, s, key) == pre + ([x] + post);
    FilterAppend(pre, [x] + post, p);
    FilterCons(x, post, p);
  }

  lemma FilterHead<T(!new)>(s: seq<T>, p: T -> bool)
    requires s != []
    ensures Filter(s, p) == if p(s[0]) then [s[0]] + Filter(s[1..], p) else Filter(s[1..], p)
  {
  }

  lemma FilterCons<T(!new)>(x: T, s: seq<T>, p: T -> bool)
    ensures Filter([x] + s, p) == if p(x) then [x] + Filter(s, p) else Filter(s, p)
  {
    assert ([x] + s)[1..] == s;
  }

  /** No element before `x`'s insertion point has `x`'s key. */
  lemma PrefixBeforeEqualKey<T(!new)>(x: T, s: seq<T>, key: T -> int)
    ensures Filter(s[..InsertPos(x, s, key)], KeyIs(key, key(x))) == []
  {
    var pre := s[..InsertPos(x, s, key)];
    assert forall j :: 0 <= j < |pre| ==> key(pre[j]) > key(x);
    FilterNone(pre, KeyIs(key, key(x)));
  }

  lemma {:induction false} FilterSplit<T(!new)>(s: seq<T>, i: nat, p: T -> bool)
    requires i <= |s|
    ensures Filter(s, p) == Filter(s[..i], p) + Filter(s[i..], p)
  {
    assert s[..i] + s[i..] == s;
    FilterAppend(s[..i], s[i..], p);
  }

  lemma {:induction false} FilterSingleton<T(!new)>(x: T, p: T -> bool)
    ensures Filter([x], p) == if p(x) then [x] else []
  {
    assert [x][1..] == [];
  }

  lemma {:induction false} FilterNone<T(!new)>(s: seq<T>, p: T -> bool)
    requires forall j :: 0 <= j < |s| ==> !p(s[j])
    ensures Filter(s, p) == []
  {
    if s != [] {
      FilterNone(s[1..], p);
      assert s == [s[0]] + s[1..];
    }
  }

  /** Stability: the elements with any one key appear in the result in the
      order they had in the input. */
  lemma {:induction false} SortStable<T(!new)>(s: seq<T>, key: T -> int, k: int)
    ensures Filter(SortDesc(s, key), KeyIs(key, k)) == Filter(s, KeyIs(key, k))
  {
    if s != [] {
      SortStable(s[1..], key, k);
      InsertStable(s[0], SortDesc(s[1..], key), key, k);
      FilterHead(s, KeyIs(key, k));
    }
  }

  /** Cutting the sorted list after `n` elements keeps, for each key, a
      prefix of that key's elements in their input order. */
  lemma SortedPrefixStable<T(!new)>(s: seq<T>, n: nat, key: T -> int)
    requires n <= |s|
    ensures forall k :: Filter(SortDesc(s, key)[..n], KeyIs(key, k)) <= Filter(s, KeyIs(key, k))
  {
    var r := SortDesc(s, key);
    forall k ensures Filter(r[..n], KeyIs(key, k)) <= Filter(s, KeyIs(key, k)) {
      var p := KeyIs(key, k);
      SortStable(s, key, k);
      FilterSplit(r, n, p);
      var f, g := Filter(r[..n], p), Filter(r[n..], p);
      assert f <= f + g;
    }
  }

  lemma TailBelowPrefix<T>(s: seq<T>, n: nat, key: T -> int, x: T, y: T)
    requires SortedDesc(s, key) && n <= |s|
    requires x in s[n..] && y in s[..n]
    ensures key(x) <= key(y)
  {
    var i :| 0 <= i < |s[n..]| && s[n..][i] == x;
    var j :| 0 <= j < n && s[..n][j] == y;
    assert s[j] == y && s[n + i] == x;
  }

  /** Cutting a descending sequence after `n` elements keeps a prefix at least
      as large as everything cut off. */
  lemma SortedPrefixTop<T>(s: seq<T>, n: nat, key: T -> int)
    requires SortedDesc(s, key) && n <= |s|
    ensures multiset(s[..n]) <= multiset(s)
    ensures SortedDesc(s[..n], key)
    ensures forall x, y :: x in multiset(s) - multiset(s[..n]) && y in s[..n] ==> key(x) <= key(y)
  {
    var pre, post := s[..n], s[n..];
    assert s == pre + post;
    assert multiset(s) == multiset(pre) + multiset(post);
    assert SortedDesc(pre, key) by {
      forall a, b | 0 <= a < b < |pre| ensures key(pre[a]) >= key(pre[b]) {
        assert pre[a] == s[a] && pre[b] == s[b];
      }
    }
    forall x, y | x in multiset(s) - multiset(pre) && y in pre ensures key(x) <= key(y) {
      assert x in multiset(post);
      TailBelowPrefix(s, n, key, x, y);
    }
  }
}
