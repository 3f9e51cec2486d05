/**
 * `Stream.sorted(comparator.reversed())` on an ordered stream: a stable sort in
 * descending key order. Stability is stated as "for every key value, the
 * elements carrying that value keep their relative order".
 */
module StableSort {
  import opened Usage

  predicate SortedDesc(s: seq<PluginUsage>, k: SortKey) {
    forall i, j :: 0 <= i < j < |s| ==> Key(s[i], k) >= Key(s[j], k)
  }

  /** The subsequence of `s` whose key equals `v`. */
  function WithKey(s: seq<PluginUsage>, k: SortKey, v: int): seq<PluginUsage> {
    if |s| == 0 then []
    else (if Key(s[0], k) == v then [s[0]] else []) + WithKey(s[1..], k, v)
  }

  /** `a` and `b` list the elements of each key value in the same order. */
  ghost predicate SameTieOrder(a: seq<PluginUsage>, b: seq<PluginUsage>, k: SortKey) {
    forall v :: WithKey(a, k, v) == WithKey(b, k, v)
  }

  lemma {:induction false} WithKeyAppend(a: seq<PluginUsage>, b: seq<PluginUsage>, k: SortKey, v: int)
    ensures WithKey(a + b, k, v) == WithKey(a, k, v) + WithKey(b, k, v)
  {
    if |a| == 0 {
      assert a + b == b;
    } else {
      var head := if Key(a[0], k) == v then [a[0]] else [];
      assert (a + b)[0] == a[0];
      assert (a + b)[1..] == a[1..] + b;
      WithKeyAppend(a[1..], b, k, v);
      assert WithKey(a + b, k, v) == head + WithKey(a[1..] + b, k, v);
      assert WithKey(a, k, v) == head + WithKey(a[1..], k, v);
    }
  }

  lemma WithKeyCons(x: PluginUsage, s: seq<PluginUsage>, k: SortKey, v: int)
    ensures WithKey([x] + s, k, v) == (if Key(x, k) == v then [x] else []) + WithKey(s, k, v)
  {
    assert ([x] + s)[1..] == s;
  }

  lemma {:induction false} WithKeyMembers(s: seq<PluginUsage>, k: SortKey, v: int, p: PluginUsage)
    ensures p in WithKey(s, k, v) <==> p in s && Key(p, k) == v
  {
    if |s| > 0 {
      WithKeyMembers(s[1..], k, v, p);
      assert s == [s[0]] + s[1..];
    }
  }

  /** Inserts `x` in front of the first element whose key is not larger. */
  function Insert(x: PluginUsage, s: seq<PluginUsage>, k: SortKey): seq<PluginUsage> {
    if |s| == 0 || Key(s[0], k) <= Key(x, k) then [x] + s
    else [s[0]] + Insert(x, s[1..], k)
  }

  lemma {:induction false} InsertPermutes(x: PluginUsage, s: seq<PluginUsage>, k: SortKey)
    ensures multiset(Insert(x, s, k)) == multiset([x] + s)
  {
    if |s| > 0 && Key(s[0], k) > Key(x, k) {
      InsertPermutes(x, s[1..], k);
      assert s == [s[0]] + s[1..];
    }
  }

  /** Prepending an element no smaller than all the rest keeps a sequence sorted. */
  lemma SortedCons(x: PluginUsage, t: seq<PluginUsage>, k: SortKey)
    requires SortedDesc(t, k)
    requires forall i :: 0 <= i < |t| ==> Key(t[i], k) <= Key(x, k)
    ensures SortedDesc([x] + t, k)
  {
  }

  lemma {:induction false} InsertMembers(x: PluginUsage, s: seq<PluginUsage>, k: SortKey)
    ensures forall p :: p in Insert(x, s, k) ==> p == x || p in s
  {
    if |s| > 0 && Key(s[0], k) > Key(x, k) {
      InsertMembers(x, s[1..], k);
    }
  }

  lemma {:induction false} InsertSorted(x: PluginUsage, s: seq<PluginUsage>, k: SortKey)
    requires SortedDesc(s, k)
    ensures SortedDesc(Insert(x, s, k), k)
  {
    if |s| == 0 || Key(s[0], k) <= Key(x, k) {
      SortedCons(x, s, k);
    } else {
      var t := s[1..];
      var r := Insert(x, t, k);
      InsertSorted(x, t, k);
      InsertMembers(x, t, k);
      forall j | 0 <= j < |r|
        ensures Key(r[j], k) <= Key(s[0], k)
      {
        assert r[j] in r;
      }
      SortedCons(s[0], r, k);
    }
  }

  lemma {:induction false} InsertStable(x: PluginUsage, s: seq<PluginUsage>, k: SortKey)
    requires SortedDesc(s, k)
    ensures SameTieOrder(Insert(x, s, k), [x] + s, k)
  {
    if |s| > 0 && Key(s[0], k) > Key(x, k) {
      var t := s[1..];
      var r := Insert(x, t, k);
      InsertStable(x, t, k);
      assert s == [s[0]] + t;
      forall v
        ensures WithKey([s[0]] + r, k, v) == WithKey([x] + s, k, v)
      {
        assert WithKey(r, k, v) == WithKey([x] + t, k, v);
        WithKeyCons(s[0], r, k, v);
        WithKeyCons(x, t, k, v);
        WithKeyCons(x, s, k, v);
        WithKeyCons(s[0], t, k, v);
      }
    }
  }

  /** Insertion sort from the back, so earlier elements end up before later ones of equal key. */
  function SortDesc(s: seq<PluginUsage>, k: SortKey): seq<PluginUsage> {
    if |s| == 0 then [] else Insert(s[0], SortDesc(s[1..], k), k)
  }

  /** `SortDesc` is a stable descending sort: sorted, a permutation, and ties keep their order. */
  lemma {:induction false} SortDescIsStableSort(s: seq<PluginUsage>, k: SortKey)
    ensures SortedDesc(SortDesc(s, k), k)
    ensures multiset(SortDesc(s, k)) == multiset(s)
    ensures |SortDesc(s, k)| == |s|
    ensures SameTieOrder(SortDesc(s, k), s, k)
  {
    if |s| > 0 {
      var t := SortDesc(s[1..], k);
      SortDescIsStableSort(s[1..], k);
      InsertSorted(s[0], t, k);
      InsertPermutes(s[0], t, k);
      InsertStable(s[0], t, k);
      assert s == [s[0]] + s[1..];
      var r := Insert(s[0], t, k);
      assert |r| == |multiset(r)| == |multiset(s)| == |s|;
      forall v
        ensures WithKey(r, k, v) == WithKey(s, k, v)
      {
        WithKeyCons(s[0], t, k, v);
        WithKeyCons(s[0], s[1..], k, v);
      }
    }
  }

  /** A non-empty sequence has a non-empty tie group for its first key. */
  lemma NonEmptyTies(s: seq<PluginUsage>, k: SortKey)
    ensures |s| > 0 ==> WithKey(s, k, Key(s[0], k)) != []
  {
    if |s| > 0 {
      WithKeyMembers(s, k, Key(s[0], k), s[0]);
    }
  }

  /** Two sorted sequences with the same tie groups start with the same element. */
  lemma HeadsAgree(a: seq<PluginUsage>, b: seq<PluginUsage>, k: SortKey)
    requires SortedDesc(a, k) && SortedDesc(b, k)
    requires SameTieOrder(a, b, k)
    requires |a| > 0 && |b| > 0
    ensures a[0] == b[0]
  {
    var ka, kb := Key(a[0], k), Key(b[0], k);
    // the largest key of each side also occurs on the other side
    WithKeyMembers(a, k, ka, a[0]);
    var y := WithKey(b, k, ka)[0];
    WithKeyMembers(b, k, ka, y);
    WithKeyMembers(b, k, kb, b[0]);
    var z := WithKey(a, k, kb)[0];
    WithKeyMembers(a, k, kb, z);
    assert ka == kb;
    WithKeyCons(a[0], a[1..], k, ka);
    WithKeyCons(b[0], b[1..], k, ka);
    assert a == [a[0]] + a[1..] && b == [b[0]] + b[1..];
  }

  /** Dropping a common head keeps the tie groups equal. */
  lemma TailTies(a: seq<PluginUsage>, b: seq<PluginUsage>, k: SortKey)
    requires |a| > 0 && |b| > 0 && a[0] == b[0]
    requires SameTieOrder(a, b, k)
    ensures SameTieOrder(a[1..], b[1..], k)
  {
    forall v
      ensures WithKey(a[1..], k, v) == WithKey(b[1..], k, v)
    {
      WithKeyCons(a[0], a[1..], k, v);
      WithKeyCons(b[0], b[1..], k, v);
      assert a == [a[0]] + a[1..] && b == [b[0]] + b[1..];
      var h: seq<PluginUsage> := if Key(a[0], k) == v then [a[0]] else [];
      assert WithKey(a, k, v) == WithKey(b, k, v);
      assert WithKey(a[1..], k, v) == (h + WithKey(a[1..], k, v))[|h|..];
      assert WithKey(b[1..], k, v) == (h + WithKey(b[1..], k, v))[|h|..];
    }
  }

  /**
   * A stable descending sort is unique: two sorted sequences that list every
   * key value's elements in the same order are equal.
   */
  lemma {:induction false} StableSortUnique(a: seq<PluginUsage>, b: seq<PluginUsage>, k: SortKey)
    requires SortedDesc(a, k) && SortedDesc(b, k)
    requires SameTieOrder(a, b, k)
    ensures a == b
  {
    if |a| == 0 {
      NonEmptyTies(b, k);
    } else if |b| == 0 {
      NonEmptyTies(a, k);
    } else {
      HeadsAgree(a, b, k);
      TailTies(a, b, k);
      StableSortUnique(a[1..], b[1..], k);
      assert a == [a[0]] + a[1..] && b == [b[0]] + b[1..];
    }
  }

  /** `SortDesc` is THE stable descending sort: any sorted, tie-order-preserving arrangement equals it. */
  lemma StableSortIsSortDesc(s: seq<PluginUsage>, r: seq<PluginUsage>, k: SortKey)
    requires SortedDesc(r, k) && SameTieOrder(r, s, k)
    ensures r == SortDesc(s, k)
  {
    SortDescIsStableSort(s, k);
    StableSortUnique(r, SortDesc(s, k), k);
  }

  /** In a descending sort, everything past a prefix is no larger than anything in it. */
  lemma SortedPrefixDominates(s: seq<PluginUsage>, k: SortKey, n: nat, p: PluginUsage, q: PluginUsage)
    requires SortedDesc(s, k) && n <= |s|
    requires p in s[..n] && q in s[n..]
    ensures Key(q, k) <= Key(p, k)
  {
    var i :| 0 <= i < n && s[i] == p;
    var j :| n <= j < |s| && s[j] == q;
  }
}
