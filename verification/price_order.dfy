/** Ordering of the response by ascending price.  The service sorts with an
    unstable library sort whose only comparison is `price < price`, so any
    permutation that is non-decreasing by price is an admissible result.
    `SortByPrice` is one such permutation (an insertion sort); the lemmas
    show every admissible result has the same sequence of prices, so only
    the order among equally priced hotels is left open. */
module PriceOrder {
  import opened Models

  predicate SortedByPrice(s: seq<Hotel>)
  {
    forall i, j :: 0 <= i < j < |s| ==> s[i].price <= s[j].price
  }

  /** No two hotels of the sequence share an identifier. */
  predicate UniqueIds(s: seq<Hotel>)
  {
    forall i, j :: 0 <= i < j < |s| ==> s[i].hotelId != s[j].hotelId
  }

  function Insert(h: Hotel, s: seq<Hotel>): (r: seq<Hotel>)
    requires SortedByPrice(s)
    ensures SortedByPrice(r)
    ensures multiset(r) == multiset(s) + multiset{h}
    ensures |r| == |s| + 1
    ensures r[0] == h || (|s| > 0 && r[0] == s[0])
    decreases |s|
  {
    if |s| == 0 || h.price <= s[0].price then [h] + s
    else
      var rest := Insert(h, s[1..]);
      assert s == [s[0]] + s[1..];
      [s[0]] + rest
  }

  function SortByPrice(s: seq<Hotel>): (r: seq<Hotel>)
    ensures SortedByPrice(r)
    ensures multiset(r) == multiset(s)
    ensures |r| == |s|
    decreases |s|
  {
    if |s| == 0 then []
    else
      assert s == [s[0]] + s[1..];
      Insert(s[0], SortByPrice(s[1..]))
  }

  lemma SortTwo(x: Hotel, y: Hotel)
    requires y.price < x.price
    ensures SortByPrice([x, y]) == [y, x]
  {
    assert [x, y][1..] == [y];
    assert SortByPrice([y]) == [y];
  }

  lemma {:induction false} InsertKeepsUniqueIds(h: Hotel, s: seq<Hotel>)
    requires SortedByPrice(s)
    requires UniqueIds(s)
    requires forall x :: x in s ==> x.hotelId != h.hotelId
    ensures UniqueIds(Insert(h, s))
    decreases |s|
  {
    if |s| > 0 && h.price > s[0].price {
      var rest := Insert(h, s[1..]);
      InsertKeepsUniqueIds(h, s[1..]);
      forall k | 0 <= k < |rest|
        ensures s[0].hotelId != rest[k].hotelId
      {
        assert rest[k] in multiset(s[1..]) + multiset{h};
        if rest[k] != h {
          var m :| 0 <= m < |s[1..]| && s[1..][m] == rest[k];
          assert s[m + 1] == rest[k];
        }
      }
      assert Insert(h, s) == [s[0]] + rest;
    }
  }

  lemma {:induction false} SortKeepsUniqueIds(s: seq<Hotel>)
    requires UniqueIds(s)
    ensures UniqueIds(SortByPrice(s))
    decreases |s|
  {
    if |s| > 0 {
      var rest := SortByPrice(s[1..]);
      SortKeepsUniqueIds(s[1..]);
      assert forall x :: x in rest ==> x in multiset(s[1..]);
      InsertKeepsUniqueIds(s[0], rest);
    }
  }

  /** A value met at two positions of a sequence is counted at least twice. */
  lemma CountAtLeastTwo(a: seq<Hotel>, i: int, j: int)
    requires 0 <= i < j < |a| && a[i] == a[j]
    ensures multiset(a)[a[i]] >= 2
  {
    var left, x, right := a[..j], a[j], a[j + 1..];
    assert a == left + [x] + right;
    assert left[i] == x;
    assert multiset(left)[x] >= 1;
  }

  /** With unique identifiers no hotel occurs twice. */
  lemma {:induction false} UniqueIdsCountAtMostOne(s: seq<Hotel>, h: Hotel)
    requires UniqueIds(s)
    ensures multiset(s)[h] <= 1
    decreases |s|
  {
    if |s| > 0 {
      var tail := s[1..];
      assert s == [s[0]] + tail;
      assert UniqueIds(tail) by {
        forall i, j | 0 <= i < j < |tail|
          ensures tail[i].hotelId != tail[j].hotelId
        {
          assert tail[i] == s[i + 1] && tail[j] == s[j + 1];
        }
      }
      UniqueIdsCountAtMostOne(tail, h);
      if h == s[0] {
        forall k | 0 <= k < |tail|
          ensures tail[k] != h
        {
          assert tail[k] == s[k + 1];
        }
        assert h !in tail;
      }
    }
  }

  /** A reordering of a sequence with unique identifiers has unique
      identifiers. */
  lemma PermutationKeepsUniqueIds(a: seq<Hotel>, b: seq<Hotel>)
    requires multiset(a) == multiset(b)
    requires UniqueIds(b)
    ensures UniqueIds(a)
  {
    forall i, j | 0 <= i < j < |a|
      ensures a[i].hotelId != a[j].hotelId
    {
      if a[i] == a[j] {
        CountAtLeastTwo(a, i, j);
        UniqueIdsCountAtMostOne(b, a[i]);
        assert false;
      } else {
        assert a[i] in multiset(b) && a[j] in multiset(b);
        var k :| 0 <= k < |b| && b[k] == a[i];
        var l :| 0 <= l < |b| && b[l] == a[j];
        assert b[k].hotelId != b[l].hotelId;
      }
    }
  }

  function Prices(s: seq<Hotel>): (p: seq<int>)
    ensures |p| == |s|
    ensures forall i :: 0 <= i < |s| ==> p[i] == s[i].price
  {
    seq(|s|, i requires 0 <= i < |s| => s[i].price)
  }

  lemma PricesOfConcat(a: seq<Hotel>, b: seq<Hotel>)
    ensures multiset(Prices(a + b)) == multiset(Prices(a)) + multiset(Prices(b))
  {
    assert Prices(a + b) == Prices(a) + Prices(b);
  }

  /** Taking one hotel out of a sequence takes its price out of the prices. */
  lemma PricesWithout(left: seq<Hotel>, x: Hotel, right: seq<Hotel>)
    ensures multiset(Prices(left + [x] + right)) == multiset(Prices(left + right)) + multiset{x.price}
  {
    PricesOfConcat(left + [x], right);
    PricesOfConcat(left, [x]);
    PricesOfConcat(left, right);
    assert Prices([x]) == [x.price];
  }

  lemma {:induction false} PricesMultiset(a: seq<Hotel>, b: seq<Hotel>)
    requires multiset(a) == multiset(b)
    ensures multiset(Prices(a)) == multiset(Prices(b))
    decreases |a|
  {
    if |a| == 0 {
      assert |b| == |multiset(b)| == 0;
    } else {
      var x, tail := a[0], a[1..];
      assert x in multiset(b);
      var k :| 0 <= k < |b| && b[k] == x;
      var left, right := b[..k], b[k + 1..];
      assert b == left + [x] + right;
      assert multiset(Prices(tail)) == multiset(Prices(left + right)) by {
        assert multiset(tail) == multiset(a) - multiset{x} by {
          assert a == [x] + tail;
        }
        assert multiset(left + right) == multiset(b) - multiset{x};
        PricesMultiset(tail, left + right);
      }
      assert multiset(Prices(a)) == multiset(Prices(tail)) + multiset{x.price} by {
        var none: seq<Hotel> := [];
        assert a == none + [x] + tail && none + tail == tail;
        PricesWithout(none, x, tail);
      }
      PricesWithout(left, x, right);
    }
  }

  /** A non-decreasing integer sequence. */
  predicate Ascending(a: seq<int>)
  {
    forall i, j :: 0 <= i < j < |a| ==> a[i] <= a[j]
  }

  /** The head of a non-decreasing integer sequence is its least element. */
  lemma AscendingHeadIsLeast(a: seq<int>, x: int)
    requires Ascending(a)
    requires x in multiset(a)
    ensures a[0] <= x
  {
    var k :| 0 <= k < |a| && a[k] == x;
    if k > 0 {
      assert a[0] <= a[k];
    }
  }

  lemma AscendingTail(a: seq<int>)
    requires Ascending(a) && |a| > 0
    ensures Ascending(a[1..])
  {
    forall i, j | 0 <= i < j < |a| - 1
      ensures a[1..][i] <= a[1..][j]
    {
      assert a[1..][i] == a[i + 1] && a[1..][j] == a[j + 1];
    }
  }

  lemma MultisetOfTail(a: seq<int>)
    requires |a| > 0
    ensures multiset(a[1..]) == multiset(a) - multiset{a[0]}
  {
    assert a == [a[0]] + a[1..];
  }

  /** Two non-decreasing integer sequences with the same elements are equal. */
  lemma {:induction false} SortedPermutationUnique(a: seq<int>, b: seq<int>)
    requires Ascending(a) && Ascending(b)
    requires multiset(a) == multiset(b)
    ensures a == b
    decreases |a|
  {
    if |a| > 0 {
      assert |b| == |a| by {
        assert |b| == |multiset(b)| == |multiset(a)| == |a|;
      }
      assert a[0] == b[0] by {
        assert a[0] in multiset(a) && b[0] in multiset(b);
        AscendingHeadIsLeast(a, b[0]);
        AscendingHeadIsLeast(b, a[0]);
      }
      assert a[1..] == b[1..] by {
        MultisetOfTail(a);
        MultisetOfTail(b);
        AscendingTail(a);
        AscendingTail(b);
        SortedPermutationUnique(a[1..], b[1..]);
      }
      assert a == [a[0]] + a[1..] && b == [b[0]] + b[1..];
    }
  }

  /** Every admissible result of the unstable sort lists the same prices in
      the same positions as `SortByPrice`. */
  lemma SortedPermutationsAgreeOnPrices(s: seq<Hotel>, t: seq<Hotel>)
    requires SortedByPrice(t)
    requires multiset(t) == multiset(s)
    ensures |t| == |s|
    ensures forall i :: 0 <= i < |t| ==> t[i].price == SortByPrice(s)[i].price
  {
    var r := SortByPrice(s);
    assert |t| == |multiset(t)| == |multiset(r)| == |r|;
    PricesMultiset(t, r);
    SortedPermutationUnique(Prices(t), Prices(r));
  }
}
