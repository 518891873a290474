/**
 * The list the component displays: every episode sorted by publish
 * timestamp, reversed when `isAscend` is set, cut to the first
 * `pageSize * page` items.
 */
module ListDerivation {
  import opened Episodes

  /** `s` back to front, lodash's `reverse`. */
  function Reverse(s: seq<Episode>): (r: seq<Episode>)
    ensures |r| == |s|
    ensures forall i :: 0 <= i < |s| ==> r[i] == s[|s| - 1 - i]
  {
    if s == [] then [] else Reverse(s[1..]) + [s[0]]
  }

  /**
   * The whole list in display order. The oldest-first sort is reversed when
   * `isAscend` holds, so `isAscend` means newest first.
   */
  function Ordered(episodes: seq<Episode>, isAscend: bool): (r: seq<Episode>)
    ensures multiset(r) == multiset(episodes) && |r| == |episodes|
    ensures !isAscend ==> NonDecreasing(r)
    ensures isAscend ==> NonIncreasing(r)
  {
    var sorted := SortByPubDate(episodes);
    if isAscend then
      ReversePermutes(sorted);
      ReverseNonIncreasing(sorted);
      Reverse(sorted)
    else sorted
  }

  /** How many items `page` pages hold. */
  function Window(page: nat, pageSize: nat): nat {
    pageSize * page
  }

  /** The displayed list: the first `pageSize * page` items of the ordered list (`slice(0, n)`). */
  function Derive(episodes: seq<Episode>, isAscend: bool, page: nat, pageSize: nat): (r: seq<Episode>)
    ensures |r| == Min(|episodes|, Window(page, pageSize))
    ensures r <= Ordered(episodes, isAscend)
  {
    var ordered := Ordered(episodes, isAscend);
    var n := Window(page, pageSize);
    if n <= |ordered| then ordered[..n] else ordered
  }

  /**
   * "Load more" is rendered while the collection has more items than the
   * pages shown (LoadMoreIffTruncated: while the displayed list is cut
   * short). With a positive page size it is gone before `page` reaches the
   * number of episodes, so it can be pressed only finitely often.
   */
  function ShowsLoadMore(episodes: seq<Episode>, page: nat, pageSize: nat): (b: bool)
    ensures b ==> |episodes| > 0
    ensures pageSize > 0 && b ==> page < |episodes|
  {
    assert pageSize > 0 ==> Window(page, pageSize) >= page;
    |episodes| > Window(page, pageSize)
  }

  function Min(a: nat, b: nat): nat {
    if a <= b then a else b
  }

  /** Reversing twice gives the sequence back. */
  lemma ReverseReverse(s: seq<Episode>)
    ensures Reverse(Reverse(s)) == s
  {
  }

  /** Reversing keeps the same elements with the same multiplicities. */
  lemma {:induction false} ReversePermutes(s: seq<Episode>)
    ensures multiset(Reverse(s)) == multiset(s)
  {
    if s != [] {
      ReversePermutes(s[1..]);
      assert s == [s[0]] + s[1..];
    }
  }

  /** Reversing a tie group's host reverses the tie group. */
  lemma {:induction false} TiesReverse(s: seq<Episode>, t: int)
    ensures Ties(Reverse(s), t) == Reverse(Ties(s, t))
  {
    if s != [] {
      TiesReverse(s[1..], t);
      TiesAppend(Reverse(s[1..]), [s[0]], t);
      assert Ties([s[0]], t) == Tie(s[0], t);
      ReverseShort(Tie(s[0], t), Ties(s[1..], t));
    }
  }

  /** Reversing a sequence with at most one element in front moves it to the back. */
  lemma ReverseShort(a: seq<Episode>, b: seq<Episode>)
    requires |a| <= 1
    ensures Reverse(a + b) == Reverse(b) + a
  {
    if a != [] {
      assert (a + b)[1..] == b;
    } else {
      assert a + b == b;
    }
  }

  /** Dropping the tail of a sequence drops the tail of each tie group. */
  lemma TiesPrefix(s: seq<Episode>, n: nat, t: int)
    requires n <= |s|
    ensures Ties(s[..n], t) <= Ties(s, t)
  {
    assert s == s[..n] + s[n..];
    TiesAppend(s[..n], s[n..], t);
  }

  /**
   * The displayed list is a prefix of an ordering of `episodes` that is a
   * permutation of it, so it holds each episode at most as often as `episodes` does.
   */
  lemma DeriveIsPrefixOfPermutation(episodes: seq<Episode>, isAscend: bool, page: nat, pageSize: nat)
    ensures Derive(episodes, isAscend, page, pageSize) <= Ordered(episodes, isAscend)
    ensures multiset(Ordered(episodes, isAscend)) == multiset(episodes)
    ensures multiset(Derive(episodes, isAscend, page, pageSize)) <= multiset(episodes)
  {
    var ordered := Ordered(episodes, isAscend);
    var d := Derive(episodes, isAscend, page, pageSize);
    assert ordered == d + ordered[|d|..];
    assert multiset(ordered) == multiset(d) + multiset(ordered[|d|..]);
  }

  /** Reversing an oldest-first sequence gives a newest-first one. */
  lemma ReverseNonIncreasing(s: seq<Episode>)
    requires NonDecreasing(s)
    ensures NonIncreasing(Reverse(s))
  {
    var r := Reverse(s);
    forall i, j | 0 <= i < j < |r| ensures r[i].pubDate >= r[j].pubDate {
      assert r[i] == s[|r| - 1 - i] && r[j] == s[|r| - 1 - j];
    }
  }

  /** Newest first when `isAscend` holds, oldest first otherwise. */
  lemma DeriveOrdered(episodes: seq<Episode>, isAscend: bool, page: nat, pageSize: nat)
    ensures !isAscend ==> NonDecreasing(Derive(episodes, isAscend, page, pageSize))
    ensures isAscend ==> NonIncreasing(Derive(episodes, isAscend, page, pageSize))
  {
  }

  /**
   * Equal timestamps keep their input order when `isAscend` is false and
   * come in reversed input order when it is true.
   */
  lemma {:induction false} OrderedTies(episodes: seq<Episode>, isAscend: bool, t: int)
    ensures !isAscend ==> Ties(Ordered(episodes, isAscend), t) == Ties(episodes, t)
    ensures isAscend ==> Ties(Ordered(episodes, isAscend), t) == Reverse(Ties(episodes, t))
  {
    SortIsStable(episodes, t);
    if isAscend {
      TiesReverse(SortByPubDate(episodes), t);
    }
  }

  /** Within the displayed list each tie group is a prefix of its group in the full ordering. */
  lemma DeriveTies(episodes: seq<Episode>, isAscend: bool, page: nat, pageSize: nat, t: int)
    ensures !isAscend ==> Ties(Derive(episodes, isAscend, page, pageSize), t) <= Ties(episodes, t)
    ensures isAscend ==> Ties(Derive(episodes, isAscend, page, pageSize), t) <= Reverse(Ties(episodes, t))
  {
    var ordered := Ordered(episodes, isAscend);
    var d := Derive(episodes, isAscend, page, pageSize);
    OrderedTies(episodes, isAscend, t);
    assert d == ordered[..|d|];
    TiesPrefix(ordered, |d|, t);
  }

  /** One more page keeps every shown item in place and only appends. */
  lemma NextPageExtends(episodes: seq<Episode>, isAscend: bool, page: nat, pageSize: nat)
    ensures Derive(episodes, isAscend, page, pageSize) <= Derive(episodes, isAscend, page + 1, pageSize)
    ensures ShowsLoadMore(episodes, page, pageSize) && pageSize > 0 ==>
      |Derive(episodes, isAscend, page, pageSize)| < |Derive(episodes, isAscend, page + 1, pageSize)|
  {
    assert Window(page + 1, pageSize) == Window(page, pageSize) + pageSize;
  }

  /**
   * "Load more" is offered exactly when the displayed list is shorter than
   * the collection; once it is not, the whole ordering is displayed.
   */
  lemma LoadMoreIffTruncated(episodes: seq<Episode>, isAscend: bool, page: nat, pageSize: nat)
    ensures ShowsLoadMore(episodes, page, pageSize) <==> |Derive(episodes, isAscend, page, pageSize)| < |episodes|
    ensures !ShowsLoadMore(episodes, page, pageSize) ==> Derive(episodes, isAscend, page, pageSize) == Ordered(episodes, isAscend)
  {
  }

  /** Flipping the sort flag reverses the whole ordering. */
  lemma ToggleReverses(episodes: seq<Episode>, isAscend: bool)
    ensures Ordered(episodes, !isAscend) == Reverse(Ordered(episodes, isAscend))
  {
    ReverseReverse(SortByPubDate(episodes));
  }

  /** An empty collection displays an empty list. */
  lemma DeriveEmpty(isAscend: bool, page: nat, pageSize: nat)
    ensures Derive([], isAscend, page, pageSize) == []
  {
  }

  /** Published at timestamps 1, 3 and 2, the default order shows the second, third and first episode. */
  lemma NewestFirstExample(a: Episode, b: Episode, c: Episode)
    requires a.pubDate == 1 && b.pubDate == 3 && c.pubDate == 2
    ensures Derive([a, b, c], true, 1, 3) == [b, c, a]
  {
    SortExample(a, b, c);
    ReverseThree(a, c, b);
  }

  /** Reversing three items. */
  lemma ReverseThree(x: Episode, y: Episode, z: Episode)
    ensures Reverse([x, y, z]) == [z, y, x]
  {
    assert [x, y, z][1..] == [y, z] && [y, z][1..] == [z] && [z][1..] == [];
    assert Reverse([z]) == [z];
  }

  /** Sorting timestamps 1, 3 and 2 gives timestamps 1, 2 and 3. */
  lemma SortExample(a: Episode, b: Episode, c: Episode)
    requires a.pubDate == 1 && b.pubDate == 3 && c.pubDate == 2
    ensures SortByPubDate([a, b, c]) == [a, c, b]
  {
    calc {
      SortByPubDate([c]);
      { assert [c][1..] == []; }
      Insert(c, []);
      [c];
    }
    calc {
      SortByPubDate([b, c]);
      { assert [b, c][1..] == [c]; }
      Insert(b, [c]);
      { assert [c][1..] == []; }
      [c] + Insert(b, []);
      [c, b];
    }
    calc {
      SortByPubDate([a, b, c]);
      { assert [a, b, c][1..] == [b, c]; }
      Insert(a, [c, b]);
      [a, c, b];
    }
  }
}
