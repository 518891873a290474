/**
 * The feed item the episode list displays, and the stable sort by publish
 * timestamp (oldest first) that lodash's `sortBy` with a single key performs.
 */
module Episodes {

  /** `None` plays the part of `undefined`; `None == None` mirrors `undefined === undefined`. */
  datatype Option<+T> = None | Some(value: T)

  /**
   * One feed item. `link` and `guid` are optional identifiers; `pubDate` is
   * the publish time as a whole-second timestamp (what the list sorts by);
   * `readed` is set elsewhere when the user reads the item.
   */
  datatype Episode = Episode(
    title: string,
    link: Option<string>,
    guid: Option<string>,
    pubDate: int,
    description: Option<string>,
    readed: bool)

  /** JavaScript truthiness of an optional string: present and not empty. */
  predicate Truthy(s: Option<string>) {
    s.Some? && s.value != ""
  }

  // Stable sort by publish timestamp

  /** Timestamps never decrease from left to right. */
  predicate NonDecreasing(s: seq<Episode>) {
    forall i, j :: 0 <= i < j < |s| ==> s[i].pubDate <= s[j].pubDate
  }

  /** Timestamps never increase from left to right. */
  predicate NonIncreasing(s: seq<Episode>) {
    forall i, j :: 0 <= i < j < |s| ==> s[i].pubDate >= s[j].pubDate
  }

  /** The episodes of `s` whose timestamp is `t`, in the order they have in `s`. */
  function Ties(s: seq<Episode>, t: int): seq<Episode> {
    if s == [] then [] else Tie(s[0], t) + Ties(s[1..], t)
  }

  /** `[e]` when `e` has timestamp `t`, otherwise nothing. */
  function Tie(e: Episode, t: int): seq<Episode> {
    if e.pubDate == t then [e] else []
  }

  /**
   * Puts `x` in front of the first episode of `s` that is not older than it,
   * so `x` comes before every later tie.
   */
  function Insert(x: Episode, s: seq<Episode>): (r: seq<Episode>)
    ensures multiset(r) == multiset(s) + multiset{x}
    ensures |r| == |s| + 1 && (r[0] == x || (s != [] && r[0] == s[0]))
  {
    if s == [] || x.pubDate <= s[0].pubDate then [x] + s
    else
      assert s == [s[0]] + s[1..];
      [s[0]] + Insert(x, s[1..])
  }

  /** Inserting into a sorted sequence keeps it sorted. */
  lemma {:induction false} InsertSorted(x: Episode, s: seq<Episode>)
    requires NonDecreasing(s)
    ensures NonDecreasing(Insert(x, s))
  {
    if s == [] || x.pubDate <= s[0].pubDate {
      forall i, j | 0 <= i < j < |s| + 1 ensures ([x] + s)[i].pubDate <= ([x] + s)[j].pubDate {
        if i > 0 { assert ([x] + s)[i] == s[i - 1]; }
        assert ([x] + s)[j] == s[j - 1];
      }
    } else {
      var rest := Insert(x, s[1..]);
      InsertSorted(x, s[1..]);
      assert s[0].pubDate <= rest[0].pubDate;
      forall i, j | 0 <= i < j < |rest| + 1 ensures ([s[0]] + rest)[i].pubDate <= ([s[0]] + rest)[j].pubDate {
        if i > 0 { assert ([s[0]] + rest)[i] == rest[i - 1]; }
        assert ([s[0]] + rest)[j] == rest[j - 1];
      }
    }
  }

  /** The episodes of `s` sorted oldest first; ties keep their input order. */
  function SortByPubDate(s: seq<Episode>): (r: seq<Episode>)
    ensures multiset(r) == multiset(s)
    ensures |r| == |s|
    ensures NonDecreasing(r)
  {
    if s == [] then []
    else
      assert s == [s[0]] + s[1..];
      InsertSorted(s[0], SortByPubDate(s[1..]));
      Insert(s[0], SortByPubDate(s[1..]))
  }

  /** Filtering ties distributes over concatenation. */
  lemma {:induction false} TiesAppend(a: seq<Episode>, b: seq<Episode>, t: int)
    ensures Ties(a + b, t) == Ties(a, t) + Ties(b, t)
  {
    if a == [] {
      assert a + b == b;
    } else {
      calc {
        Ties(a + b, t);
        { assert (a + b)[0] == a[0]; }
        Tie(a[0], t) + Ties((a + b)[1..], t);
        { assert (a + b)[1..] == a[1..] + b; }
        Tie(a[0], t) + Ties(a[1..] + b, t);
        { TiesAppend(a[1..], b, t); }
        Tie(a[0], t) + (Ties(a[1..], t) + Ties(b, t));
        Ties(a, t) + Ties(b, t);
      }
    }
  }

  /** Inserting `x` adds it to the front of its own ties and leaves every other tie group alone. */
  lemma {:induction false} TiesInsert(x: Episode, s: seq<Episode>, t: int)
    ensures Ties(Insert(x, s), t) == Tie(x, t) + Ties(s, t)
  {
    if s == [] || x.pubDate <= s[0].pubDate {
      assert ([x] + s)[0] == x;
      assert ([x] + s)[1..] == s;
    } else {
      var rest := Insert(x, s[1..]);
      calc {
        Ties(Insert(x, s), t);
        Ties([s[0]] + rest, t);
        { assert ([s[0]] + rest)[0] == s[0];
          assert ([s[0]] + rest)[1..] == rest; }
        Tie(s[0], t) + Ties(rest, t);
        { TiesInsert(x, s[1..], t); }
        Tie(s[0], t) + (Tie(x, t) + Ties(s[1..], t));
        { assert Tie(s[0], t) == [] || Tie(x, t) == []; }
        Tie(x, t) + (Tie(s[0], t) + Ties(s[1..], t));
        Tie(x, t) + Ties(s, t);
      }
    }
  }

  /** The sort is stable: every group of equal timestamps keeps its input order. */
  lemma {:induction false} SortIsStable(s: seq<Episode>, t: int)
    ensures Ties(SortByPubDate(s), t) == Ties(s, t)
  {
    if s != [] {
      SortIsStable(s[1..], t);
      TiesInsert(s[0], SortByPubDate(s[1..]), t);
    }
  }
}
