/**
 * The keyboard handler: ArrowRight and ArrowLeft move the active item along
 * the displayed list. The active item is located by its `link` alone.
 */
module Navigation {
  import opened Episodes

  const ArrowRight: string := "ArrowRight"
  const ArrowLeft: string := "ArrowLeft"

  /**
   * `i` is the first position of `s` whose link is `link` (strict equality,
   * so two missing links match): the least matching position.
   */
  function FirstLinkMatch(s: seq<Episode>, i: int, link: Option<string>): (b: bool)
    ensures b <==> (0 <= i < |s| && s[i].link == link &&
                    forall j :: 0 <= j < |s| && s[j].link == link ==> i <= j)
  {
    0 <= i < |s| && s[i].link == link &&
    forall j :: 0 <= j < i ==> s[j].link != link
  }

  /** `findIndex` by link: the first matching position, or -1 when no episode has that link. */
  function FindIndexByLink(s: seq<Episode>, link: Option<string>): (r: int)
    ensures -1 <= r < |s|
    ensures r >= 0 ==> FirstLinkMatch(s, r, link)
    ensures r == -1 <==> forall j :: 0 <= j < |s| ==> s[j].link != link
  {
    if s == [] then -1
    else if s[0].link == link then 0
    else
      var k := FindIndexByLink(s[1..], link);
      if k < 0 then -1 else k + 1
  }

  /**
   * The active item after a key press with key code `code` over the displayed
   * list `s`. With no active item any key selects the first item (nothing
   * when `s` is empty); otherwise only an arrow key that has a neighbour to
   * move to changes the selection.
   */
  function Navigate(s: seq<Episode>, active: Option<Episode>, code: string): (r: Option<Episode>)
    ensures r == active || (r.Some? && r.value in s)
    ensures active.Some? && r != active ==> code == ArrowRight || code == ArrowLeft
  {
    match active
    case None => if |s| > 0 then Some(s[0]) else None
    case Some(a) =>
      var index := FindIndexByLink(s, a.link);
      if index >= 0 then
        if code == ArrowRight && index < |s| - 1 then Some(s[index + 1])
        else if code == ArrowLeft && index > 0 then Some(s[index - 1])
        else active
      else active
  }

  /** With no active item, any key selects the first displayed item, or nothing in an empty list. */
  lemma NavigateFromNothing(s: seq<Episode>, code: string)
    ensures |s| > 0 ==> Navigate(s, None, code) == Some(s[0])
    ensures |s| == 0 ==> Navigate(s, None, code) == None
  {
  }

  /** ArrowRight moves from the first link match to the item after it. */
  lemma NavigateRight(s: seq<Episode>, a: Episode, i: int)
    requires FirstLinkMatch(s, i, a.link) && i < |s| - 1
    ensures Navigate(s, Some(a), ArrowRight) == Some(s[i + 1])
  {
  }

  /** ArrowLeft moves from the first link match to the item before it. */
  lemma NavigateLeft(s: seq<Episode>, a: Episode, i: int)
    requires FirstLinkMatch(s, i, a.link) && i > 0
    ensures Navigate(s, Some(a), ArrowLeft) == Some(s[i - 1])
  {
  }

  /**
   * The selection stays put for ArrowRight on the last item, ArrowLeft on the
   * first, any other key, and an active item whose link is not displayed.
   */
  lemma NavigateUnchanged(s: seq<Episode>, a: Episode, i: int, code: string)
    requires FirstLinkMatch(s, i, a.link)
    requires (code == ArrowRight && i == |s| - 1) || (code == ArrowLeft && i == 0)
          || (code != ArrowRight && code != ArrowLeft)
    ensures Navigate(s, Some(a), code) == Some(a)
  {
  }

  /** An active item whose link no displayed item has is never moved. */
  lemma NavigateNotFound(s: seq<Episode>, a: Episode, code: string)
    requires forall j :: 0 <= j < |s| ==> s[j].link != a.link
    ensures Navigate(s, Some(a), code) == Some(a)
  {
  }

  /**
   * When displayed links are pairwise distinct, ArrowRight on a displayed item
   * selects its successor and ArrowLeft its predecessor.
   */
  lemma NavigateDistinctLinks(s: seq<Episode>, i: int)
    requires forall j, k :: 0 <= j < k < |s| ==> s[j].link != s[k].link
    requires 0 <= i < |s|
    ensures i < |s| - 1 ==> Navigate(s, Some(s[i]), ArrowRight) == Some(s[i + 1])
    ensures i > 0 ==> Navigate(s, Some(s[i]), ArrowLeft) == Some(s[i - 1])
  {
    assert FirstLinkMatch(s, i, s[i].link);
    if i < |s| - 1 { NavigateRight(s, s[i], i); }
    if i > 0 { NavigateLeft(s, s[i], i); }
  }
}
