/** Which row of the displayed list is highlighted as the active item. */
module Highlight {
  import opened Episodes

  /**
   * A row is highlighted by its own preferred identifier: its guid when that
   * is truthy, else its link when that is truthy, else never. So a
   * highlighted row shares a truthy identifier with the active item, and a
   * row's own guid decides even when its link equals the active link.
   */
  function IsActive(item: Episode, active: Option<Episode>): (b: bool)
    ensures b ==> (active.Some? &&
                    ((Truthy(item.guid) && item.guid == active.value.guid) ||
                     (Truthy(item.link) && item.link == active.value.link)))
    ensures Truthy(item.guid) && active.Some? && item.guid != active.value.guid ==> !b
  {
    if Truthy(item.guid) then active.Some? && item.guid == active.value.guid
    else if Truthy(item.link) then active.Some? && item.link == active.value.link
    else false
  }

  /** With no active item nothing is highlighted. */
  lemma NothingActive(item: Episode)
    ensures !IsActive(item, None)
  {
  }

  /** The active item's own row is highlighted whenever it has a truthy guid or link. */
  lemma ActiveRowHighlighted(a: Episode)
    requires Truthy(a.guid) || Truthy(a.link)
    ensures IsActive(a, Some(a))
  {
  }

  /** When every row has a truthy guid and no two rows share one, at most one row is highlighted. */
  lemma AtMostOneHighlighted(s: seq<Episode>, active: Option<Episode>)
    requires forall i :: 0 <= i < |s| ==> Truthy(s[i].guid)
    requires forall i, j :: 0 <= i < j < |s| ==> s[i].guid != s[j].guid
    ensures forall i, j :: 0 <= i < j < |s| && IsActive(s[i], active) ==> !IsActive(s[j], active)
  {
  }

  /**
   * A row whose own guid is truthy and equal to the active item's guid is
   * highlighted, whatever its other fields: a stale copy of the active
   * episode (say, with `readed` changed since it was selected) still is.
   */
  lemma SameGuidHighlighted(row: Episode, a: Episode)
    requires Truthy(row.guid) && row.guid == a.guid
    ensures IsActive(row, Some(a))
  {
  }

  /**
   * A row without a guid whose link equals the active item's link is
   * highlighted, even when it is not the active item: with the active row
   * itself, two rows are highlighted. `AtMostOneHighlighted` needs its
   * all-guids hypothesis for this reason.
   */
  lemma LinkOnlyRowHighlightedWithActive(row: Episode, a: Episode)
    requires !Truthy(row.guid) && Truthy(row.link) && row.link == a.link
    requires Truthy(a.guid) || Truthy(a.link)
    ensures IsActive(row, Some(a)) && IsActive(a, Some(a))
  {
  }
}
