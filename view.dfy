/**
 * The component's state and its event handlers: the page count and the sort
 * flag it owns, the episodes and active item its parent hands it, and the
 * list it derives from them on every render.
 */
module View {
  import opened Episodes
  import opened ListDerivation
  import Navigation
  import Highlight

  class EpisodeListView {
    /** The collection for the active source, as passed in by the parent. */
    var episodes: seq<Episode>
    /** Pages currently shown; starts at 1 and only grows. */
    var page: nat
    /** Sort flag; starts true, which shows newest first. */
    var isAscend: bool
    /** The selection, owned by the parent and changed through its setter. */
    var activeItem: Option<Episode>
    /** Items added per "Load more". */
    const pageSize: nat

    /** The page count starts at 1 and only grows, so at least one page is always shown. */
    ghost predicate Valid()
      reads this
    {
      page >= 1
    }

    /** The first render: one page, newest first. */
    constructor (episodes: seq<Episode>, activeItem: Option<Episode>, pageSize: nat)
      ensures Valid()
      ensures this.episodes == episodes && this.activeItem == activeItem && this.pageSize == pageSize
      ensures page == 1 && isAscend
    {
      this.episodes := episodes;
      this.activeItem := activeItem;
      this.pageSize := pageSize;
      page := 1;
      isAscend := true;
    }

    /** The list rendered (and navigated) in the current state. */
    function Displayed(): (r: seq<Episode>)
      reads this
      ensures r <= Ordered(episodes, isAscend)
      ensures |r| == Min(|episodes|, Window(page, pageSize))
      ensures Valid() && pageSize > 0 && |episodes| > 0 ==> |r| > 0
    {
      assert page >= 1 ==> Window(page, pageSize) >= pageSize;
      Derive(episodes, isAscend, page, pageSize)
    }

    /** Whether the "Load more" button is rendered. */
    function LoadMoreVisible(): (b: bool)
      reads this
      ensures b <==> |Displayed()| < |episodes|
    {
      LoadMoreIffTruncated(episodes, isAscend, page, pageSize);
      ShowsLoadMore(episodes, page, pageSize)
    }

    /** Whether `item`'s row is highlighted. */
    function RowHighlighted(item: Episode): (b: bool)
      reads this
      ensures b ==> activeItem.Some?
      ensures activeItem == Some(item) && (Truthy(item.guid) || Truthy(item.link)) ==> b
    {
      Highlight.IsActive(item, activeItem)
    }

    /** The sort button: flips the flag, which reverses the whole ordering; nothing else changes. */
    method ToggleSort()
      requires Valid()
      modifies this
      ensures Valid()
      ensures isAscend == !old(isAscend)
      ensures page == old(page) && episodes == old(episodes) && activeItem == old(activeItem)
      ensures Ordered(episodes, isAscend) == Reverse(Ordered(old(episodes), old(isAscend)))
      ensures Displayed() == Derive(old(episodes), !old(isAscend), old(page), pageSize)
    {
      ToggleReverses(episodes, isAscend);
      isAscend := !isAscend;
    }

    /**
     * The "Load more" button, rendered only while `LoadMoreVisible()`: adds a
     * page, keeping every shown item in place.
     */
    method LoadMore()
      requires Valid() && LoadMoreVisible()
      modifies this
      ensures Valid()
      ensures page == old(page) + 1
      ensures isAscend == old(isAscend) && episodes == old(episodes) && activeItem == old(activeItem)
      ensures old(Displayed()) <= Displayed()
      ensures pageSize > 0 ==> |old(Displayed())| < |Displayed()|
    {
      NextPageExtends(episodes, isAscend, page, pageSize);
      page := page + 1;
    }

    /** The keydown listener, run over the list of the current render. */
    method KeyDown(code: string)
      requires Valid()
      modifies this
      ensures Valid()
      ensures activeItem == Navigation.Navigate(old(Displayed()), old(activeItem), code)
      ensures activeItem == old(activeItem) || (activeItem.Some? && activeItem.value in Displayed())
      ensures page == old(page) && isAscend == old(isAscend) && episodes == old(episodes)
    {
      activeItem := Navigation.Navigate(Displayed(), activeItem, code);
    }

    /** Clicking a displayed row makes it the active item, which highlights it when it has an identifier. */
    method Select(item: Episode)
      requires Valid() && item in Displayed()
      modifies this
      ensures Valid()
      ensures activeItem == Some(item)
      ensures Truthy(item.guid) || Truthy(item.link) ==> RowHighlighted(item)
      ensures page == old(page) && isAscend == old(isAscend) && episodes == old(episodes)
    {
      activeItem := Some(item);
      if Truthy(item.guid) || Truthy(item.link) {
        Highlight.ActiveRowHighlighted(item);
      }
    }

    /**
     * The parent re-renders with another collection. Page, sort flag and
     * selection are kept; the selection may no longer be displayed.
     */
    method ReceiveEpisodes(newEpisodes: seq<Episode>)
      requires Valid()
      modifies this
      ensures Valid()
      ensures episodes == newEpisodes
      ensures page == old(page) && isAscend == old(isAscend) && activeItem == old(activeItem)
    {
      episodes := newEpisodes;
    }
  }

  /** Pressing the sort button twice shows the same list as before. */
  method ToggleSortTwice(view: EpisodeListView)
    requires view.Valid()
    modifies view
    ensures view.Valid()
    ensures view.Displayed() == old(view.Displayed())
    ensures view.page == old(view.page) && view.activeItem == old(view.activeItem)
    ensures view.isAscend == old(view.isAscend) && view.episodes == old(view.episodes)
  {
    view.ToggleSort();
    view.ToggleSort();
  }
}
