# Episode list: list derivation, keyboard selection and row state

This project models the logic of the `EpisodeList` component of a feed reader
(`src/components/EpisodeList.tsx`) and proves properties of it in Dafny:

- **List derivation.** The displayed list is built from the episodes of the
  active source. They are stable-sorted by publish timestamp, oldest first.
  If the `isAscend` flag is set the result is reversed, so `isAscend` means
  *newest first*. The flag name says the opposite of what it does, and it
  starts out `true`. The list is then cut to the first `pageSize * page` items.
- **Keyboard selection.** ArrowRight and ArrowLeft move the active item along
  the displayed list. The active item is found by its `link` only. With no
  active item, any key selects the first displayed item, or nothing if the
  list is empty.
- **Row state.** A row is highlighted by comparing its guid when it has one,
  otherwise its link. "Load more" is shown while items remain past the
  window. The label of a link in a digest is the anchor's `title`,
  otherwise its first child if that child is text.
- **Component state.** `View.EpisodeListView` is a class. It holds the state
  the component owns (`page`, `isAscend`) and the props it is given
  (`episodes`, `activeItem`). Its methods are the event handlers: sort
  toggle, load more, key press, row click, and a new collection from the
  parent.

Modules: `Episodes` is the shared helper module (Option, the item type,
JavaScript truthiness of optional strings, and lodash `sortBy` by timestamp).
The `EpisodeList` component is split by concern into `ListDerivation`
(reverse, window, the displayed list), `Navigation` (`findIndex` by link and
the key handler), `Highlight` (the active row) and `View` (the component's
state and handlers). `MarkAnchor` is the link-label component of lines 22-30.

Modelling choices:

- `pubDate` is an integer timestamp. It stands for the value of
  `dayjs(pubDate).unix()`.
- An episode's `guid`, `link` and `description` are `Option<string>`, and
  so is the anchor's `title`; an episode's `title` is a plain string. `None` is
  `undefined`, so `undefined === undefined` at line 63 becomes `None == None`.
  The `if (item.guid)` and `if (!label)` tests use JavaScript truthiness
  (`Episodes.Truthy`): an empty string counts as absent. The `===` in
  `findIndex` is plain equality.
- `findIndex` returns -1 when nothing matches, as in JavaScript.
- The anchor's `children` are taken to be an array (`Option<seq<Child>>`,
  with `None` for an absent prop). The model does not cover a single string
  passed as `children`, where `props.children[0]` at line 25 would be the
  string's first character.
- The page size is the constructor parameter `pageSize`. The constant
  `PAGE_SIZE` is defined in `src/store/constants`, which is not part of this
  model.
- The `Episode` type comes from `src/types`, which is not part of this model.
  Its fields here are the ones the component reads.

Two behaviours of the code are worth spelling out:

- Keyboard navigation finds the active item by comparing `link` only
  (line 63), while highlighting compares `guid` first (lines 146-150). So two
  displayed episodes without a link count as the same position: the lookup
  stops at the first of them. `Navigation.NavigateRight` states this for any
  first match. `Navigation.NavigateDistinctLinks` gives the successor and
  predecessor when links are distinct.
- An anchor's label is its `title`; only when the title is falsy does the
  first child, if it is a string, become the label (lines 23-27).

## Model

| member | source | states |
|---|---|---|
| Episodes.Insert | src/components/EpisodeList.tsx:54 | inserting one episode adds exactly that episode (multiset) and puts it first or keeps the old head first |
| Episodes.InsertSorted | src/components/EpisodeList.tsx:54 | inserting into an oldest-first sequence keeps it oldest first |
| Episodes.SortByPubDate | src/components/EpisodeList.tsx:54 | the sort result is a permutation of the input, of the same length, with non-decreasing timestamps |
| Episodes.TiesInsert | src/components/EpisodeList.tsx:54 | an inserted episode goes in front of its own tie group; no other tie group changes |
| Episodes.SortIsStable | src/components/EpisodeList.tsx:54 | for every timestamp, the episodes with that timestamp keep their input order (the sort is stable) |
| ListDerivation.Reverse | src/components/EpisodeList.tsx:55-57 | the reversal has the same length and item i is input item len-1-i |
| ListDerivation.ReverseReverse | src/components/EpisodeList.tsx:55-57 | reversing twice gives the input back |
| ListDerivation.ReversePermutes | src/components/EpisodeList.tsx:56 | reversal is a permutation |
| ListDerivation.TiesReverse | src/components/EpisodeList.tsx:56 | after reversal, each tie group comes in reversed order |
| ListDerivation.ReverseNonIncreasing | src/components/EpisodeList.tsx:55-57 | reversing an oldest-first list gives a newest-first list |
| ListDerivation.Ordered | src/components/EpisodeList.tsx:54-57 | the full ordering is a permutation of the episodes; oldest first when isAscend is false, newest first when it is true (tie order: OrderedTies) |
| ListDerivation.Derive | src/components/EpisodeList.tsx:54-59 | the displayed list has min(number of episodes, pageSize * page) items and is a prefix of the full ordering (more in the DeriveX lemmas) |
| ListDerivation.ShowsLoadMore | src/components/EpisodeList.tsx:185 | the button needs a non-empty collection, and with a positive page size it is gone before page reaches the number of episodes (its link to the displayed list: LoadMoreIffTruncated) |
| ListDerivation.DeriveIsPrefixOfPermutation | src/components/EpisodeList.tsx:54-59 | the displayed list is a prefix of the full ordering; the full ordering is a permutation of the episodes; so no episode appears more often than in the input |
| ListDerivation.DeriveOrdered | src/components/EpisodeList.tsx:54-59 | timestamps do not decrease when isAscend is false and do not increase when it is true |
| ListDerivation.OrderedTies | src/components/EpisodeList.tsx:54-57 | in the full ordering, ties keep input order when isAscend is false and come in reversed input order when it is true |
| ListDerivation.DeriveTies | src/components/EpisodeList.tsx:54-59 | each tie group in the displayed list is a prefix of that group in input order (isAscend false) or in reversed input order (isAscend true) |
| ListDerivation.NextPageExtends | src/components/EpisodeList.tsx:59 | the list for page + 1 extends the list for page as a prefix; it is strictly longer while "Load more" is shown and the page size is positive |
| ListDerivation.LoadMoreIffTruncated | src/components/EpisodeList.tsx:185 | "Load more" shows exactly when the displayed list is shorter than the collection; when it does not show, the whole ordering is displayed |
| ListDerivation.ToggleReverses | src/components/EpisodeList.tsx:54-57 | flipping isAscend reverses the whole ordering |
| ListDerivation.DeriveEmpty | src/components/EpisodeList.tsx:54-59 | an empty collection gives an empty displayed list |
| ListDerivation.NewestFirstExample | src/components/EpisodeList.tsx:54-59 | episodes published at timestamps 1, 3, 2 are shown as the second, third, first under the default flag |
| Navigation.FirstLinkMatch | src/components/EpisodeList.tsx:63 | position i is the least position whose link equals the given one (strict equality) |
| Navigation.FindIndexByLink | src/components/EpisodeList.tsx:63 | the result is the first position whose link equals the given one, or -1 exactly when there is none |
| Navigation.Navigate | src/components/EpisodeList.tsx:62-77 | the new active item is the old one or a displayed item; an existing selection changes only on ArrowRight or ArrowLeft |
| Navigation.NavigateFromNothing | src/components/EpisodeList.tsx:74-76 | with no active item, any key selects the first displayed item, or nothing when the list is empty |
| Navigation.NavigateRight | src/components/EpisodeList.tsx:67-68 | ArrowRight at first link match i < len-1 selects item i+1 |
| Navigation.NavigateLeft | src/components/EpisodeList.tsx:70-71 | ArrowLeft at first link match i > 0 selects item i-1 |
| Navigation.NavigateUnchanged | src/components/EpisodeList.tsx:65-73 | ArrowRight on the last item, ArrowLeft on the first, and every other key leave the selection unchanged |
| Navigation.NavigateNotFound | src/components/EpisodeList.tsx:66 | an active item whose link no displayed item has is left unchanged by every key |
| Navigation.NavigateDistinctLinks | src/components/EpisodeList.tsx:63-73 | with pairwise distinct links, the arrows move to the displayed successor or predecessor of a displayed item |
| Highlight.IsActive | src/components/EpisodeList.tsx:145-150 | a highlighted row shares a truthy guid or truthy link with the active item (so a row with neither is never highlighted); a row whose truthy guid differs from the active guid is not highlighted even if its link matches; the converse directions are `SameGuidHighlighted` and `LinkOnlyRowHighlightedWithActive` |
| Highlight.NothingActive | src/components/EpisodeList.tsx:145-150 | with no active item no row is highlighted |
| Highlight.ActiveRowHighlighted | src/components/EpisodeList.tsx:145-150 | the active item's own row is highlighted when it has a truthy guid or link |
| Highlight.SameGuidHighlighted | src/components/EpisodeList.tsx:146-147 | any row whose truthy guid equals the active item's guid is highlighted, even when it is a different (for example stale) copy of the episode |
| Highlight.LinkOnlyRowHighlightedWithActive | src/components/EpisodeList.tsx:148-149 | a row without a guid whose link equals the active item's link is highlighted together with the active row, so two rows can be highlighted at once |
| Highlight.AtMostOneHighlighted | src/components/EpisodeList.tsx:145-150 | when all rows have distinct truthy guids, at most one row is highlighted |
| MarkAnchor.AnchorLabel | src/components/EpisodeList.tsx:22-29 | the label is the title when it is truthy, else the first child when that is text; a truthy label is always one of those two |
| MarkAnchor.TitleLabelsEmptyAnchor | src/components/EpisodeList.tsx:22-29 | an anchor titled "Site" with no text child is labelled "Site" |
| View.EpisodeListView.constructor | src/components/EpisodeList.tsx:43-44 | the first render starts on page 1 with isAscend true (newest first) |
| View.EpisodeListView.Displayed | src/components/EpisodeList.tsx:54-59 | the list of the current render is a prefix of the ordering with min(number of episodes, pageSize * page) items, and is never empty for a non-empty collection and positive page size |
| View.EpisodeListView.RowHighlighted | src/components/EpisodeList.tsx:145-150 | a row is highlighted only when there is an active item, and the active item's own row is highlighted when it has a truthy guid or link |
| View.EpisodeListView.LoadMoreVisible | src/components/EpisodeList.tsx:185 | the button shows exactly when the displayed list is shorter than the collection |
| View.EpisodeListView.ToggleSort | src/components/EpisodeList.tsx:112 | flips isAscend, which reverses the ordering and displays the list for the flipped flag; page, episodes and selection do not change |
| View.ToggleSortTwice | src/components/EpisodeList.tsx:112 | pressing the sort button twice changes nothing: same displayed list, sort flag, page, episodes and selection |
| View.EpisodeListView.LoadMore | src/components/EpisodeList.tsx:191 | adds one page; the old displayed list is a prefix of the new one, and the new one is strictly longer when the page size is positive |
| View.EpisodeListView.KeyDown | src/components/EpisodeList.tsx:62-77 | the selection becomes the navigation result over the current displayed list (old selection or a displayed item); nothing else changes |
| View.EpisodeListView.Select | src/components/EpisodeList.tsx:167 | clicking a displayed row makes it active and highlights it when it has a truthy guid or link |
| View.EpisodeListView.ReceiveEpisodes | src/components/EpisodeList.tsx:32-42 | a new collection from the parent keeps page, sort flag and a possibly stale selection |

## Left out

- Rendering (lines 86-201): layout, theme, styling, images, the total count and the empty-state picture. This is toolkit glue with no logic of its own.
- Date parsing and formatting with dayjs (lines 54, 173). Timestamps are integers, so invalid dates, which dayjs turns into NaN keys, are not modelled.
- The HTML-to-Markdown conversion and the Markdown renderer (lines 20, 142-144, 175-180). These are library calls whose code is not visible. Only the anchor-label choice of `MarkAnchor` is modelled.
- The scroll-to-top effect (lines 48-52). It is a DOM side effect.
- Listener registration and removal (lines 78-84). The effect re-runs whenever the derived array is rebuilt, which happens on every render, so `KeyDown` is modelled as running over the displayed list and selection of the current state. React's effect scheduling is not modelled.
- The "mark all read" dispatch (line 119). It goes to an external store whose code is not part of this model.
- The `console.log` of the index (line 64). It is output only.
- Episodes.SortByPubDate: models what lodash `sortBy` returns (a stable ascending sort by one key), using insertion. It does not model lodash's own algorithm.
- View.EpisodeListView.LoadMore: requires that "Load more" is visible, because the button that calls it is rendered only then (line 185).
