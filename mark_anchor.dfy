/** The label that the digest's Markdown renderer gives a link (`MarkAnchor`). */
module MarkAnchor {
  import opened Episodes

  /** A child of an anchor element as the Markdown renderer passes it: text or another element. */
  datatype Child = Text(text: string) | Element

  /**
   * The label of a digest link: the anchor's `title` when truthy, else its
   * first child when that is text, else the (falsy) title as it was.
   */
  function AnchorLabel(title: Option<string>, children: Option<seq<Child>>): (shown: Option<string>)
    ensures Truthy(title) ==> shown == title
    ensures !Truthy(title) && children.Some? && |children.value| > 0 && children.value[0].Text? ==>
      shown == Some(children.value[0].text)
    ensures Truthy(shown) ==>
      shown == title || (children.Some? && |children.value| > 0 && children.value[0] == Text(shown.value))
  {
    if Truthy(title) then title
    else if children.Some? && |children.value| > 0 && children.value[0].Text? then Some(children.value[0].text)
    else title
  }

  /** A link with a title and no text child is labelled with its title. */
  lemma TitleLabelsEmptyAnchor()
    ensures AnchorLabel(Some("Site"), Some([])) == Some("Site")
  {
  }
}
