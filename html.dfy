/** The rendered element a card or button turns into, reduced to the attributes the components decide. */
module Html {
  import opened Wrappers

  const Blank := "_blank"
  const NoOpener := "noopener noreferrer"

  /**
   * An `<a>` with its `href`, `target` and `rel` (`None` when the attribute
   * is left `undefined`), or a plain `<div>`.
   */
  datatype Element =
    | Anchor(href: string, target: Option<string>, rel: Option<string>)
    | Div

  /** An anchor that opens in a new browsing context without an opener. */
  predicate OpensNewTab(e: Element) {
    e.Anchor? && e.target == Some(Blank) && e.rel == Some(NoOpener)
  }
}
