/** `LinkableCard`: a card that is an anchor when it has a link and a div otherwise. */
module LinkableCard {
  import opened Wrappers
  import opened Js
  import opened Html

  /** The props; `unstyled` and `sameTab` default to false. */
  datatype Props = Props(link: Option<string>, className: string, unstyled: bool, sameTab: bool)

  function WithDefaults(link: Option<string>, className: string): (p: Props)
    ensures !p.unstyled && !p.sameTab && p.link == link && p.className == className
  {
    Props(link, className, false, false)
  }

  const Group := "group"
  const CursorPointer := "cursor-pointer"

  /** The default card styles, after `group`. */
  const CardStyles: seq<string> := [
    "block", "rounded-xl", "border", "bg-card", "transition-all", "duration-300",
    "hover:shadow-lg", "hover:shadow-primary/10", "hover:border-primary/40", "hover:-translate-y-1"]

  /** The class list, with an empty `className` dropped as `cn` drops it. */
  datatype Card = Card(element: Element, classes: seq<string>)

  function BaseClasses(className: string, unstyled: bool): seq<string> {
    [Group] + (if unstyled then [] else CardStyles) + (if className == "" then [] else [className])
  }

  /**
   * A truthy link gives an anchor to it, opening a new tab unless `sameTab`
   * (then neither target nor rel); an absent or empty link gives a div.
   * The classes are always `group` first, the card styles unless
   * `unstyled`, then `className`, and `cursor-pointer` on the anchor only.
   */
  function Render(props: Props): (c: Card)
    ensures c.element.Anchor? <==> StringTruthy(props.link)
    ensures c.element.Anchor? ==> c.element.href == props.link.value
    ensures c.element.Anchor? && !props.sameTab ==> OpensNewTab(c.element)
    ensures c.element.Anchor? && props.sameTab ==> c.element.target.None? && c.element.rel.None?
    ensures |c.classes| > 0 && c.classes[0] == Group
    ensures c.classes == BaseClasses(props.className, props.unstyled) + (if c.element.Anchor? then [CursorPointer] else [])
  {
    var base := BaseClasses(props.className, props.unstyled);
    if StringTruthy(props.link) then
      Card(Anchor(props.link.value,
                  if props.sameTab then None else Some(Blank),
                  if props.sameTab then None else Some(NoOpener)),
           base + [CursorPointer])
    else
      Card(Div, base)
  }

  /** Unstyled, a card carries no class but `group`, its `className` and, as an anchor, `cursor-pointer`. */
  lemma UnstyledAddsOnlyGroup(props: Props)
    requires props.unstyled
    ensures forall c :: c in Render(props).classes ==> c == Group || c == props.className || c == CursorPointer
  {
  }

  /** With the defaults, a card with a truthy link opens in a new tab. */
  lemma DefaultsOpenNewTab(link: string, className: string)
    requires link != ""
    ensures OpensNewTab(Render(WithDefaults(Some(link), className)).element)
  {
  }
}
