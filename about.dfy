/**
 * The about section: social links that leave the page unless they are
 * `mailto:` links, and two independent show-more toggles over the research
 * interests (first 3) and the technical skills (first 4).
 */
module About {
  import opened Wrappers
  import opened Js
  import opened Html
  import opened ListView

  const CollapsedInterests := 3
  const CollapsedSkills := 4
  const MailtoScheme := "mailto:"
  const BlogLabel := "Blog"
  const BlogTooltip := "Korean only"

  datatype SocialLink = SocialLink(href: string, caption: string)

  /** A rendered social button: its anchor and, for the blog only, a tooltip. */
  datatype SocialButton = SocialButton(anchor: Element, tooltip: Option<string>)

  /**
   * A social link opens in a new tab with `rel=noopener noreferrer` exactly
   * when its href does not start with "mailto:"; otherwise it sets neither.
   * Only the link labelled "Blog" carries the "Korean only" tooltip.
   */
  function RenderSocial(link: SocialLink): (b: SocialButton)
    ensures b.anchor.Anchor? && b.anchor.href == link.href
    ensures OpensNewTab(b.anchor) <==> !StartsWith(link.href, MailtoScheme)
    ensures StartsWith(link.href, MailtoScheme) ==> b.anchor.target.None? && b.anchor.rel.None?
    ensures b.tooltip.Some? <==> link.caption == BlogLabel
  {
    var external := !StartsWith(link.href, MailtoScheme);
    SocialButton(
      Anchor(link.href, if external then Some(Blank) else None, if external then Some(NoOpener) else None),
      if link.caption == BlogLabel then Some(BlogTooltip) else None)
  }

  /** Every address written as a mailto: link stays in the current tab. */
  lemma MailtoStaysInTab(address: string, caption: string)
    ensures !OpensNewTab(RenderSocial(SocialLink(MailtoScheme + address, caption)).anchor)
  {
    assert (MailtoScheme + address)[..|MailtoScheme|] == MailtoScheme;
  }

  /** `displayedInterests` */
  function DisplayedInterests(interests: seq<string>, showAll: bool): seq<string> {
    ToggledView(interests, CollapsedInterests, showAll)
  }

  /** `displayedSkills` */
  function DisplayedSkills(skills: seq<string>, showAll: bool): seq<string> {
    ToggledView(skills, CollapsedSkills, showAll)
  }

  /**
   * Collapsed, the first 3 interests; expanded, all of them; the button
   * exists iff there are more than 3, that is iff expanding shows more.
   */
  lemma InterestsView(interests: seq<string>)
    ensures DisplayedInterests(interests, false) == interests[..Min(|interests|, CollapsedInterests)]
    ensures DisplayedInterests(interests, true) == interests
    ensures HasToggle(interests, CollapsedInterests) <==>
      DisplayedInterests(interests, false) != DisplayedInterests(interests, true)
  {
    PrefixViewContents(interests, CollapsedInterests);
    ToggleIffSomethingHidden(interests, CollapsedInterests);
  }

  /**
   * Collapsed, the first 4 skills; expanded, all of them; the button exists
   * iff there are more than 4, that is iff expanding shows more.
   */
  lemma SkillsView(skills: seq<string>)
    ensures DisplayedSkills(skills, false) == skills[..Min(|skills|, CollapsedSkills)]
    ensures DisplayedSkills(skills, true) == skills
    ensures HasToggle(skills, CollapsedSkills) <==>
      DisplayedSkills(skills, false) != DisplayedSkills(skills, true)
  {
    PrefixViewContents(skills, CollapsedSkills);
    ToggleIffSomethingHidden(skills, CollapsedSkills);
  }

  /** The `AboutSection` component's state: one flag per list. */
  class AboutSection {
    const interests: seq<string>
    const skills: seq<string>
    var showAllSkills: bool
    var showAllInterests: bool

    constructor (interests: seq<string>, skills: seq<string>)
      ensures this.interests == interests && this.skills == skills
      ensures !showAllSkills && !showAllInterests
    {
      this.interests, this.skills := interests, skills;
      showAllSkills, showAllInterests := false, false;
    }

    /** The interests button: flips its own flag and leaves the skills view alone. */
    method ToggleInterests()
      modifies this
      ensures showAllInterests == !old(showAllInterests)
      ensures showAllSkills == old(showAllSkills)
    {
      showAllInterests := !showAllInterests;
    }

    /** The skills button: flips its own flag and leaves the interests view alone. */
    method ToggleSkills()
      modifies this
      ensures showAllSkills == !old(showAllSkills)
      ensures showAllInterests == old(showAllInterests)
    {
      showAllSkills := !showAllSkills;
    }
  }
}
