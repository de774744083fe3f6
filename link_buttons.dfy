/** The row of link buttons under a card: one button per link, label and icon from a table. */
module LinkButtons {
  import opened Wrappers
  import opened Html

  datatype LinkType = ProjectPage | Paper | Arxiv | Slides | Video | Code | GitHub | Demo | Custom

  datatype Icon = Globe | FileText | BookOpen | Presentation | Play | Code2 | GithubMark | ExternalLink

  datatype LinkConfig = LinkConfig(icon: Icon, caption: string)

  /** A link; `caption` is the optional `label` that overrides the table's. */
  datatype LinkButtonItem = LinkButtonItem(kind: LinkType, url: string, caption: Option<string>)

  datatype Button = Button(anchor: Element, icon: Icon, caption: string)

  const FallbackCaption := "Link"

  /** `linkConfig`, which has an entry for every type but "custom". */
  function Config(kind: LinkType): (c: Option<LinkConfig>)
    ensures c.None? <==> kind == Custom
    ensures c.Some? ==> c.value.caption != FallbackCaption
  {
    match kind
    case ProjectPage => Some(LinkConfig(Globe, "Project Page"))
    case Paper => Some(LinkConfig(FileText, "Paper"))
    case Arxiv => Some(LinkConfig(BookOpen, "arXiv"))
    case Slides => Some(LinkConfig(Presentation, "Slides"))
    case Video => Some(LinkConfig(Play, "Video"))
    case Code => Some(LinkConfig(Code2, "Code"))
    case GitHub => Some(LinkConfig(GithubMark, "GitHub"))
    case Demo => Some(LinkConfig(ExternalLink, "Demo"))
    case Custom => None
  }

  /** One button: `link.label ?? config?.label ?? "Link"` and `config?.icon ?? ExternalLink`. */
  function RenderButton(link: LinkButtonItem): (b: Button)
    ensures b.anchor.Anchor? && b.anchor.href == link.url && OpensNewTab(b.anchor)
  {
    var config := Config(link.kind);
    var icon := if config.Some? then config.value.icon else ExternalLink;
    var caption := link.caption.GetOr(if config.Some? then config.value.caption else FallbackCaption);
    Button(Anchor(link.url, Some(Blank), Some(NoOpener)), icon, caption)
  }

  /**
   * Label resolution: a given label wins, even the empty string; otherwise
   * the table's label; "Link" only for a custom link without a label.
   * A custom link never consults the table and shows the external-link icon.
   */
  lemma CaptionResolution(link: LinkButtonItem)
    ensures link.caption.Some? ==> RenderButton(link).caption == link.caption.value
    ensures link.caption.None? && link.kind != Custom ==>
      RenderButton(link).caption == Config(link.kind).value.caption
    ensures link.caption.None? ==> (RenderButton(link).caption == FallbackCaption <==> link.kind == Custom)
    ensures link.kind == Custom ==> RenderButton(link).icon == ExternalLink
  {
  }

  /** An arXiv link without a label reads "arXiv". */
  lemma ArxivCaption(url: string)
    ensures RenderButton(LinkButtonItem(Arxiv, url, None)).caption == "arXiv"
  {
  }

  /**
   * `LinkButtons`: nothing for an absent or empty list; otherwise exactly
   * one button per link, in input order, each opening a new tab.
   */
  function Render(links: Option<seq<LinkButtonItem>>): (r: Option<seq<Button>>)
    ensures r.None? <==> links.None? || links.value == []
    ensures r.Some? ==> |r.value| == |links.value|
    ensures r.Some? ==> forall i :: 0 <= i < |r.value| ==>
      r.value[i] == RenderButton(links.value[i]) && r.value[i].anchor.href == links.value[i].url
  {
    if links.None? || links.value == [] then None
    else Some(seq(|links.value|, i requires 0 <= i < |links.value| => RenderButton(links.value[i])))
  }
}
