/** The project card (src/components/cards/ProjectCard.tsx): what the
    card shows for one project. */
module ProjectCard {
  import opened Wrappers
  import opened Seqs
  import opened Catalog
  import opened Utils

  /** How many technology badges and metric entries a card shows at most. */
  const MaxTechnologies: nat := 4
  const MaxMetrics: nat := 3

  /** A technology badge: its text and its class list. */
  datatype TechBadge = TechBadge(text: string, className: string)

  /** The link buttons, in the order the card lays them out. */
  datatype LinkButton = Code | Demo | Paper

  /** Everything the card derives from the project. */
  datatype ProjectCardView = ProjectCardView(
    placeholder: bool,
    featuredBadge: bool,
    technologies: seq<TechBadge>,
    overflow: Option<nat>,
    metrics: Option<seq<Metric>>,
    links: seq<LinkButton>)

  /** A JavaScript string that is present and not empty, so truthy. */
  predicate Truthy(s: Option<string>)
  {
    s.Some? && s.value != ""
  }

  /** One badge per technology, coloured by `getTechColor`. */
  function TechBadges(techs: seq<string>): (badges: seq<TechBadge>)
    ensures |badges| == |techs|
    ensures forall i :: 0 <= i < |techs| ==>
      badges[i].text == techs[i] && badges[i].className == "text-xs " + TechColor(techs[i])
  {
    seq(|techs|, i requires 0 <= i < |techs| => TechBadge(techs[i], "text-xs " + TechColor(techs[i])))
  }

  function Links(p: Project): (links: seq<LinkButton>)
    ensures Code in links <==> Truthy(p.github)
    ensures Demo in links <==> Truthy(p.demo)
    ensures Paper in links <==> Truthy(p.paper)
    ensures forall i, j :: 0 <= i < j < |links| ==> LinkPosition(links[i]) < LinkPosition(links[j])
  {
    (if Truthy(p.github) then [Code] else [])
    + (if Truthy(p.demo) then [Demo] else [])
    + (if Truthy(p.paper) then [Paper] else [])
  }

  function LinkPosition(b: LinkButton): nat
  {
    match b
    case Code => 0
    case Demo => 1
    case Paper => 2
  }

  /** The card for project `p`: an image unless `image` is missing or
      empty; the "Featured" badge exactly for featured projects; the first
      four technologies, then "+N more" exactly when there are more, with
      the shown badges and N adding up to the total; the first three
      metrics when the project has a metrics object at all; and one link
      button per present link. */
  function RenderProjectCard(p: Project): (v: ProjectCardView)
    ensures v.placeholder <==> p.image.None? || p.image.value == ""
    ensures v.featuredBadge <==> p.featured
    ensures |v.technologies| == Min(MaxTechnologies, |p.technologies|)
    ensures forall i :: 0 <= i < |v.technologies| ==> v.technologies[i].text == p.technologies[i]
    ensures v.overflow.Some? <==> |p.technologies| > MaxTechnologies
    ensures v.overflow.Some? ==> |v.technologies| + v.overflow.value == |p.technologies|
    ensures v.overflow.None? ==> |v.technologies| == |p.technologies|
    ensures v.metrics.Some? <==> p.metrics.Some?
    ensures v.metrics.Some? ==> |v.metrics.value| == Min(MaxMetrics, |p.metrics.value|)
    ensures v.metrics.Some? ==> v.metrics.value == p.metrics.value[..|v.metrics.value|]
    ensures v.links == Links(p)
  {
    var techs := p.technologies;
    ProjectCardView(
      !Truthy(p.image),
      p.featured,
      TechBadges(Take(techs, MaxTechnologies)),
      if |techs| > MaxTechnologies then Some(|techs| - MaxTechnologies) else None,
      match p.metrics
      case None => None
      case Some(ms) => Some(Take(ms, MaxMetrics)),
      Links(p))
  }
}
