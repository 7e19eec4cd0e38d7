/** What a project card shows (src/components/molecules/ProjectCard.tsx):
    translation keys, the first technology badges with a "+N" overflow
    badge, the featured badge and the optional links. */
module ProjectCard {
  import opened Wrappers
  import opened ItemKeys
  import opened Text
  import opened Seqs

  /** The fields of a project the card reads; an absent URL is None. */
  datatype Project = Project(id: string, technologies: seq<string>, featured: bool,
                             liveUrl: Option<string>, githubUrl: Option<string>)

  /** The number of technology badges shown before the overflow badge. */
  const MaxBadges: nat := 4

  /** technologies.slice(0, 4). */
  function ShownTechnologies(techs: seq<string>): (r: seq<string>)
    ensures |r| <= MaxBadges
    ensures |r| == if |techs| < MaxBadges then |techs| else MaxBadges
    ensures r == techs[..|r|]
  {
    if |techs| <= MaxBadges then techs else techs[..MaxBadges]
  }

  /** The number on the "+N" badge, or None when the badge is not shown. */
  function Overflow(techs: seq<string>): (n: Option<nat>)
    ensures n.Some? <==> |techs| > MaxBadges
    ensures n.Some? ==> n.value >= 1
  {
    if |techs| > MaxBadges then Some(|techs| - MaxBadges) else None
  }

  /** The badges and the overflow count together account for every
      technology exactly once: shown + N = total. */
  lemma BadgesAccountForAll(techs: seq<string>)
    ensures |ShownTechnologies(techs)| + (match Overflow(techs) case Some(n) => n case None => 0) == |techs|
    ensures Overflow(techs).Some? ==> techs == ShownTechnologies(techs) + techs[MaxBadges..]
  {
  }

  /** A JavaScript string is truthy when it is present and not empty. */
  predicate Truthy(u: Option<string>) {
    u.Some? && u.value != ""
  }

  /** What the card renders. */
  datatype CardView = CardView(featuredBadge: bool, titleKey: string, descriptionKey: string,
                               badges: seq<string>, overflow: Option<nat>,
                               liveLink: Option<string>, codeLink: Option<string>)

  function Render(p: Project): (v: CardView)
    ensures v.featuredBadge <==> p.featured
    ensures v.liveLink.Some? <==> Truthy(p.liveUrl)
    ensures v.liveLink.Some? ==> v.liveLink == p.liveUrl
    ensures v.codeLink.Some? <==> Truthy(p.githubUrl)
    ensures v.codeLink.Some? ==> v.codeLink == p.githubUrl
    ensures v.titleKey == FieldKey(p.id, "title") && v.descriptionKey == FieldKey(p.id, "description")
    ensures '-' !in v.titleKey && '-' !in v.descriptionKey
    ensures v.badges == ShownTechnologies(p.technologies) && v.overflow == Overflow(p.technologies)
  {
    CardView(p.featured, FieldKey(p.id, "title"), FieldKey(p.id, "description"),
             ShownTechnologies(p.technologies), Overflow(p.technologies),
             if Truthy(p.liveUrl) then p.liveUrl else None,
             if Truthy(p.githubUrl) then p.githubUrl else None)
  }

  /** The title and description keys of a card share the hyphen-free id as
      their prefix and differ in the field name. */
  lemma CardKeys(p: Project)
    ensures var v := Render(p); var k := ItemKey(p.id);
            && v.titleKey == k + ".title"
            && v.descriptionKey == k + ".description"
            && v.titleKey != v.descriptionKey
  {
    var k := ItemKey(p.id);
    AppendAssoc(k, ".", "title");
    AppendAssoc(k, ".", "description");
    FieldKeysDiffer(p.id, "title", "description");
  }
}
