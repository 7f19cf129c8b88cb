/** The experience timeline page (src/app/experience/page.tsx): the
    experiences sorted by `order`, each with a connector line down to the
    next one, except the last. */
module ExperiencePage {
  import opened Sorting
  import opened Catalog
  import opened ExperienceSection

  /** One timeline row: the card's experience and whether the connector
      line is drawn below it. */
  datatype TimelineEntry = TimelineEntry(experience: Experience, connector: bool)

  /** `sortedExperiences.map((experience, index) => ...)` with the
      connector on `index !== sortedExperiences.length - 1`. */
  function Timeline(experiences: seq<Experience>): seq<TimelineEntry>
  {
    var sorted := SortedExperiences(experiences);
    seq(|sorted|, i requires 0 <= i < |sorted| => TimelineEntry(sorted[i], i != |sorted| - 1))
  }

  function EntryExperiences(entries: seq<TimelineEntry>): (es: seq<Experience>)
    ensures |es| == |entries| && forall i :: 0 <= i < |entries| ==> es[i] == entries[i].experience
  {
    seq(|entries|, i requires 0 <= i < |entries| => entries[i].experience)
  }

  /** The number of connector lines drawn. */
  function ConnectorCount(entries: seq<TimelineEntry>): nat
  {
    if entries == [] then 0
    else (if entries[0].connector then 1 else 0) + ConnectorCount(entries[1..])
  }

  /** A row list with connectors everywhere but the last row has one
      connector fewer than rows. */
  lemma {:induction false} ConnectorsButLast(entries: seq<TimelineEntry>)
    requires forall i :: 0 <= i < |entries| ==> entries[i].connector == (i != |entries| - 1)
    ensures ConnectorCount(entries) == if entries == [] then 0 else |entries| - 1
    decreases |entries|
  {
    if entries != [] {
      var rest := entries[1..];
      forall i | 0 <= i < |rest| ensures rest[i].connector == (i != |rest| - 1) {
        assert rest[i] == entries[i + 1];
      }
      ConnectorsButLast(rest);
    }
  }

  /** Every experience appears exactly as often as in the input, in
      non-decreasing `order`; the connector is drawn below every row but
      the last, so n - 1 connectors for n >= 1 rows and none for none. */
  lemma TimelineExact(experiences: seq<Experience>)
    ensures var t := Timeline(experiences);
      && |t| == |experiences|
      && multiset(EntryExperiences(t)) == multiset(experiences)
      && (forall i, j :: 0 <= i < j < |t| ==> t[i].experience.order <= t[j].experience.order)
      && (forall i :: 0 <= i < |t| ==> (t[i].connector <==> i != |t| - 1))
      && ConnectorCount(t) == if experiences == [] then 0 else |experiences| - 1
  {
    var t := Timeline(experiences);
    SortedExperiencesOrdered(experiences, 0);
    assert EntryExperiences(t) == SortedExperiences(experiences);
    ConnectorsButLast(t);
  }
}
