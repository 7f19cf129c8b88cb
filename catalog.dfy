/** The records the site renders (the shapes of src/types/index.ts), with
    every field that some modelled rule reads. Dates are given already
    parsed; numbers are integers. */
module Catalog {
  import opened Wrappers

  /** A calendar month as `Date` reports it: full year and 0-based month. */
  datatype YearMonth = YearMonth(year: int, month: int)

  /** One entry of a project's `metrics` object, in `Object.entries` order. */
  datatype Metric = Metric(key: string, value: real)

  datatype Project = Project(
    id: string,
    title: string,
    shortDescription: string,
    category: string,
    technologies: seq<string>,
    image: Option<string>,
    github: Option<string>,
    demo: Option<string>,
    paper: Option<string>,
    metrics: Option<seq<Metric>>,
    featured: bool,
    order: int)

  datatype Experience = Experience(
    id: string,
    title: string,
    company: string,
    startDate: YearMonth,
    endDate: Option<YearMonth>,
    current: bool,
    responsibilities: seq<string>,
    technologies: seq<string>,
    featured: bool,
    order: int)

  datatype BlogPost = BlogPost(
    id: string,
    title: string,
    excerpt: string,
    tags: seq<string>,
    featured: bool)

  datatype SkillLevel = Beginner | Intermediate | Advanced | Expert

  /** `yearsOfExperience` is optional (`undefined` when absent). */
  datatype Skill = Skill(name: string, level: SkillLevel, yearsOfExperience: Option<int>)

  /** `order` is optional (`undefined` when absent). */
  datatype SkillCategory = SkillCategory(name: string, skills: seq<Skill>, order: Option<int>)
}
