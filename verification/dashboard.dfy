/**
  The dashboard: the links its cards navigate to, which the mentor and
  learning-path pages parse back, the whole-number statistics, and the slices
  of the seed it features.
 */
module Dashboard {
  import opened Common
  import opened Strings
  import opened Url
  import opened Data
  import opened MentorsPage
  import opened LearningPathsPage

  // ---------------------------------------------------------------------------
  // Links
  // ---------------------------------------------------------------------------

  /** `/mentors?mentor=${mentorId}`. */
  function MentorLink(mentorId: int): (r: string)
    ensures r == "/mentors?mentor=" + IntToString(mentorId)
  {
    Href("/mentors", [Param("mentor", IntToString(mentorId))])
  }

  /** `/learning-paths?path=${pathId}`. */
  function PathLink(pathId: int): (r: string)
    ensures r == "/learning-paths?path=" + IntToString(pathId)
  {
    Href("/learning-paths", [Param("path", IntToString(pathId))])
  }

  /** `/mentors?category=${categoryId}`. */
  function CategoryLink(categoryId: int): (r: string)
    ensures r == "/mentors?category=" + IntToString(categoryId)
  {
    Href("/mentors", [Param("category", IntToString(categoryId))])
  }

  /** A number's text holds neither `&` nor `=`, so a pair carrying it splits back apart. */
  lemma NumberParamPlain(name: string, n: int)
    requires '&' !in name && '=' !in name
    ensures PlainParam(Param(name, IntToString(n)))
  {
    var t := IntToString(n);
    assert forall i :: 0 <= i < |t| ==> t[i] != '&';
  }

  /**
    A link built from a number parses back to its page and a single pair whose
    value `parseInt` reads as that number.
   */
  lemma NumberLinkParses(path: string, name: string, n: int)
    requires '?' !in path && '&' !in name && '=' !in name
    ensures var loc := ParseHref(Href(path, [Param(name, IntToString(n))]));
      loc == Location(path, [Param(name, IntToString(n))]) &&
      Get(loc.params, name) == Some(IntToString(n)) &&
      ParseInt(Get(loc.params, name).value) == Some(n)
  {
    NumberParamPlain(name, n);
    HrefRoundTrip(path, [Param(name, IntToString(n))]);
    ParseIntOfIntToString(n);
  }

  lemma MentorLinkParses(mentorId: int)
    ensures var loc := ParseHref(MentorLink(mentorId));
      loc.pathname == "/mentors" && loc.params == [Param("mentor", IntToString(mentorId))] &&
      ParseInt(Get(loc.params, "mentor").value) == Some(mentorId)
  {
    NumberLinkParses("/mentors", "mentor", mentorId);
  }

  lemma PathLinkParses(pathId: int)
    ensures var loc := ParseHref(PathLink(pathId));
      loc.pathname == "/learning-paths" && loc.params == [Param("path", IntToString(pathId))] &&
      ParseInt(Get(loc.params, "path").value) == Some(pathId)
  {
    NumberLinkParses("/learning-paths", "path", pathId);
  }

  lemma CategoryLinkParses(categoryId: int)
    ensures var loc := ParseHref(CategoryLink(categoryId));
      loc.pathname == "/mentors" && loc.params == [Param("category", IntToString(categoryId))] &&
      ParseInt(Get(loc.params, "category").value) == Some(categoryId)
  {
    NumberLinkParses("/mentors", "category", categoryId);
  }

  predicate DistinctMentorIds(ms: seq<Mentor>) {
    forall i, j :: 0 <= i < j < |ms| ==> ms[i].id != ms[j].id
  }

  /** With distinct ids, looking up a mentor's own id finds that mentor. */
  lemma FindOwnId(ms: seq<Mentor>, m: Mentor)
    requires DistinctMentorIds(ms) && m in ms
    ensures FindMentor(ms, Some(m.id)) == Some(m)
  {
    var b :| 0 <= b < |ms| && ms[b] == m;
    var r := FindMentor(ms, Some(m.id));
    var a :| 0 <= a < |ms| && ms[a] == r.value;
    assert a == b;
  }

  /**
    Clicking a mentor card and landing on the mentor page opens the modal on
    that same mentor.
   */
  lemma MentorClickOpensModal(ms: seq<Mentor>, cats: seq<SkillCategory>, m: Mentor, v: View)
    requires DistinctMentorIds(ms) && m in ms
    requires v.params == ParseHref(MentorLink(m.id)).params
    ensures ApplyUrlParams(v, ms, cats).selected == Some(m)
    ensures ApplyUrlParams(v, ms, cats).modalOpen
  {
    MentorLinkParses(m.id);
    assert IntToString(m.id) != [];
    FindOwnId(ms, m);
    MentorParamOpensModal(v, ms, cats);
  }

  /** For every seeded mentor, its dashboard link opens the modal on it. */
  lemma SeedMentorLinksRoundTrip(v: View)
    ensures forall m :: m in Mentors && v.params == ParseHref(MentorLink(m.id)).params ==>
      ApplyUrlParams(v, Mentors, SkillCategories).selected == Some(m) &&
      ApplyUrlParams(v, Mentors, SkillCategories).modalOpen
  {
    SeedMentorIds();
    forall m | m in Mentors && v.params == ParseHref(MentorLink(m.id)).params
      ensures ApplyUrlParams(v, Mentors, SkillCategories).selected == Some(m) &&
              ApplyUrlParams(v, Mentors, SkillCategories).modalOpen
    {
      MentorClickOpensModal(Mentors, SkillCategories, m, v);
    }
  }

  /** Clicking a path card selects that path's id on the learning-path page, whatever was selected. */
  lemma PathClickSelects(pathId: int, selected: Selection)
    ensures ApplyPathParam(ParseHref(PathLink(pathId)).params, selected) == Some(pathId)
  {
    PathLinkParses(pathId);
    assert IntToString(pathId) != [];
  }

  /**
    A category link lands on the mentor page with its filters and its query
    exactly as they were: the rewrite puts back the value it read.
   */
  lemma CategoryClickChangesNothing(ms: seq<Mentor>, cats: seq<SkillCategory>, categoryId: int, v: View)
    requires v.params == ParseHref(CategoryLink(categoryId)).params
    ensures ApplyUrlParams(v, ms, cats).params == v.params
    ensures ApplyUrlParams(v, ms, cats).filters == v.filters
  {
    CategoryLinkParses(categoryId);
    var ps := v.params;
    assert Filter(ps, NameIs("category")) == [ps[0]] by {
      assert ps == [ps[0]];
      assert Filter(ps[1..], NameIs("category")) == [];
    }
    CategoryParamRewritesInPlace(v, ms, cats, "category");
    UrlParamsKeepFilters(v, ms, cats);
  }

  // ---------------------------------------------------------------------------
  // Statistics
  // ---------------------------------------------------------------------------

  /**
    "Total Mentors": as many as the mentor page lists with its default filters,
    and no filter settings can list more.
   */
  function TotalMentors(ms: seq<Mentor>): (r: nat)
    ensures r == |ms|
    ensures r == |FilteredMentors(ms, Defaults)|
    ensures forall f :: |FilteredMentors(ms, f)| <= r
  {
    DefaultsKeepEveryone(ms);
    |ms|
  }

  /** "Learning Paths": zero exactly when the path page can select no path by id. */
  function TotalPaths(paths: seq<LearningPath>): (r: nat)
    ensures r == |paths|
    ensures r == 0 <==> forall id :: FindPath(paths, id).None?
  {
    if paths != [] then
      assert FindPath(paths, paths[0].id).Some?;
      |paths|
    else |paths|
  }

  /** `mentors.reduce((sum, mentor) => sum + mentor.students, acc)`: a left fold. */
  function ReduceStudents(ms: seq<Mentor>, acc: int): (r: int)
    ensures r == acc + Students(ms)
  {
    if ms == [] then acc else ReduceStudents(ms[1..], acc + ms[0].students)
  }

  /** The students of every mentor, added up. */
  function Students(ms: seq<Mentor>): int {
    if ms == [] then 0 else ms[0].students + Students(ms[1..])
  }

  lemma {:induction false} StudentsConcat(xs: seq<Mentor>, ys: seq<Mentor>)
    ensures Students(xs + ys) == Students(xs) + Students(ys)
  {
    if xs == [] {
      assert xs + ys == ys;
    } else {
      assert (xs + ys)[1..] == xs[1..] + ys;
      StudentsConcat(xs[1..], ys);
    }
  }

  lemma StudentsOfSeven(a: Mentor, b: Mentor, c: Mentor, d: Mentor, e: Mentor, f: Mentor, g: Mentor)
    ensures Students([a, b, c, d, e, f, g]) ==
      a.students + b.students + c.students + d.students + e.students + f.students + g.students
  {
    var xs := [a, b, c, d, e, f, g];
    assert Students(xs[6..]) == g.students by { assert xs[6..][1..] == []; }
    assert Students(xs[5..]) == f.students + Students(xs[6..]) by { assert xs[5..][1..] == xs[6..]; }
    assert Students(xs[4..]) == e.students + Students(xs[5..]) by { assert xs[4..][1..] == xs[5..]; }
    assert Students(xs[3..]) == d.students + Students(xs[4..]) by { assert xs[3..][1..] == xs[4..]; }
    assert Students(xs[2..]) == c.students + Students(xs[3..]) by { assert xs[2..][1..] == xs[3..]; }
    assert Students(xs[1..]) == b.students + Students(xs[2..]) by { assert xs[1..][1..] == xs[2..]; }
  }

  /** The seed has 7 mentors, 4 paths and 677 students in all. */
  lemma SeedStats()
    ensures TotalMentors(Mentors) == 7 && TotalPaths(LearningPaths) == 4
    ensures ReduceStudents(Mentors, 0) == 677
  {
    StudentsOfSeven(Marcus, Priya, Alex, Emily, David, Lisa, James);
  }

  // ---------------------------------------------------------------------------
  // Featured slices
  // ---------------------------------------------------------------------------

  /** The first three mentors, the first three paths and the first four categories. */
  function FeaturedMentors(ms: seq<Mentor>): (r: seq<Mentor>)
    ensures |r| == Min(3, |ms|) && r <= ms
  {
    Take(ms, 3)
  }

  function PopularPaths(paths: seq<LearningPath>): (r: seq<LearningPath>)
    ensures |r| == Min(3, |paths|) && r <= paths
  {
    Take(paths, 3)
  }

  function ShownCategories(cats: seq<SkillCategory>): (r: seq<SkillCategory>)
    ensures |r| == Min(4, |cats|) && r <= cats
  {
    Take(cats, 4)
  }

  /** A featured mentor card shows two skills and a "+k" badge for the rest. */
  lemma FeaturedSkillsCover(m: Mentor)
    ensures |Take(m.skills, 2)| + (match OverflowBadge(|m.skills|, 2) case Some(k) => k case None => 0) == |m.skills|
    ensures OverflowBadge(|m.skills|, 2).Some? <==> |m.skills| > 2
  {
    TakeAndBadgeCoverList(m.skills, 2);
  }

  /** On the seed: Marcus, Priya and Alex, and paths 1 to 3 with 1, 2 and 1 mentors. */
  lemma SeedFeatured()
    ensures FeaturedMentors(Mentors) == [Marcus, Priya, Alex]
    ensures PopularPaths(LearningPaths) == [FrontendPath, FullStackPath, DataPath]
    ensures |FrontendPath.mentors| == 1 && |FullStackPath.mentors| == 2 && |DataPath.mentors| == 1
  {
    assert Mentors[..3] == [Marcus, Priya, Alex];
    assert LearningPaths[..3] == [FrontendPath, FullStackPath, DataPath];
  }

  /** The first four categories, ids 1 to 4, are the ones shown. */
  lemma SeedShownCategories()
    ensures ShownCategories(SkillCategories) == SkillCategories[..4]
    ensures forall k :: 0 <= k < 4 ==> ShownCategories(SkillCategories)[k].id == k + 1
  {
    SeedCategoryCounts();
  }

  /**
    Clicking one of the popular path cards highlights that card alone on the
    learning-path page.
   */
  lemma PopularPathClickHighlights(k: nat)
    requires k < |PopularPaths(LearningPaths)|
    ensures var sel := ApplyPathParam(ParseHref(PathLink(PopularPaths(LearningPaths)[k].id)).params, None);
      forall i :: 0 <= i < |LearningPaths| ==> (Highlighted(sel, LearningPaths[i]) <==> i == k)
  {
    SeedPathShape();
    var p := PopularPaths(LearningPaths)[k];
    assert p == LearningPaths[k];
    PathClickSelects(p.id, None);
  }
}
