/**
  The mentor browser. The page keeps a search term, a skill selection, an
  availability filter and a sort key; the visible list is the stable sort of
  the seed mentors that pass all three filters. Deep links carrying `mentor`
  open the connection modal for that mentor; the `category` branch only
  rewrites the parameter it read.
 */
module MentorsPage {
  import opened Common
  import opened Strings
  import opened Url
  import opened Data
  import opened StableSort
  import opened MentorSort

  /** The filter state: search term, selected skills, availability and sort key. */
  datatype Filters = Filters(searchTerm: string, selectedSkills: seq<string>, availability: string, sortBy: string)

  /** The initial state, which is also what `clearFilters` restores. */
  const Defaults: Filters := Filters("", [], "all", "rating")

  // ---------------------------------------------------------------------------
  // The three filters
  // ---------------------------------------------------------------------------

  /** Some item of `items`, lower-cased, contains `needle`. */
  predicate SomeIncludes(items: seq<string>, needle: string) {
    exists i :: 0 <= i < |items| && Includes(Lower(items[i]), needle)
  }

  /**
    The lower-cased term occurs in the lower-cased name, title or company, or in
    some lower-cased skill. The term is not trimmed.
   */
  function MatchesSearch(m: Mentor, term: string): (r: bool)
    ensures term == [] ==> r
  {
    var t := Lower(term);
    IncludesEmpty(Lower(m.name));
    Includes(Lower(m.name), t) || Includes(Lower(m.title), t) || Includes(Lower(m.company), t) ||
    SomeIncludes(m.skills, t)
  }

  /** `t` sits at some position of the lower-cased `s`. */
  ghost predicate OccursLower(s: string, t: string) {
    exists i :: OccursAt(Lower(s), t, i)
  }

  /**
    Against the slice-based reading of `includes`: the search matches exactly
    when the lower-cased term sits at some position of the lower-cased name,
    title or company, or of some lower-cased skill.
   */
  lemma MatchesSearchIff(m: Mentor, term: string)
    ensures MatchesSearch(m, term) <==>
      OccursLower(m.name, Lower(term)) || OccursLower(m.title, Lower(term)) ||
      OccursLower(m.company, Lower(term)) ||
      exists k :: 0 <= k < |m.skills| && OccursLower(m.skills[k], Lower(term))
  {
    var t := Lower(term);
    IncludesIffOccurs(Lower(m.name), t);
    IncludesIffOccurs(Lower(m.title), t);
    IncludesIffOccurs(Lower(m.company), t);
    SomeIncludesIff(m.skills, t);
  }

  lemma {:induction false} SomeIncludesIff(items: seq<string>, t: string)
    ensures SomeIncludes(items, t) <==> exists k :: 0 <= k < |items| && OccursLower(items[k], t)
  {
    if SomeIncludes(items, t) {
      var k :| 0 <= k < |items| && Includes(Lower(items[k]), t);
      IncludesIffOccurs(Lower(items[k]), t);
      assert OccursLower(items[k], t);
    }
    if exists k :: 0 <= k < |items| && OccursLower(items[k], t) {
      var k :| 0 <= k < |items| && OccursLower(items[k], t);
      IncludesIffOccurs(Lower(items[k]), t);
      assert Includes(Lower(items[k]), t);
    }
  }

  /** No selection, or some selected skill is, exactly, one of the mentor's skills. */
  function MatchesSkills(m: Mentor, selected: seq<string>): (r: bool)
    ensures r <==> selected == [] || exists i :: 0 <= i < |selected| && selected[i] in m.skills
  {
    IntersectsIff(selected, m.skills);
    selected == [] || Intersects(selected, m.skills)
  }

  /** `'all'`, or the availability equals the filter up to letter case. */
  function MatchesAvailability(m: Mentor, filter: string): (r: bool)
    ensures filter == "all" ==> r
    ensures r && filter != "all" ==> |m.availability| == |filter|
    ensures m.availability == filter ==> r
    ensures filter != "all" ==> (r <==> Lower(m.availability) == Lower(filter))
    ensures filter != "all" ==>
      (r <==> |m.availability| == |filter| && forall i :: 0 <= i < |filter| ==> LowerChar(m.availability[i]) == LowerChar(filter[i]))
  {
    filter == "all" || Lower(m.availability) == Lower(filter)
  }

  /** The option value "available" matches the seed's spelling "Available", and "limited" does not. */
  lemma AvailableOption(m: Mentor)
    requires m.availability == "Available"
    ensures MatchesAvailability(m, "available") && !MatchesAvailability(m, "limited")
  {
    assert forall i :: 0 <= i < 9 ==> LowerChar(m.availability[i]) == LowerChar("available"[i]);
  }

  /** The option value "limited" matches the seed's spelling "Limited", and "available" does not. */
  lemma LimitedOption(m: Mentor)
    requires m.availability == "Limited"
    ensures MatchesAvailability(m, "limited") && !MatchesAvailability(m, "available")
  {
    assert forall i :: 0 <= i < 7 ==> LowerChar(m.availability[i]) == LowerChar("limited"[i]);
  }

  /**
    Where every availability is spelled "Available" or "Limited", choosing the
    lower-case option alone keeps exactly the mentors with that spelling.
   */
  lemma AvailabilityOptions(ms: seq<Mentor>)
    requires forall m :: m in ms ==> m.availability == "Available" || m.availability == "Limited"
    ensures Filter(ms, Keeps(Defaults.(availability := "available"))) == Filter(ms, HasAvailability("Available"))
    ensures Filter(ms, Keeps(Defaults.(availability := "limited"))) == Filter(ms, HasAvailability("Limited"))
  {
    var p := Keeps(Defaults.(availability := "available"));
    var q := Keeps(Defaults.(availability := "limited"));
    forall m | m in ms
      ensures p(m) == HasAvailability("Available")(m) && q(m) == HasAvailability("Limited")(m)
    {
      if m.availability == "Available" {
        AvailableOption(m);
      } else {
        LimitedOption(m);
      }
    }
    FilterSame(ms, p, HasAvailability("Available"));
    FilterSame(ms, q, HasAvailability("Limited"));
  }

  /**
    On the seed, the select's "available" option keeps exactly the five
    mentors whose availability reads "Available", and "limited" exactly the two
    that read "Limited".
   */
  lemma SeedAvailabilityOptions()
    ensures Filter(Mentors, Keeps(Defaults.(availability := "available"))) == [Marcus, Alex, Emily, David, James]
    ensures Filter(Mentors, Keeps(Defaults.(availability := "limited"))) == [Priya, Lisa]
  {
    SeedAvailability();
    AvailabilityOptions(Mentors);
    SeedAvailableSpelling();
    SeedLimitedSpelling();
  }

  /** The predicate `mentors.filter` applies. */
  function Keeps(f: Filters): Mentor -> bool {
    (m: Mentor) => MatchesSearch(m, f.searchTerm) && MatchesSkills(m, f.selectedSkills) &&
      MatchesAvailability(m, f.availability)
  }

  /**
    `filteredMentors`: the mentors passing every filter, each as often as it is
    listed, sorted by the key. The "Showing X of Y" line can therefore never
    show X above Y.
   */
  function FilteredMentors(ms: seq<Mentor>, f: Filters): (r: seq<Mentor>)
    ensures |r| <= |ms|
    ensures forall m :: m in r <==> m in ms && Keeps(f)(m)
    ensures multiset(r) == multiset(Filter(ms, Keeps(f)))
    ensures forall m :: multiset(r)[m] == if Keeps(f)(m) then multiset(ms)[m] else 0
  {
    var kept := Filter(ms, Keeps(f));
    FilterCounts(ms, Keeps(f));
    var r := SortMentors(f.sortBy, kept);
    assert forall m :: m in r <==> m in multiset(kept);
    r
  }

  /**
    The visible list is ordered by the comparator for the key; with an
    unrecognised key it is the in-order subsequence of passing mentors itself.
   */
  lemma FilteredMentorsOrder(ms: seq<Mentor>, f: Filters)
    requires KeyOf(f.sortBy) == Experience ==> ExperienceParses(Members(ms))
    ensures Sorted(Comparator(KeyOf(f.sortBy)), FilteredMentors(ms, f))
    ensures KeyOf(f.sortBy) == Other ==> FilteredMentors(ms, f) == Filter(ms, Keeps(f))
  {
    var kept := Filter(ms, Keeps(f));
    var key := KeyOf(f.sortBy);
    if key == Other {
      SortAllTied(Comparator(key), kept);
    } else {
      if key == Experience {
        assert ExperienceParses(Members(kept));
      }
      KnownKeysConsistent(key, Members(kept));
      SortSorted(Comparator(key), kept, Members(kept));
    }
  }

  /** Mentors the key ties appear in the visible list in seed order. */
  lemma FilteredMentorsStable(ms: seq<Mentor>, f: Filters, p: Mentor)
    requires p in ms && Keeps(f)(p)
    requires KeyOf(f.sortBy) == Experience ==> ExperienceParses(Members(ms))
    ensures Filter(FilteredMentors(ms, f), TiedWith(Comparator(KeyOf(f.sortBy)), p)) ==
            Filter(Filter(ms, Keeps(f)), TiedWith(Comparator(KeyOf(f.sortBy)), p))
  {
    var kept := Filter(ms, Keeps(f));
    if KeyOf(f.sortBy) == Experience {
      assert ExperienceParses(Members(kept));
    }
    SortMentorsStable(f.sortBy, kept, p);
  }

  /** The defaults that `clearFilters` restores let every mentor through. */
  lemma DefaultsKeepEveryone(ms: seq<Mentor>)
    ensures Filter(ms, Keeps(Defaults)) == ms
    ensures FilteredMentors(ms, Defaults) == SortMentors("rating", ms)
  {
    FilterKeepsAll(ms, Keeps(Defaults));
  }

  /** The search ignores the letter case of the term. */
  lemma SearchIgnoresCase(m: Mentor, term: string)
    ensures MatchesSearch(m, term) <==> MatchesSearch(m, Lower(term))
  {
    LowerIdempotent(term);
  }

  /** A term with a trailing space fails where the trimmed term matches. */
  lemma SearchIsNotTrimmed()
    ensures var m := Mentor(0, "Ann", "", "", [], "Available", 0, 0, "", "", "", [], []);
      MatchesSearch(m, "Ann") && !MatchesSearch(m, "Ann ")
  {
    var m := Mentor(0, "Ann", "", "", [], "Available", 0, 0, "", "", "", [], []);
    assert Lower("Ann") == "ann";
    assert Lower("Ann ") == "ann ";
    assert StartsWith("ann", "ann");
    assert !Includes("", "ann ");
    assert !Includes("ann", "ann ") by {
      assert !StartsWith("ann", "ann ");
      assert !Includes("nn", "ann ") by {
        assert !Includes("n", "ann ") by {
          assert !Includes("", "ann ");
        }
      }
    }
  }

  // ---------------------------------------------------------------------------
  // The skill selection
  // ---------------------------------------------------------------------------

  /** `toggleSkill`: drop every copy of a selected skill, or append an unselected one. */
  function ToggleSkill(selected: seq<string>, skill: string): (r: seq<string>)
    ensures skill in r <==> skill !in selected
    ensures forall s :: s != skill ==> (s in r <==> s in selected)
  {
    if skill in selected then Filter(selected, NotEq(skill)) else selected + [skill]
  }

  /** The selection never holds a skill twice. */
  lemma ToggleKeepsNoDup(selected: seq<string>, skill: string)
    requires NoDup(selected)
    ensures NoDup(ToggleSkill(selected, skill))
  {
    if skill in selected {
      FilterNoDup(selected, NotEq(skill));
    } else {
      var r := selected + [skill];
      forall i, j | 0 <= i < j < |r| ensures r[i] != r[j] {
        if j == |selected| {
          assert r[i] == selected[i];
        } else {
          assert r[i] == selected[i] && r[j] == selected[j];
        }
      }
    }
  }

  /** Toggling an unselected skill twice gives back the original selection. */
  lemma ToggleTwice(selected: seq<string>, skill: string)
    requires skill !in selected
    ensures ToggleSkill(ToggleSkill(selected, skill), skill) == selected
  {
    FilterConcat(selected, [skill], NotEq(skill));
    FilterKeepsAll(selected, NotEq(skill));
  }

  /** The clear button shows when a search, a skill or an availability filter is set. */
  function ShowClear(f: Filters): (r: bool)
    ensures !r ==> forall m :: Keeps(f)(m)
  {
    f.searchTerm != [] || |f.selectedSkills| > 0 || f.availability != "all"
  }

  /** A hidden clear button means no filter removes anyone, and the defaults hide it. */
  lemma HiddenClearKeepsEveryone(ms: seq<Mentor>, f: Filters)
    requires !ShowClear(f)
    ensures Filter(ms, Keeps(f)) == ms
    ensures !ShowClear(Defaults)
  {
    FilterKeepsAll(ms, Keeps(f));
  }

  // ---------------------------------------------------------------------------
  // The skill chips
  // ---------------------------------------------------------------------------

  /** Every skill of every mentor, in seed order, repeats included. */
  function SkillsOf(ms: seq<Mentor>): (r: seq<string>)
    ensures forall s :: s in r <==> exists m :: m in ms && s in m.skills
  {
    if ms == [] then []
    else
      var rest := SkillsOf(ms[1..]);
      assert forall m :: m in ms <==> m == ms[0] || m in ms[1..];
      ms[0].skills + rest
  }

  /** Adding `xs` to the insertion-ordered set `acc`, as `Set.add` does. */
  function AddAll(acc: seq<string>, xs: seq<string>): (r: seq<string>)
    requires NoDup(acc)
    ensures NoDup(r)
    ensures forall s :: s in r <==> s in acc || s in xs
    decreases |xs|
  {
    if xs == [] then acc
    else if xs[0] in acc then AddAll(acc, xs[1..])
    else
      var next := acc + [xs[0]];
      assert NoDup(next) by {
        forall i, j | 0 <= i < j < |next| ensures next[i] != next[j] {
          if j == |acc| {
            assert next[i] == acc[i];
          } else {
            assert next[i] == acc[i] && next[j] == acc[j];
          }
        }
      }
      AddAll(next, xs[1..])
  }

  /**
    The default string order of `Array.prototype.sort`, taken by code point:
    the same as its UTF-16 code-unit order within the Basic Multilingual Plane.
   */
  function StringOrder(): (string, string) -> int {
    (a: string, b: string) => LexCompare(a, b)
  }

  /** `allSkills`: the distinct skills of the mentors, sorted. */
  function AllSkills(ms: seq<Mentor>): seq<string> {
    Sort(StringOrder(), AddAll([], SkillsOf(ms)))
  }

  lemma StringOrderTotal(xs: seq<string>)
    ensures TotalOn(StringOrder(), Members(xs))
  {
    var cmp := StringOrder();
    forall a, b | a in Members(xs) && b in Members(xs) ensures InOrder(cmp, a, b) || InOrder(cmp, b, a) {
      LexCompareAntisymmetric(a, b);
    }
  }

  lemma StringOrderTiesEqual(xs: seq<string>)
    ensures forall a, b :: a in xs && b in xs && StringOrder()(a, b) == 0 ==> a == b
  {
    forall a, b | a in xs && b in xs && StringOrder()(a, b) == 0 ensures a == b {
      LexCompareZeroIffEqual(a, b);
    }
  }

  /** `allSkills` holds each mentor skill exactly once, in strictly increasing order. */
  lemma AllSkillsSpec(ms: seq<Mentor>)
    ensures var r := AllSkills(ms);
      NoDup(r) &&
      (forall s :: s in r <==> exists m :: m in ms && s in m.skills) &&
      (forall i :: 0 <= i < |r| - 1 ==> LexLess(r[i], r[i + 1]))
  {
    var xs := AddAll([], SkillsOf(ms));
    StringOrderTotal(xs);
    StringOrderTiesEqual(xs);
    SortStrict(StringOrder(), xs);
    var r := AllSkills(ms);
    assert r == Sort(StringOrder(), xs);
    forall s ensures s in r <==> s in xs {
      assert s in r <==> s in multiset(r);
      assert s in xs <==> s in multiset(xs);
    }
  }

  /** The first eight chips plus the "+k more" badge account for every skill. */
  lemma SkillChipsCover(ms: seq<Mentor>)
    ensures var all := AllSkills(ms);
      |Take(all, 8)| + (match OverflowBadge(|all|, 8) case Some(k) => k case None => 0) == |all|
  {
    TakeAndBadgeCoverList(AllSkills(ms), 8);
  }

  /** On a card, the first four skills plus the "+k" badge account for every skill. */
  lemma CardSkillsCover(m: Mentor)
    ensures |Take(m.skills, 4)| + (match OverflowBadge(|m.skills|, 4) case Some(k) => k case None => 0) == |m.skills|
    ensures OverflowBadge(|m.skills|, 4).Some? <==> |m.skills| > 4
  {
    TakeAndBadgeCoverList(m.skills, 4);
  }

  // ---------------------------------------------------------------------------
  // The page state and the deep-link effect
  // ---------------------------------------------------------------------------

  /** What the page holds besides the seed: filters, the modal, and the query. */
  datatype View = View(filters: Filters, selected: Option<Mentor>, modalOpen: bool, params: seq<Param>)

  function MentorId(): Mentor -> int {
    (m: Mentor) => m.id
  }

  function CategoryId(): SkillCategory -> int {
    (c: SkillCategory) => c.id
  }

  /** `mentors.find(m => m.id === id)`, where a NaN id equals nothing. */
  function FindMentor(ms: seq<Mentor>, id: Option<int>): (r: Option<Mentor>)
    ensures r.Some? <==> id.Some? && exists i :: 0 <= i < |ms| && ms[i].id == id.value
    ensures r.Some? ==> r.value in ms && r.value.id == id.value
  {
    if id.None? then None else Find(ms, MentorId(), id.value)
  }

  /** `skillCategories.find(c => c.id === id)`, where a NaN id equals nothing. */
  function FindCategory(cats: seq<SkillCategory>, id: Option<int>): (r: Option<SkillCategory>)
    ensures r.Some? <==> id.Some? && exists i :: 0 <= i < |cats| && cats[i].id == id.value
    ensures r.Some? ==> r.value in cats && r.value.id == id.value
  {
    if id.None? then None else Find(cats, CategoryId(), id.value)
  }

  /** The lower-cased category name, or `''` when no category has the id. */
  function CategoryNeedle(cats: seq<SkillCategory>, id: Option<int>): string {
    match FindCategory(cats, id)
    case Some(c) => Lower(c.name)
    case None => ""
  }

  /** Some skill of the mentor, lower-cased, contains the needle. */
  function MentionsNeedle(needle: string): Mentor -> bool {
    (m: Mentor) => SomeIncludes(m.skills, needle)
  }

  /** The `mentor` branch: a matching id selects that mentor and opens the modal. */
  function ApplyMentorParam(v: View, ms: seq<Mentor>): (r: View)
    ensures r.filters == v.filters && r.params == v.params
    ensures r.selected != v.selected || r.modalOpen != v.modalOpen ==>
      r.modalOpen && r.selected.Some? && r.selected.value in ms
  {
    match Get(v.params, "mentor")
    case Some(text) =>
      if text == [] then v
      else
        (match FindMentor(ms, ParseInt(text))
         case Some(m) => v.(selected := Some(m), modalOpen := true)
         case None => v)
    case None => v
  }

  /**
    The `category` branch: when some mentor's skill mentions the category's
    name, the query is rewritten with `category` set to the text it held.
   */
  function ApplyCategoryParam(v: View, ms: seq<Mentor>, cats: seq<SkillCategory>): (r: View)
    ensures r.filters == v.filters && r.selected == v.selected && r.modalOpen == v.modalOpen
    ensures r.params != v.params ==>
      Get(v.params, "category").Some? && r.params == Set(v.params, "category", Get(v.params, "category").value)
    ensures Get(r.params, "category") == Get(v.params, "category")
  {
    match Get(v.params, "category")
    case Some(text) =>
      if text != [] && |Filter(ms, MentionsNeedle(CategoryNeedle(cats, ParseInt(text))))| > 0 then
        v.(params := Set(v.params, "category", text))
      else v
    case None => v
  }

  /** The effect that runs when the query changes. */
  function ApplyUrlParams(v: View, ms: seq<Mentor>, cats: seq<SkillCategory>): (r: View)
    ensures r.filters == v.filters
    ensures Get(r.params, "mentor") == Get(v.params, "mentor")
    ensures Get(r.params, "category") == Get(v.params, "category")
  {
    var w := ApplyMentorParam(v, ms);
    var r := ApplyCategoryParam(w, ms, cats);
    if r.params == w.params then r
    else
      SetKeepsOtherNames(w.params, "category", Get(w.params, "category").value, "mentor");
      r
  }

  /**
    The modal opens, on that mentor, exactly when `parseInt` of a non-empty
    `mentor` value is the id of a mentor; otherwise the selection and the modal
    are as they were.
   */
  lemma MentorParamOpensModal(v: View, ms: seq<Mentor>, cats: seq<SkillCategory>)
    ensures var r := ApplyUrlParams(v, ms, cats);
      var g := Get(v.params, "mentor");
      var opens := g.Some? && g.value != [] && FindMentor(ms, ParseInt(g.value)).Some?;
      (opens ==> r.modalOpen && r.selected == FindMentor(ms, ParseInt(g.value)) &&
                 r.selected.value in ms && Some(r.selected.value.id) == ParseInt(g.value)) &&
      (!opens ==> r.modalOpen == v.modalOpen && r.selected == v.selected)
  {
  }

  /** The effect never touches the filters, so `filteredMentors` does not depend on it. */
  lemma UrlParamsKeepFilters(v: View, ms: seq<Mentor>, cats: seq<SkillCategory>)
    ensures ApplyUrlParams(v, ms, cats).filters == v.filters
    ensures FilteredMentors(ms, ApplyUrlParams(v, ms, cats).filters) == FilteredMentors(ms, v.filters)
  {
  }

  /**
    Setting `category` to the value `get` already reads keeps what `get` reads
    for every name and every pair of another name; with one `category` pair it
    changes nothing.
   */
  lemma SetCategoryInPlace(ps: seq<Param>, text: string, name: string)
    requires Get(ps, "category") == Some(text)
    ensures Get(Set(ps, "category", text), name) == Get(ps, name)
    ensures Filter(Set(ps, "category", text), NameIsNot("category")) == Filter(ps, NameIsNot("category"))
    ensures Count(ps, NameIs("category")) <= 1 ==> Set(ps, "category", text) == ps
  {
    if name != "category" {
      SetKeepsOtherNames(ps, "category", text, name);
    }
    if Count(ps, NameIs("category")) <= 1 {
      assert Param("category", text) in ps;
      assert Param("category", text) in Filter(ps, NameIs("category"));
      SetCurrentValueIsIdentity(ps, "category");
    }
  }

  /**
    The `category` rewrite keeps what `get` reads for every name and every pair
    of another name; with at most one `category` pair it changes nothing.
   */
  lemma CategoryParamRewritesInPlace(v: View, ms: seq<Mentor>, cats: seq<SkillCategory>, name: string)
    ensures var r := ApplyUrlParams(v, ms, cats);
      Get(r.params, name) == Get(v.params, name) &&
      Filter(r.params, NameIsNot("category")) == Filter(v.params, NameIsNot("category")) &&
      (Count(v.params, NameIs("category")) <= 1 ==> r.params == v.params)
  {
    var w := ApplyMentorParam(v, ms);
    assert w.params == v.params;
    var g := Get(v.params, "category");
    if g.Some? {
      SetCategoryInPlace(v.params, g.value, name);
    } else {
      assert ApplyUrlParams(v, ms, cats).params == v.params;
    }
  }

  /** Running the effect a second time changes nothing more. */
  lemma UrlParamsIdempotent(v: View, ms: seq<Mentor>, cats: seq<SkillCategory>)
    ensures ApplyUrlParams(ApplyUrlParams(v, ms, cats), ms, cats) == ApplyUrlParams(v, ms, cats)
  {
    var r := ApplyUrlParams(v, ms, cats);
    CategoryParamRewritesInPlace(v, ms, cats, "mentor");
    CategoryParamRewritesInPlace(v, ms, cats, "category");
    var w := ApplyMentorParam(r, ms);
    assert w == r;
    match Get(r.params, "category")
    case Some(text) =>
      if text != [] && |Filter(ms, MentionsNeedle(CategoryNeedle(cats, ParseInt(text))))| > 0 {
        assert Get(r.params, "category") == Get(v.params, "category");
        assert r.params == Set(v.params, "category", text);
        assert Count(r.params, NameIs("category")) == 1;
        SetCurrentValueIsIdentity(r.params, "category");
      }
    case None =>
  }

  /** Clicking "Connect": select the mentor and open the modal. */
  function ConnectMentor(v: View, m: Mentor): (r: View)
    ensures r.selected == Some(m) && r.modalOpen
    ensures r.filters == v.filters && r.params == v.params
  {
    v.(selected := Some(m), modalOpen := true)
  }

  /** Closing the modal clears the selection. */
  function CloseModal(v: View): (r: View)
    ensures r.selected.None? && !r.modalOpen
    ensures r.filters == v.filters && r.params == v.params
  {
    v.(selected := None, modalOpen := false)
  }

  /** Opening and then closing the modal leaves the page as closing alone would. */
  lemma ConnectThenClose(v: View, m: Mentor)
    ensures CloseModal(ConnectMentor(v, m)) == CloseModal(v)
  {
  }
}
