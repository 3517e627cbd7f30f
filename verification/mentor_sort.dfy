/**
  The order of the mentor list: the comparator `filteredMentors` hands to
  `Array.prototype.sort`, chosen by the `sortBy` string, and what each choice
  does to the order.
 */
module MentorSort {
  import opened Common
  import opened Strings
  import opened Data
  import opened StableSort

  /** The sort keys the comparator's `switch` recognises, and the fall-through. */
  datatype SortKey = Rating | Students | Experience | Name | Other

  /** The `case` of the `switch` that a `sortBy` string selects. */
  function KeyOf(sortBy: string): (k: SortKey)
    ensures k == Rating <==> sortBy == "rating"
    ensures k == Students <==> sortBy == "students"
    ensures k == Experience <==> sortBy == "experience"
    ensures k == Name <==> sortBy == "name"
  {
    if sortBy == "rating" then Rating
    else if sortBy == "students" then Students
    else if sortBy == "experience" then Experience
    else if sortBy == "name" then Name
    else Other
  }

  /**
    The comparator: negative when `a` must come first. Numbers sort downwards;
    names sort upwards, with code-point order standing in for `localeCompare`.
    A `parseInt` that gives NaN makes the difference NaN, which the sort reads
    as 0. The fall-through compares everything as equal.
   */
  function Compare(key: SortKey, a: Mentor, b: Mentor): int {
    match key
    case Rating => b.rating - a.rating
    case Students => b.students - a.students
    case Experience =>
      var later, earlier := ParseInt(b.experience), ParseInt(a.experience);
      if later.Some? && earlier.Some? then later.value - earlier.value else 0
    case Name => LexCompare(a.name, b.name)
    case Other => 0
  }

  /** The comparator as the function value the sort receives. */
  function Comparator(key: SortKey): (Mentor, Mentor) -> int {
    (a: Mentor, b: Mentor) => Compare(key, a, b)
  }

  /** `filtered.sort(...)` for the key `sortBy` selects. */
  function SortMentors(sortBy: string, xs: seq<Mentor>): (r: seq<Mentor>)
    ensures |r| == |xs|
    ensures multiset(r) == multiset(xs)
  {
    Sort(Comparator(KeyOf(sortBy)), xs)
  }

  /** The comparator, read key by key, in terms of the mentor fields. */
  lemma CompareMeaning(key: SortKey, a: Mentor, b: Mentor)
    ensures key == Rating ==> (Compare(key, a, b) <= 0 <==> a.rating >= b.rating)
    ensures key == Students ==> (Compare(key, a, b) <= 0 <==> a.students >= b.students)
    ensures key == Experience && ParseInt(a.experience).Some? && ParseInt(b.experience).Some? ==>
      (Compare(key, a, b) <= 0 <==> ParseInt(a.experience).value >= ParseInt(b.experience).value)
    ensures key == Experience && (ParseInt(a.experience).None? || ParseInt(b.experience).None?) ==>
      Compare(key, a, b) == 0
    ensures key == Name ==> (Compare(key, a, b) <= 0 <==> !LexLess(b.name, a.name))
    ensures key == Other ==> Compare(key, a, b) == 0
  {
    LexCompareAntisymmetric(a.name, b.name);
  }

  /** An unrecognised `sortBy` leaves the filtered list in seed order. */
  lemma SortUnknownKey(sortBy: string, xs: seq<Mentor>)
    requires sortBy !in ["rating", "students", "experience", "name"]
    ensures SortMentors(sortBy, xs) == xs
  {
    SortAllTied(Comparator(KeyOf(sortBy)), xs);
  }

  // ---------------------------------------------------------------------------
  // The four recognised keys are consistent comparisons
  // ---------------------------------------------------------------------------

  lemma RatingConsistent(u: set<Mentor>)
    ensures ConsistentOn(Comparator(Rating), u)
  {
  }

  lemma StudentsConsistent(u: set<Mentor>)
    ensures ConsistentOn(Comparator(Students), u)
  {
  }

  /** Every experience text of `u` has a leading number. */
  predicate ExperienceParses(u: set<Mentor>) {
    forall m :: m in u ==> ParseInt(m.experience).Some?
  }

  /** The years `parseInt` reads from a mentor's experience text, when it reads a number. */
  function YearsOf(m: Mentor): int
    requires ParseInt(m.experience).Some?
  {
    ParseInt(m.experience).value
  }

  lemma ExperienceCompare(a: Mentor, b: Mentor)
    requires ParseInt(a.experience).Some? && ParseInt(b.experience).Some?
    ensures Comparator(Experience)(a, b) == YearsOf(b) - YearsOf(a)
  {
    assert Comparator(Experience)(a, b) == Compare(Experience, a, b);
  }

  lemma ExperienceConsistent(u: set<Mentor>)
    requires ExperienceParses(u)
    ensures ConsistentOn(Comparator(Experience), u)
  {
    var cmp := Comparator(Experience);
    forall a, b | a in u && b in u ensures InOrder(cmp, a, b) || InOrder(cmp, b, a) {
      ExperienceCompare(a, b);
      ExperienceCompare(b, a);
    }
    forall a, b, c | a in u && b in u && c in u && InOrder(cmp, a, b) && InOrder(cmp, b, c)
      ensures InOrder(cmp, a, c)
    {
      ExperienceCompare(a, b);
      ExperienceCompare(b, c);
      ExperienceCompare(a, c);
    }
    forall a, b, c | a in u && b in u && c in u && cmp(a, c) == 0 && cmp(b, c) == 0
      ensures cmp(a, b) == 0
    {
      ExperienceCompare(a, c);
      ExperienceCompare(b, c);
      ExperienceCompare(a, b);
    }
  }

  lemma NameConsistent(u: set<Mentor>)
    ensures ConsistentOn(Comparator(Name), u)
  {
    var cmp := Comparator(Name);
    forall a, b | a in u && b in u ensures InOrder(cmp, a, b) || InOrder(cmp, b, a) {
      LexCompareAntisymmetric(a.name, b.name);
    }
    forall a, b, c | a in u && b in u && c in u && InOrder(cmp, a, b) && InOrder(cmp, b, c)
      ensures InOrder(cmp, a, c)
    {
      LexCompareZeroIffEqual(a.name, b.name);
      LexCompareZeroIffEqual(b.name, c.name);
      if LexLess(a.name, b.name) && LexLess(b.name, c.name) {
        LexLessTransitive(a.name, b.name, c.name);
      }
    }
    forall a, b, c | a in u && b in u && c in u && cmp(a, c) == 0 && cmp(b, c) == 0
      ensures cmp(a, b) == 0
    {
      LexCompareZeroIffEqual(a.name, c.name);
      LexCompareZeroIffEqual(b.name, c.name);
      LexCompareZeroIffEqual(a.name, b.name);
    }
  }

  /**
    Each recognised key is a consistent comparison, `experience` once every
    experience text reads as a number.
   */
  lemma KnownKeysConsistent(key: SortKey, u: set<Mentor>)
    requires key != Other
    requires key == Experience ==> ExperienceParses(u)
    ensures ConsistentOn(Comparator(key), u)
  {
    match key
    case Rating => RatingConsistent(u);
    case Students => StudentsConsistent(u);
    case Experience => ExperienceConsistent(u);
    case Name => NameConsistent(u);
  }

  // ---------------------------------------------------------------------------
  // What each recognised key does to the order
  // ---------------------------------------------------------------------------

  /** Sorting by `rating` leaves the ratings non-increasing. */
  lemma SortByRating(xs: seq<Mentor>)
    ensures var r := SortMentors("rating", xs);
      forall i :: 0 <= i < |r| - 1 ==> r[i].rating >= r[i + 1].rating
  {
    RatingConsistent(Members(xs));
    SortSorted(Comparator(Rating), xs, Members(xs));
  }

  /** Sorting by `students` leaves the student counts non-increasing. */
  lemma SortByStudents(xs: seq<Mentor>)
    ensures var r := SortMentors("students", xs);
      forall i :: 0 <= i < |r| - 1 ==> r[i].students >= r[i + 1].students
  {
    StudentsConsistent(Members(xs));
    SortSorted(Comparator(Students), xs, Members(xs));
  }

  /** Sorting by `name` leaves the names non-decreasing. */
  lemma SortByName(xs: seq<Mentor>)
    ensures var r := SortMentors("name", xs);
      forall i :: 0 <= i < |r| - 1 ==> !LexLess(r[i + 1].name, r[i].name)
  {
    NameConsistent(Members(xs));
    SortSorted(Comparator(Name), xs, Members(xs));
    var r := SortMentors("name", xs);
    forall i | 0 <= i < |r| - 1 ensures !LexLess(r[i + 1].name, r[i].name) {
      LexCompareAntisymmetric(r[i].name, r[i + 1].name);
    }
  }

  lemma AdjacentYears(r: seq<Mentor>, i: nat, u: set<Mentor>)
    requires Sorted(Comparator(Experience), r) && Within(r, u) && ExperienceParses(u)
    requires i + 1 < |r|
    ensures r[i] in u && r[i + 1] in u && YearsOf(r[i]) >= YearsOf(r[i + 1])
  {
    assert r[i] in r && r[i + 1] in r;
    assert InOrder(Comparator(Experience), r[i], r[i + 1]);
    ExperienceCompare(r[i], r[i + 1]);
  }

  lemma YearsNonIncreasing(r: seq<Mentor>, u: set<Mentor>)
    requires Sorted(Comparator(Experience), r) && Within(r, u) && ExperienceParses(u)
    ensures forall i, j :: 0 <= i && j == i + 1 && j < |r| ==>
      r[i] in u && r[j] in u && YearsOf(r[i]) >= YearsOf(r[j])
  {
    forall i, j | 0 <= i && j == i + 1 && j < |r|
      ensures r[i] in u && r[j] in u && YearsOf(r[i]) >= YearsOf(r[j])
    {
      AdjacentYears(r, i, u);
    }
  }

  /**
    Sorting by `experience`, when every experience text has a leading number,
    leaves the years non-increasing.
   */
  lemma SortByExperience(xs: seq<Mentor>)
    requires ExperienceParses(Members(xs))
    ensures var r := SortMentors("experience", xs);
      forall i, j :: 0 <= i && j == i + 1 && j < |r| ==>
        r[i] in Members(xs) && r[j] in Members(xs) && YearsOf(r[i]) >= YearsOf(r[j])
  {
    var u := Members(xs);
    var r := Sort(Comparator(Experience), xs);
    assert Sorted(Comparator(Experience), r) by {
      ExperienceConsistent(u);
      SortSorted(Comparator(Experience), xs, u);
    }
    SortWithin(xs, u, Comparator(Experience));
    YearsNonIncreasing(r, u);
  }

  /**
    Mentors the chosen key ties keep their seed order. For `experience` this
    needs every experience text to read as a number: a NaN ties a mentor with
    everyone, and ties then stop being a grouping.
   */
  lemma SortMentorsStable(sortBy: string, xs: seq<Mentor>, p: Mentor)
    requires p in xs
    requires KeyOf(sortBy) == Experience ==> ExperienceParses(Members(xs))
    ensures Filter(SortMentors(sortBy, xs), TiedWith(Comparator(KeyOf(sortBy)), p)) ==
            Filter(xs, TiedWith(Comparator(KeyOf(sortBy)), p))
  {
    var key := KeyOf(sortBy);
    if key == Other {
      SortAllTied(Comparator(key), xs);
    } else {
      KnownKeysConsistent(key, Members(xs));
      SortStable(Comparator(key), xs, p, Members(xs));
    }
  }
}
