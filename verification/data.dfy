/**
  The seeded records of the application: the mentors, the skill categories
  and the learning paths. The `mentors` fields of categories and paths are
  computed, as in the source, by matching the mentors against a hard-coded
  skill list that is written next to each entry.
 */
module Data {
  import opened Common
  import opened Strings

  /**
    A mentor profile. `rating` is held in tenths (4.8 is 48). The portrait URL
    and the biography paragraph are markup-only and are not part of the record.
   */
  datatype Mentor = Mentor(
    id: int,
    name: string,
    title: string,
    company: string,
    skills: seq<string>,
    availability: string,
    rating: int,
    students: int,
    experience: string,
    location: string,
    hourlyRate: string,
    languages: seq<string>,
    specializations: seq<string>)

  datatype SkillCategory = SkillCategory(
    id: int,
    name: string,
    icon: string,
    description: string,
    skills: seq<string>,
    mentors: int)

  datatype LearningPath = LearningPath(
    id: int,
    title: string,
    description: string,
    duration: string,
    difficulty: string,
    skills: seq<string>,
    mentors: seq<Mentor>,
    progress: int)

  /** Some element of `a` is an element of `b` (`a.some(s => b.includes(s))`). */
  predicate Intersects(a: seq<string>, b: seq<string>)
  {
    a != [] && (a[0] in b || Intersects(a[1..], b))
  }

  /** `Intersects` is the existential it abbreviates. */
  lemma {:induction false} IntersectsIff(a: seq<string>, b: seq<string>)
    ensures Intersects(a, b) <==> exists i :: 0 <= i < |a| && a[i] in b
  {
    if a != [] {
      IntersectsIff(a[1..], b);
      if exists i :: 0 <= i < |a| && a[i] in b {
        var i :| 0 <= i < |a| && a[i] in b;
        if i > 0 {
          assert a[1..][i - 1] == a[i];
        }
      }
      if exists i :: 0 <= i < |a[1..]| && a[1..][i] in b {
        var i :| 0 <= i < |a[1..]| && a[1..][i] in b;
        assert a[i + 1] == a[1..][i];
      }
    }
  }

  /** Keeps the mentors holding at least one skill of `list`, compared exactly. */
  function HasSkillIn(list: seq<string>): Mentor -> bool {
    (m: Mentor) => Intersects(m.skills, list)
  }

  /** The mentors having an exact skill match with `list`, in seed order. */
  function MentorsWithSkillIn(ms: seq<Mentor>, list: seq<string>): seq<Mentor> {
    Filter(ms, HasSkillIn(list))
  }

  const MarcusSkills: seq<string> := ["Product Strategy", "Agile", "Data Analysis", "Leadership"]
  const PriyaSkills: seq<string> := ["Python", "Machine Learning", "Statistics", "SQL"]
  const AlexSkills: seq<string> := ["Node.js", "React", "PostgreSQL", "AWS"]
  const EmilySkills: seq<string> := ["Figma", "User Research", "Prototyping", "Design Systems"]
  const DavidSkills: seq<string> := ["Docker", "Kubernetes", "AWS", "CI/CD"]
  const LisaSkills: seq<string> := ["Digital Marketing", "SEO", "Content Strategy", "Analytics"]
  const JamesSkills: seq<string> := ["React Native", "iOS", "Android", "Swift"]

  const Marcus := Mentor(1, "Marcus Johnson", "Product Manager", "Microsoft",
    MarcusSkills,
    "Available", 48, 89, Years(10), "Seattle, WA", "$150",
    ["English", "Spanish"], ["Product Management", "Strategy", "Team Leadership"])

  const Priya := Mentor(2, "Dr. Priya Patel", "Data Science Lead", "Netflix",
    PriyaSkills,
    "Limited", 49, 156, Years(12), "Los Angeles, CA", "$180",
    ["English", "Hindi", "Gujarati"], ["Data Science", "Machine Learning", "Career Transition"])

  const Alex := Mentor(3, "Alex Rodriguez", "Full Stack Developer", "Stripe",
    AlexSkills,
    "Available", 47, 98, Years(6), "Austin, TX", "$110",
    ["English", "Spanish"], ["Full Stack Development", "System Design", "Code Reviews"])

  const Emily := Mentor(4, "Emily Watson", "UX Designer", "Figma",
    EmilySkills,
    "Available", 48, 73, Years(7), "New York, NY", "$130",
    ["English", "French"], ["UX Design", "User Research", "Design Systems"])

  const David := Mentor(6, "David Kim", "DevOps Engineer", "Amazon",
    DavidSkills,
    "Available", 46, 64, Years(9), "Seattle, WA", "$140",
    ["English", "Korean"], ["DevOps", "Cloud Infrastructure", "Automation"])

  const Lisa := Mentor(7, "Lisa Thompson", "Marketing Director", "HubSpot",
    LisaSkills,
    "Limited", 47, 112, Years(11), "Boston, MA", "$125",
    ["English"], ["Digital Marketing", "Content Strategy", "Personal Branding"])

  const James := Mentor(8, "James Wilson", "Mobile Developer", "Airbnb",
    JamesSkills,
    "Available", 48, 85, Years(8), "San Francisco, CA", "$135",
    ["English"], ["Mobile Development", "Cross-platform", "App Store Optimization"])

  /** The seeded mentor collection, in source order. */
  const Mentors: seq<Mentor> := [Marcus, Priya, Alex, Emily, David, Lisa, James]

  const FrontendList: seq<string> := ["React", "TypeScript", "UI/UX Design"]
  const BackendList: seq<string> := ["Node.js", "PostgreSQL", "AWS"]
  const DataList: seq<string> := ["Python", "Machine Learning", "Statistics", "SQL"]
  const ProductList: seq<string> := ["Product Strategy", "Agile", "Data Analysis", "Leadership"]
  const DesignList: seq<string> := ["Figma", "User Research", "Prototyping", "Design Systems"]
  const DevOpsList: seq<string> := ["Docker", "Kubernetes", "AWS", "CI/CD"]
  const FullStackList: seq<string> := ["React", "Node.js", "PostgreSQL", "AWS"]

  const FrontendCategorySkills: seq<string> := ["React", "Vue.js", "Angular", "TypeScript", "CSS", "HTML"]
  const BackendCategorySkills: seq<string> := ["Node.js", "Python", "Java", "PostgreSQL", "MongoDB", "AWS"]
  const DataCategorySkills: seq<string> := ["Python", "Machine Learning", "Statistics", "SQL", "R", "TensorFlow"]
  const ProductCategorySkills: seq<string> := ["Product Strategy", "Agile", "Data Analysis", "Leadership", "User Research"]
  const DesignCategorySkills: seq<string> := ["Figma", "User Research", "Prototyping", "Design Systems", "Adobe XD"]
  const DevOpsCategorySkills: seq<string> := ["Docker", "Kubernetes", "AWS", "CI/CD", "Terraform", "Monitoring"]

  /**
    The categories and paths carry fields the seed derives by filtering the
    mentors with a hard-coded skill list. They are written here as the values
    those filters give; `SeedCategoryCounts` and `SeedPathMentors` show that
    each one is what its filter computes.
   */
  const SkillCategories: seq<SkillCategory> := [
    SkillCategory(1, "Frontend Development", "\U{1F4BB}", "Master modern frontend technologies",
      FrontendCategorySkills,
      1),
    SkillCategory(2, "Backend Development", "\U{2699}\U{FE0F}", "Build robust server-side applications",
      BackendCategorySkills,
      2),
    SkillCategory(3, "Data Science", "\U{1F4CA}", "Extract insights from data",
      DataCategorySkills,
      1),
    SkillCategory(4, "Product Management", "\U{1F4CB}", "Lead product strategy and development",
      ProductCategorySkills,
      1),
    SkillCategory(5, "UX/UI Design", "\U{1F3A8}", "Create beautiful user experiences",
      DesignCategorySkills,
      1),
    SkillCategory(6, "DevOps & Cloud", "\U{2601}\U{FE0F}", "Deploy and scale applications",
      DevOpsCategorySkills,
      2)
  ]

  const FrontendPath: LearningPath := LearningPath(1, "Frontend Developer Path", "From zero to frontend hero",
    "6 months", "Beginner to Intermediate", ["HTML", "CSS", "JavaScript", "React", "TypeScript"],
    [Alex], 0)

  const FullStackPath: LearningPath := LearningPath(2, "Full Stack Developer Path",
    "Master both frontend and backend", "12 months", "Intermediate to Advanced",
    ["React", "Node.js", "PostgreSQL", "AWS", "Docker"], [Alex, David], 0)

  const DataPath: LearningPath := LearningPath(3, "Data Science Path", "Become a data science expert",
    "8 months", "Intermediate to Advanced", ["Python", "Statistics", "Machine Learning", "SQL", "Data Visualization"],
    [Priya], 0)

  const ProductPath: LearningPath := LearningPath(4, "Product Manager Path", "Lead product strategy and teams",
    "6 months", "Intermediate to Advanced", ["Product Strategy", "User Research", "Data Analysis", "Leadership", "Agile"],
    [Marcus], 0)

  const LearningPaths: seq<LearningPath> := [FrontendPath, FullStackPath, DataPath, ProductPath]

  // ---------------------------------------------------------------------------
  // Evaluating a filter over the seven seeded mentors
  // ---------------------------------------------------------------------------

  /** What `x` contributes to a filter by `p`. */
  function Keep<T>(x: T, p: T -> bool): seq<T> {
    if p(x) then [x] else []
  }

  lemma FilterAt<T(!new)>(xs: seq<T>, k: nat, p: T -> bool)
    requires k < |xs|
    ensures Filter(xs[k..], p) == Keep(xs[k], p) + Filter(xs[k + 1..], p)
  {
    assert xs[k..][1..] == xs[k + 1..];
  }

  /** A filter over seven elements, spelled out element by element. */
  lemma FilterSeven<T(!new)>(xs: seq<T>, p: T -> bool)
    requires |xs| == 7
    ensures Filter(xs, p) == Keep(xs[0], p) + (Keep(xs[1], p) + (Keep(xs[2], p) +
      (Keep(xs[3], p) + (Keep(xs[4], p) + (Keep(xs[5], p) + Keep(xs[6], p))))))
  {
    var k6 := Keep(xs[6], p);
    FilterAt(xs, 6, p);
    assert xs[7..] == [];
    assert Filter(xs[6..], p) == k6;
    var k5 := Keep(xs[5], p) + k6;
    FilterAt(xs, 5, p);
    assert Filter(xs[5..], p) == k5;
    var k4 := Keep(xs[4], p) + k5;
    FilterAt(xs, 4, p);
    assert Filter(xs[4..], p) == k4;
    var k3 := Keep(xs[3], p) + k4;
    FilterAt(xs, 3, p);
    assert Filter(xs[3..], p) == k3;
    var k2 := Keep(xs[2], p) + k3;
    FilterAt(xs, 2, p);
    assert Filter(xs[2..], p) == k2;
    var k1 := Keep(xs[1], p) + k2;
    FilterAt(xs, 1, p);
    assert Filter(xs[1..], p) == k1;
    FilterAt(xs, 0, p);
    assert xs[0..] == xs;
  }

  lemma FilterSeed(p: Mentor -> bool)
    ensures Filter(Mentors, p) == Keep(Marcus, p) + (Keep(Priya, p) + (Keep(Alex, p) +
      (Keep(Emily, p) + (Keep(David, p) + (Keep(Lisa, p) + Keep(James, p))))))
  {
    FilterSeven(Mentors, p);
  }

  // ---------------------------------------------------------------------------
  // Facts about the seed
  // ---------------------------------------------------------------------------

  /** The mentor ids are 1, 2, 3, 4, 6, 7, 8: pairwise distinct, and 5 is not used. */
  lemma SeedMentorIds()
    ensures |Mentors| == 7
    ensures forall i :: 0 <= i < |Mentors| ==> Mentors[i].id == [1, 2, 3, 4, 6, 7, 8][i]
    ensures forall i, j :: 0 <= i < j < |Mentors| ==> Mentors[i].id != Mentors[j].id
    ensures forall m :: m in Mentors ==> m.id != 5
  {
    assert Mentors[0].id == 1 && Mentors[1].id == 2 && Mentors[2].id == 3 && Mentors[3].id == 4;
    assert Mentors[4].id == 6 && Mentors[5].id == 7 && Mentors[6].id == 8;
  }

  lemma MarcusMatchesFirst()
    ensures !Intersects(MarcusSkills, FrontendList) && !Intersects(MarcusSkills, BackendList)
    ensures !Intersects(MarcusSkills, DataList)
  {
  }

  lemma MarcusMatchesSecond()
    ensures Intersects(MarcusSkills, ProductList) && !Intersects(MarcusSkills, DesignList)
    ensures !Intersects(MarcusSkills, DevOpsList)
  {
  }

  lemma MarcusMatchesThird()
    ensures !Intersects(MarcusSkills, FullStackList) && !Intersects(MarcusSkills, BackendCategorySkills)
    ensures Intersects(MarcusSkills, ProductCategorySkills)
  {
  }

  /** Which hard-coded lists Marcus's skills meet. */
  lemma MarcusMatches()
    ensures !Intersects(MarcusSkills, FrontendList) && !Intersects(MarcusSkills, BackendList)
    ensures !Intersects(MarcusSkills, DataList) && Intersects(MarcusSkills, ProductList)
    ensures !Intersects(MarcusSkills, DesignList) && !Intersects(MarcusSkills, DevOpsList)
    ensures !Intersects(MarcusSkills, FullStackList) && !Intersects(MarcusSkills, BackendCategorySkills)
    ensures Intersects(MarcusSkills, ProductCategorySkills)
  {
    MarcusMatchesFirst(); MarcusMatchesSecond(); MarcusMatchesThird();
  }

  lemma PriyaMatchesFirst()
    ensures !Intersects(PriyaSkills, FrontendList) && !Intersects(PriyaSkills, BackendList)
    ensures Intersects(PriyaSkills, DataList)
  {
  }

  lemma PriyaMatchesSecond()
    ensures !Intersects(PriyaSkills, ProductList) && !Intersects(PriyaSkills, DesignList)
    ensures !Intersects(PriyaSkills, DevOpsList)
  {
  }

  lemma PriyaMatchesThird()
    ensures !Intersects(PriyaSkills, FullStackList) && Intersects(PriyaSkills, BackendCategorySkills)
    ensures !Intersects(PriyaSkills, ProductCategorySkills)
  {
  }

  /** Which hard-coded lists Priya's skills meet. */
  lemma PriyaMatches()
    ensures !Intersects(PriyaSkills, FrontendList) && !Intersects(PriyaSkills, BackendList)
    ensures Intersects(PriyaSkills, DataList) && !Intersects(PriyaSkills, ProductList)
    ensures !Intersects(PriyaSkills, DesignList) && !Intersects(PriyaSkills, DevOpsList)
    ensures !Intersects(PriyaSkills, FullStackList) && Intersects(PriyaSkills, BackendCategorySkills)
    ensures !Intersects(PriyaSkills, ProductCategorySkills)
  {
    PriyaMatchesFirst(); PriyaMatchesSecond(); PriyaMatchesThird();
  }

  lemma AlexMatchesFirst()
    ensures Intersects(AlexSkills, FrontendList) && Intersects(AlexSkills, BackendList)
    ensures !Intersects(AlexSkills, DataList)
  {
  }

  lemma AlexMatchesSecond()
    ensures !Intersects(AlexSkills, ProductList) && !Intersects(AlexSkills, DesignList)
    ensures Intersects(AlexSkills, DevOpsList)
  {
  }

  lemma AlexMatchesThird()
    ensures Intersects(AlexSkills, FullStackList) && Intersects(AlexSkills, BackendCategorySkills)
    ensures !Intersects(AlexSkills, ProductCategorySkills)
  {
  }

  /** Which hard-coded lists Alex's skills meet. */
  lemma AlexMatches()
    ensures Intersects(AlexSkills, FrontendList) && Intersects(AlexSkills, BackendList)
    ensures !Intersects(AlexSkills, DataList) && !Intersects(AlexSkills, ProductList)
    ensures !Intersects(AlexSkills, DesignList) && Intersects(AlexSkills, DevOpsList)
    ensures Intersects(AlexSkills, FullStackList) && Intersects(AlexSkills, BackendCategorySkills)
    ensures !Intersects(AlexSkills, ProductCategorySkills)
  {
    AlexMatchesFirst(); AlexMatchesSecond(); AlexMatchesThird();
  }

  lemma EmilyMatchesFirst()
    ensures !Intersects(EmilySkills, FrontendList) && !Intersects(EmilySkills, BackendList)
    ensures !Intersects(EmilySkills, DataList)
  {
  }

  lemma EmilyMatchesSecond()
    ensures !Intersects(EmilySkills, ProductList) && Intersects(EmilySkills, DesignList)
    ensures !Intersects(EmilySkills, DevOpsList)
  {
  }

  lemma EmilyMatchesThird()
    ensures !Intersects(EmilySkills, FullStackList) && !Intersects(EmilySkills, BackendCategorySkills)
    ensures Intersects(EmilySkills, ProductCategorySkills)
  {
  }

  /** Which hard-coded lists Emily's skills meet. */
  lemma EmilyMatches()
    ensures !Intersects(EmilySkills, FrontendList) && !Intersects(EmilySkills, BackendList)
    ensures !Intersects(EmilySkills, DataList) && !Intersects(EmilySkills, ProductList)
    ensures Intersects(EmilySkills, DesignList) && !Intersects(EmilySkills, DevOpsList)
    ensures !Intersects(EmilySkills, FullStackList) && !Intersects(EmilySkills, BackendCategorySkills)
    ensures Intersects(EmilySkills, ProductCategorySkills)
  {
    EmilyMatchesFirst(); EmilyMatchesSecond(); EmilyMatchesThird();
  }

  lemma DavidMatchesFirst()
    ensures !Intersects(DavidSkills, FrontendList) && Intersects(DavidSkills, BackendList)
    ensures !Intersects(DavidSkills, DataList)
  {
  }

  lemma DavidMatchesSecond()
    ensures !Intersects(DavidSkills, ProductList) && !Intersects(DavidSkills, DesignList)
    ensures Intersects(DavidSkills, DevOpsList)
  {
  }

  lemma DavidMatchesThird()
    ensures Intersects(DavidSkills, FullStackList) && Intersects(DavidSkills, BackendCategorySkills)
    ensures !Intersects(DavidSkills, ProductCategorySkills)
  {
  }

  /** Which hard-coded lists David's skills meet. */
  lemma DavidMatches()
    ensures !Intersects(DavidSkills, FrontendList) && Intersects(DavidSkills, BackendList)
    ensures !Intersects(DavidSkills, DataList) && !Intersects(DavidSkills, ProductList)
    ensures !Intersects(DavidSkills, DesignList) && Intersects(DavidSkills, DevOpsList)
    ensures Intersects(DavidSkills, FullStackList) && Intersects(DavidSkills, BackendCategorySkills)
    ensures !Intersects(DavidSkills, ProductCategorySkills)
  {
    DavidMatchesFirst(); DavidMatchesSecond(); DavidMatchesThird();
  }

  lemma LisaMatchesFirst()
    ensures !Intersects(LisaSkills, FrontendList) && !Intersects(LisaSkills, BackendList)
    ensures !Intersects(LisaSkills, DataList)
  {
  }

  lemma LisaMatchesSecond()
    ensures !Intersects(LisaSkills, ProductList) && !Intersects(LisaSkills, DesignList)
    ensures !Intersects(LisaSkills, DevOpsList)
  {
  }

  lemma LisaMatchesThird()
    ensures !Intersects(LisaSkills, FullStackList) && !Intersects(LisaSkills, BackendCategorySkills)
    ensures !Intersects(LisaSkills, ProductCategorySkills)
  {
  }

  /** Which hard-coded lists Lisa's skills meet. */
  lemma LisaMatches()
    ensures !Intersects(LisaSkills, FrontendList) && !Intersects(LisaSkills, BackendList)
    ensures !Intersects(LisaSkills, DataList) && !Intersects(LisaSkills, ProductList)
    ensures !Intersects(LisaSkills, DesignList) && !Intersects(LisaSkills, DevOpsList)
    ensures !Intersects(LisaSkills, FullStackList) && !Intersects(LisaSkills, BackendCategorySkills)
    ensures !Intersects(LisaSkills, ProductCategorySkills)
  {
    LisaMatchesFirst(); LisaMatchesSecond(); LisaMatchesThird();
  }

  lemma JamesMatchesFirst()
    ensures !Intersects(JamesSkills, FrontendList) && !Intersects(JamesSkills, BackendList)
    ensures !Intersects(JamesSkills, DataList)
  {
  }

  lemma JamesMatchesSecond()
    ensures !Intersects(JamesSkills, ProductList) && !Intersects(JamesSkills, DesignList)
    ensures !Intersects(JamesSkills, DevOpsList)
  {
  }

  lemma JamesMatchesThird()
    ensures !Intersects(JamesSkills, FullStackList) && !Intersects(JamesSkills, BackendCategorySkills)
    ensures !Intersects(JamesSkills, ProductCategorySkills)
  {
  }

  /** Which hard-coded lists James's skills meet. */
  lemma JamesMatches()
    ensures !Intersects(JamesSkills, FrontendList) && !Intersects(JamesSkills, BackendList)
    ensures !Intersects(JamesSkills, DataList) && !Intersects(JamesSkills, ProductList)
    ensures !Intersects(JamesSkills, DesignList) && !Intersects(JamesSkills, DevOpsList)
    ensures !Intersects(JamesSkills, FullStackList) && !Intersects(JamesSkills, BackendCategorySkills)
    ensures !Intersects(JamesSkills, ProductCategorySkills)
  {
    JamesMatchesFirst(); JamesMatchesSecond(); JamesMatchesThird();
  }

  lemma SeedSkills()
    ensures Marcus.skills == MarcusSkills && Priya.skills == PriyaSkills && Alex.skills == AlexSkills
    ensures Emily.skills == EmilySkills && David.skills == DavidSkills && Lisa.skills == LisaSkills
    ensures James.skills == JamesSkills
  {
  }

  // The seven contributions of a filter over the seed, once each is known,
  // collapse to the picked mentors.

  lemma Picks24(a: Mentor, b: Mentor)
    ensures [] + ([] + ([a] + ([] + ([b] + ([] + []))))) == [a, b]
  {
  }

  lemma Picks124(a: Mentor, b: Mentor, c: Mentor)
    ensures [] + ([a] + ([b] + ([] + ([c] + ([] + []))))) == [a, b, c]
  {
  }

  lemma Picks03(a: Mentor, b: Mentor)
    ensures [a] + ([] + ([] + ([b] + ([] + ([] + []))))) == [a, b]
  {
  }

  lemma FrontendMatches()
    ensures MentorsWithSkillIn(Mentors, FrontendList) == [Alex]
  {
    var p := HasSkillIn(FrontendList);
    SeedSkills();
    MarcusMatches(); PriyaMatches(); AlexMatches(); EmilyMatches(); DavidMatches(); LisaMatches(); JamesMatches();
    FilterSeed(p);
    assert Keep(Marcus, p) == [] && Keep(Priya, p) == [] && Keep(Alex, p) == [Alex];
    assert Keep(Emily, p) == [] && Keep(David, p) == [] && Keep(Lisa, p) == [] && Keep(James, p) == [];
  }

  lemma BackendMatches()
    ensures MentorsWithSkillIn(Mentors, BackendList) == [Alex, David]
  {
    var p := HasSkillIn(BackendList);
    SeedSkills();
    MarcusMatches(); PriyaMatches(); AlexMatches(); EmilyMatches(); DavidMatches(); LisaMatches(); JamesMatches();
    FilterSeed(p);
    assert Keep(Marcus, p) == [] && Keep(Priya, p) == [] && Keep(Alex, p) == [Alex];
    assert Keep(Emily, p) == [] && Keep(David, p) == [David] && Keep(Lisa, p) == [] && Keep(James, p) == [];
    Picks24(Alex, David);
  }

  lemma DataMatches()
    ensures MentorsWithSkillIn(Mentors, DataList) == [Priya]
  {
    var p := HasSkillIn(DataList);
    SeedSkills();
    MarcusMatches(); PriyaMatches(); AlexMatches(); EmilyMatches(); DavidMatches(); LisaMatches(); JamesMatches();
    FilterSeed(p);
    assert Keep(Marcus, p) == [] && Keep(Priya, p) == [Priya] && Keep(Alex, p) == [];
    assert Keep(Emily, p) == [] && Keep(David, p) == [] && Keep(Lisa, p) == [] && Keep(James, p) == [];
  }

  lemma ProductMatches()
    ensures MentorsWithSkillIn(Mentors, ProductList) == [Marcus]
  {
    var p := HasSkillIn(ProductList);
    SeedSkills();
    MarcusMatches(); PriyaMatches(); AlexMatches(); EmilyMatches(); DavidMatches(); LisaMatches(); JamesMatches();
    FilterSeed(p);
    assert Keep(Marcus, p) == [Marcus] && Keep(Priya, p) == [] && Keep(Alex, p) == [];
    assert Keep(Emily, p) == [] && Keep(David, p) == [] && Keep(Lisa, p) == [] && Keep(James, p) == [];
  }

  lemma DesignMatches()
    ensures MentorsWithSkillIn(Mentors, DesignList) == [Emily]
  {
    var p := HasSkillIn(DesignList);
    SeedSkills();
    MarcusMatches(); PriyaMatches(); AlexMatches(); EmilyMatches(); DavidMatches(); LisaMatches(); JamesMatches();
    FilterSeed(p);
    assert Keep(Marcus, p) == [] && Keep(Priya, p) == [] && Keep(Alex, p) == [];
    assert Keep(Emily, p) == [Emily] && Keep(David, p) == [] && Keep(Lisa, p) == [] && Keep(James, p) == [];
  }

  lemma DevOpsMatches()
    ensures MentorsWithSkillIn(Mentors, DevOpsList) == [Alex, David]
  {
    var p := HasSkillIn(DevOpsList);
    SeedSkills();
    MarcusMatches(); PriyaMatches(); AlexMatches(); EmilyMatches(); DavidMatches(); LisaMatches(); JamesMatches();
    FilterSeed(p);
    assert Keep(Marcus, p) == [] && Keep(Priya, p) == [] && Keep(Alex, p) == [Alex];
    assert Keep(Emily, p) == [] && Keep(David, p) == [David] && Keep(Lisa, p) == [] && Keep(James, p) == [];
    Picks24(Alex, David);
  }

  lemma FullStackMatches()
    ensures MentorsWithSkillIn(Mentors, FullStackList) == [Alex, David]
  {
    var p := HasSkillIn(FullStackList);
    SeedSkills();
    MarcusMatches(); PriyaMatches(); AlexMatches(); EmilyMatches(); DavidMatches(); LisaMatches(); JamesMatches();
    FilterSeed(p);
    assert Keep(Marcus, p) == [] && Keep(Priya, p) == [] && Keep(Alex, p) == [Alex];
    assert Keep(Emily, p) == [] && Keep(David, p) == [David] && Keep(Lisa, p) == [] && Keep(James, p) == [];
    Picks24(Alex, David);
  }

  lemma BackendCategoryMatches()
    ensures MentorsWithSkillIn(Mentors, BackendCategorySkills) == [Priya, Alex, David]
  {
    var p := HasSkillIn(BackendCategorySkills);
    SeedSkills();
    MarcusMatches(); PriyaMatches(); AlexMatches(); EmilyMatches(); DavidMatches(); LisaMatches(); JamesMatches();
    FilterSeed(p);
    assert Keep(Marcus, p) == [] && Keep(Priya, p) == [Priya] && Keep(Alex, p) == [Alex];
    assert Keep(Emily, p) == [] && Keep(David, p) == [David] && Keep(Lisa, p) == [] && Keep(James, p) == [];
    Picks124(Priya, Alex, David);
  }

  lemma ProductCategoryMatches()
    ensures MentorsWithSkillIn(Mentors, ProductCategorySkills) == [Marcus, Emily]
  {
    var p := HasSkillIn(ProductCategorySkills);
    SeedSkills();
    MarcusMatches(); PriyaMatches(); AlexMatches(); EmilyMatches(); DavidMatches(); LisaMatches(); JamesMatches();
    FilterSeed(p);
    assert Keep(Marcus, p) == [Marcus] && Keep(Priya, p) == [] && Keep(Alex, p) == [];
    assert Keep(Emily, p) == [Emily] && Keep(David, p) == [] && Keep(Lisa, p) == [] && Keep(James, p) == [];
    Picks03(Marcus, Emily);
  }

  /**
    Each category's `mentors` field is the number of mentors matching the list
    the seed filters with for it. For the Backend and Product categories this
    is not the count their own `skills` give (3 and 2).
   */
  lemma SeedCategoryCounts()
    ensures |SkillCategories| == 6
    ensures forall k :: 0 <= k < 6 ==> SkillCategories[k].id == k + 1
    ensures SkillCategories[0].mentors == |MentorsWithSkillIn(Mentors, FrontendList)|
    ensures SkillCategories[1].mentors == |MentorsWithSkillIn(Mentors, BackendList)|
    ensures SkillCategories[2].mentors == |MentorsWithSkillIn(Mentors, DataList)|
    ensures SkillCategories[3].mentors == |MentorsWithSkillIn(Mentors, ProductList)|
    ensures SkillCategories[4].mentors == |MentorsWithSkillIn(Mentors, DesignList)|
    ensures SkillCategories[5].mentors == |MentorsWithSkillIn(Mentors, DevOpsList)|
    ensures SkillCategories[1].mentors != |MentorsWithSkillIn(Mentors, SkillCategories[1].skills)|
    ensures SkillCategories[3].mentors != |MentorsWithSkillIn(Mentors, SkillCategories[3].skills)|
  {
    FrontendMatches(); BackendMatches(); DataMatches(); ProductMatches(); DesignMatches(); DevOpsMatches();
    BackendCategoryMatches(); ProductCategoryMatches();
  }

  /** The seeded paths have ids 1..4, five skills each, and start with `progress` 0. */
  lemma SeedPathShape()
    ensures |LearningPaths| == 4
    ensures forall k :: 0 <= k < 4 ==>
      LearningPaths[k].id == k + 1 && |LearningPaths[k].skills| == 5 && LearningPaths[k].progress == 0
  {
  }

  /**
    Each path's `mentors` is the in-order list of mentors matching the list the
    seed filters with for it: [Alex], [Alex, David], [Priya] and [Marcus].
   */
  lemma SeedPathMentors()
    ensures LearningPaths[0].mentors == MentorsWithSkillIn(Mentors, FrontendList)
    ensures LearningPaths[1].mentors == MentorsWithSkillIn(Mentors, FullStackList)
    ensures LearningPaths[2].mentors == MentorsWithSkillIn(Mentors, DataList)
    ensures LearningPaths[3].mentors == MentorsWithSkillIn(Mentors, ProductList)
  {
    FrontendMatches(); FullStackMatches(); DataMatches(); ProductMatches();
  }

  /** Every mentor is either "Available" or "Limited". */
  lemma SeedAvailability()
    ensures forall m :: m in Mentors ==> m.availability == "Available" || m.availability == "Limited"
  {
  }

  /** The mentors whose availability reads exactly `a`. */
  function HasAvailability(a: string): Mentor -> bool {
    (m: Mentor) => m.availability == a
  }

  /** Seven spelled-out steps keeping the first, third, fourth, fifth and seventh element. */
  lemma KeepFiveOfSeven<T>(a: T, b: T, c: T, e: T, f: T, g: T, h: T, p: T -> bool)
    requires p(a) && !p(b) && p(c) && p(e) && p(f) && !p(g) && p(h)
    ensures Keep(a, p) + (Keep(b, p) + (Keep(c, p) + (Keep(e, p) + (Keep(f, p) + (Keep(g, p) + Keep(h, p)))))) ==
      [a, c, e, f, h]
  {
  }

  /** Seven spelled-out steps keeping only the second and sixth element. */
  lemma KeepTwoOfSeven<T>(a: T, b: T, c: T, e: T, f: T, g: T, h: T, p: T -> bool)
    requires !p(a) && p(b) && !p(c) && !p(e) && !p(f) && p(g) && !p(h)
    ensures Keep(a, p) + (Keep(b, p) + (Keep(c, p) + (Keep(e, p) + (Keep(f, p) + (Keep(g, p) + Keep(h, p)))))) ==
      [b, g]
  {
  }

  /** The seed's mentors whose availability is spelled "Available". */
  lemma SeedAvailableSpelling()
    ensures Filter(Mentors, HasAvailability("Available")) == [Marcus, Alex, Emily, David, James]
  {
    var p := HasAvailability("Available");
    FilterSeed(p);
    KeepFiveOfSeven(Marcus, Priya, Alex, Emily, David, Lisa, James, p);
  }

  /** The seed's mentors whose availability is spelled "Limited". */
  lemma SeedLimitedSpelling()
    ensures Filter(Mentors, HasAvailability("Limited")) == [Priya, Lisa]
  {
    var q := HasAvailability("Limited");
    FilterSeed(q);
    KeepTwoOfSeven(Marcus, Priya, Alex, Emily, David, Lisa, James, q);
  }

  /** The experience text of a mentor with `n` years, as the seed writes it ("10 years"). */
  function Years(n: nat): string {
    NatToString(n) + " years"
  }

  /** An experience text reads back, through `parseInt`, as its number of years. */
  lemma YearsParse(n: nat)
    ensures ParseInt(Years(n)) == Some(n)
  {
    ParseIntOfNatPrefix(n, " years");
  }

  /** The experience texts are the seed's "10 years", "12 years", ... */
  lemma SeedExperienceText()
    ensures Marcus.experience == "10 years" && Priya.experience == "12 years" && Alex.experience == "6 years"
    ensures Emily.experience == "7 years" && David.experience == "9 years" && Lisa.experience == "11 years"
    ensures James.experience == "8 years"
  {
  }

  /** Every experience string starts with its number of years, so `parseInt` reads it. */
  lemma SeedExperience()
    ensures ParseInt(Marcus.experience) == Some(10) && ParseInt(Priya.experience) == Some(12)
    ensures ParseInt(Alex.experience) == Some(6) && ParseInt(Emily.experience) == Some(7)
    ensures ParseInt(David.experience) == Some(9) && ParseInt(Lisa.experience) == Some(11)
    ensures ParseInt(James.experience) == Some(8)
  {
    YearsParse(10); YearsParse(12); YearsParse(6); YearsParse(7); YearsParse(9); YearsParse(11); YearsParse(8);
  }
}
