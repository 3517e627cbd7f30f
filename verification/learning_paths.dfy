/**
  The learning-path cards: the progress each path shows, how many of its
  skills are ticked off, the mentors offered for it, and which card a `path`
  deep link highlights.
 */
module LearningPathsPage {
  import opened Common
  import opened Strings
  import opened Url
  import opened Data

  /**
    `getProgressPercentage`: the built-in table 1 -> 25, 2 -> 0, 3 -> 60,
    4 -> 15; any other id misses the table and falls back to 0.
   */
  function ProgressOf(pathId: int): (r: nat)
    ensures r <= 100
    ensures r > 0 ==> 1 <= pathId <= 4
  {
    if pathId == 1 then 25
    else if pathId == 3 then 60
    else if pathId == 4 then 15
    else 0
  }

  /** `learningPaths.find(p => p.id === pathId)`. */
  function FindPath(paths: seq<LearningPath>, pathId: int): (r: Option<LearningPath>)
    ensures r.Some? <==> exists i :: 0 <= i < |paths| && paths[i].id == pathId
    ensures r.Some? ==> r.value in paths && r.value.id == pathId
  {
    Find(paths, PathId(), pathId)
  }

  function PathId(): LearningPath -> int {
    (p: LearningPath) => p.id
  }

  /**
    `getCompletedSkills`: the whole number of skills the progress percentage
    covers, rounded down; 0 when no path has the id.
   */
  function CompletedSkills(paths: seq<LearningPath>, pathId: int): (r: nat)
    ensures FindPath(paths, pathId).None? ==> r == 0
    ensures FindPath(paths, pathId).Some? ==>
      var n := |FindPath(paths, pathId).value.skills|;
      r * 100 <= ProgressOf(pathId) * n < (r + 1) * 100 && r <= n
  {
    match FindPath(paths, pathId)
    case None => 0
    case Some(p) => ProgressOf(pathId) * |p.skills| / 100
  }

  /** The tick marks of a skill list of length `n` with `k` completed: `skillIndex < k`. */
  function CompletedMarks(n: nat, k: nat): (marks: seq<bool>)
    ensures |marks| == n
  {
    if n == 0 then [] else CompletedMarks(n - 1, k) + [n - 1 < k]
  }

  function IsTicked(): bool -> bool {
    (b: bool) => b
  }

  /** Exactly the first `k` skills are ticked, so `min(k, n)` ticks in all. */
  lemma CompletedMarksArePrefix(n: nat, k: nat)
    ensures forall i :: 0 <= i < n ==> (CompletedMarks(n, k)[i] <==> i < k)
    ensures Count(CompletedMarks(n, k), IsTicked()) == Min(k, n)
  {
    CompletedMarksTicked(n, k);
    CompletedMarksCount(n, k);
  }

  lemma {:induction false} CompletedMarksTicked(n: nat, k: nat)
    ensures forall i :: 0 <= i < n ==> (CompletedMarks(n, k)[i] <==> i < k)
  {
    if n > 0 {
      CompletedMarksTicked(n - 1, k);
      var prev := CompletedMarks(n - 1, k);
      assert CompletedMarks(n, k) == prev + [n - 1 < k];
      assert forall i :: 0 <= i < n - 1 ==> CompletedMarks(n, k)[i] == prev[i];
    }
  }

  lemma {:induction false} CompletedMarksCount(n: nat, k: nat)
    ensures Count(CompletedMarks(n, k), IsTicked()) == Min(k, n)
  {
    if n > 0 {
      CompletedMarksCount(n - 1, k);
      var prev := CompletedMarks(n - 1, k);
      var last := [n - 1 < k];
      assert CompletedMarks(n, k) == prev + last;
      FilterConcat(prev, last, IsTicked());
      assert |Filter(last, IsTicked())| == (if n - 1 < k then 1 else 0) by {
        assert last[1..] == [];
      }
    }
  }

  /** On a real path the ticks never outnumber the skills. */
  lemma TickedSkillsOfPath(paths: seq<LearningPath>, pathId: int)
    requires FindPath(paths, pathId).Some?
    ensures var n := |FindPath(paths, pathId).value.skills|;
      Count(CompletedMarks(n, CompletedSkills(paths, pathId)), IsTicked()) == CompletedSkills(paths, pathId)
  {
    var n := |FindPath(paths, pathId).value.skills|;
    CompletedMarksArePrefix(n, CompletedSkills(paths, pathId));
  }

  /** A mentor shares at least one exact skill with the path's list. */
  function SharesSkillWith(pathSkills: seq<string>): Mentor -> bool {
    (m: Mentor) => Intersects(pathSkills, m.skills)
  }

  /** `pathMentors`: the mentors sharing a skill with the path, in seed order. */
  function PathMentors(ms: seq<Mentor>, path: LearningPath): (r: seq<Mentor>)
    ensures Subsequence(r, ms)
    ensures forall m :: m in r <==> m in ms && exists i :: 0 <= i < |path.skills| && path.skills[i] in m.skills
  {
    forall m | m in ms ensures SharesSkillWith(path.skills)(m) <==>
      exists i :: 0 <= i < |path.skills| && path.skills[i] in m.skills
    {
      IntersectsIff(path.skills, m.skills);
    }
    Filter(ms, SharesSkillWith(path.skills))
  }

  lemma IntersectsSymmetric(a: seq<string>, b: seq<string>)
    ensures Intersects(a, b) <==> Intersects(b, a)
  {
    IntersectsIff(a, b);
    IntersectsIff(b, a);
    if Intersects(a, b) {
      var i :| 0 <= i < |a| && a[i] in b;
      var j :| 0 <= j < |b| && b[j] == a[i];
    }
    if Intersects(b, a) {
      var j :| 0 <= j < |b| && b[j] in a;
      var i :| 0 <= i < |a| && a[i] == b[j];
    }
  }

  /**
    The page's mentor list for a path is the same filter the seed uses for its
    `mentors` fields, applied to the path's own skills.
   */
  lemma {:induction false} PathMentorsIsSkillMatch(ms: seq<Mentor>, path: LearningPath)
    ensures PathMentors(ms, path) == MentorsWithSkillIn(ms, path.skills)
  {
    if ms != [] {
      PathMentorsIsSkillMatch(ms[1..], path);
      IntersectsSymmetric(path.skills, ms[0].skills);
    }
  }

  /** The card shows at most four avatars; a "+k" badge counts the rest. */
  lemma AvatarsCover(ms: seq<Mentor>, path: LearningPath)
    ensures var pm := PathMentors(ms, path);
      |Take(pm, 4)| == Min(4, |pm|) &&
      |Take(pm, 4)| + (match OverflowBadge(|pm|, 4) case Some(k) => k case None => 0) == |pm|
  {
    TakeAndBadgeCoverList(PathMentors(ms, path), 4);
  }

  /** The progress bar and "Continue Learning" show exactly when progress is positive. */
  predicate ShowsProgress(pathId: int) {
    ProgressOf(pathId) > 0
  }

  /** Of the seeded paths, 1, 3 and 4 show progress and path 2 does not. */
  lemma SeedProgress()
    ensures |LearningPaths| == 4
    ensures forall k :: 0 <= k < 4 ==> (ShowsProgress(LearningPaths[k].id) <==> k != 1)
    ensures CompletedSkills(LearningPaths, 1) == 1 && CompletedSkills(LearningPaths, 2) == 0
    ensures CompletedSkills(LearningPaths, 3) == 3 && CompletedSkills(LearningPaths, 4) == 0
    ensures CompletedSkills(LearningPaths, 5) == 0
  {
    SeedPathShape();
    ProgressOfFour(LearningPaths);
  }

  /** Four paths numbered 1 to 4, each of five skills. */
  lemma ProgressOfFour(ps: seq<LearningPath>)
    requires |ps| == 4 && forall i :: 0 <= i < 4 ==> ps[i].id == i + 1 && |ps[i].skills| == 5
    ensures forall k :: 0 <= k < 4 ==> (ShowsProgress(ps[k].id) <==> k != 1)
    ensures CompletedSkills(ps, 1) == 1 && CompletedSkills(ps, 2) == 0
    ensures CompletedSkills(ps, 3) == 3 && CompletedSkills(ps, 4) == 0
    ensures CompletedSkills(ps, 5) == 0
  {
    forall k | 0 <= k < 4 ensures ShowsProgress(ps[k].id) <==> k != 1 {
      assert ps[k].id == k + 1;
    }
    CompletedOfNumbered(ps, 5);
    assert CompletedSkills(ps, ps[0].id) == 25 * 5 / 100 && CompletedSkills(ps, ps[1].id) == 0;
    assert CompletedSkills(ps, ps[2].id) == 60 * 5 / 100 && CompletedSkills(ps, ps[3].id) == 15 * 5 / 100;
  }

  /** On paths numbered 1, 2, … in order, each id reads its own path's skills and the next id none. */
  lemma CompletedOfNumbered(ps: seq<LearningPath>, n: nat)
    requires forall i :: 0 <= i < |ps| ==> ps[i].id == i + 1 && |ps[i].skills| == n
    ensures forall j :: 0 <= j < |ps| ==> CompletedSkills(ps, ps[j].id) == ProgressOf(ps[j].id) * n / 100
    ensures CompletedSkills(ps, |ps| + 1) == 0
  {
    FindNumbered(ps);
    forall j | 0 <= j < |ps| ensures CompletedSkills(ps, ps[j].id) == ProgressOf(ps[j].id) * n / 100 {
      assert FindPath(ps, j + 1) == Some(ps[j]);
      assert |ps[j].skills| == n;
    }
  }

  /** When the paths are numbered 1, 2, … in order, each id finds its own path and the next id none. */
  lemma FindNumbered(ps: seq<LearningPath>)
    requires forall i :: 0 <= i < |ps| ==> ps[i].id == i + 1
    ensures forall j :: 0 <= j < |ps| ==> FindPath(ps, j + 1) == Some(ps[j])
    ensures FindPath(ps, |ps| + 1) == None
  {
    forall j | 0 <= j < |ps| ensures FindPath(ps, j + 1) == Some(ps[j]) {
      FindUnique(ps, PathId(), j + 1, j);
    }
  }

  // ---------------------------------------------------------------------------
  // Selection and highlight
  // ---------------------------------------------------------------------------

  /**
    `selectedPath`. `null` and NaN are both `None`: neither equals any id, so
    the page cannot tell them apart.
   */
  type Selection = Option<int>

  /** The `path` effect: a non-empty value selects whatever `parseInt` reads from it. */
  function ApplyPathParam(params: seq<Param>, selected: Selection): (r: Selection)
    ensures Get(params, "path").None? || Get(params, "path").value == [] ==> r == selected
    ensures Get(params, "path").Some? && Get(params, "path").value != [] ==> r == ParseInt(Get(params, "path").value)
  {
    match Get(params, "path")
    case Some(text) => if text != [] then ParseInt(text) else selected
    case None => selected
  }

  /** Clicking a card selects it. */
  function ClickPath(path: LearningPath): Selection {
    Some(path.id)
  }

  predicate Highlighted(selected: Selection, path: LearningPath) {
    selected == Some(path.id)
  }

  predicate DistinctIds(paths: seq<LearningPath>) {
    forall i, j :: 0 <= i < j < |paths| ==> paths[i].id != paths[j].id
  }

  /**
    With distinct ids at most one card is highlighted, the one whose id was
    read; an id no card has, or NaN, highlights none.
   */
  lemma AtMostOneHighlighted(paths: seq<LearningPath>, selected: Selection)
    requires DistinctIds(paths)
    ensures forall i, j ::
      (0 <= i < |paths| && 0 <= j < |paths| && Highlighted(selected, paths[i]) && Highlighted(selected, paths[j]))
      ==> i == j
    ensures selected.None? || FindPath(paths, selected.value).None? ==>
      forall i :: 0 <= i < |paths| ==> !Highlighted(selected, paths[i])
  {
  }

  /** After a click on a seeded card, that card and no other is highlighted. */
  lemma ClickHighlightsOnlyThatCard(k: nat)
    requires k < |LearningPaths|
    ensures forall i :: 0 <= i < |LearningPaths| ==>
      (Highlighted(ClickPath(LearningPaths[k]), LearningPaths[i]) <==> i == k)
  {
    SeedPathShape();
  }

  /** A `path` value written from a whole number selects that number. */
  lemma PathParamSelects(params: seq<Param>, n: nat)
    requires Get(params, "path") == Some(NatToString(n))
    ensures ApplyPathParam(params, None) == Some(n)
  {
    ParseIntOfNatPrefix(n, "");
    assert NatToString(n) + "" == NatToString(n);
  }

  /** A `path` link written with a seeded id highlights that card alone. */
  lemma PathLinkHighlights(k: nat, rest: seq<Param>)
    requires k < |LearningPaths|
    ensures var params := [Param("path", NatToString(k + 1))] + rest;
      forall i :: 0 <= i < |LearningPaths| ==>
        (Highlighted(ApplyPathParam(params, None), LearningPaths[i]) <==> i == k)
  {
    var params := [Param("path", NatToString(k + 1))] + rest;
    assert params[0] == Param("path", NatToString(k + 1));
    PathParamSelects(params, k + 1);
    SeedPathShape();
  }
}
