/**
  The shell around every page: the header search box with its debounced
  navigation, the sidebar's active item and mentor badge, and the page title.
 */
module Layout {
  import opened Common
  import opened Strings
  import opened Url
  import opened Data

  // ---------------------------------------------------------------------------
  // The debouncer
  // ---------------------------------------------------------------------------

  /** The debounce delay, in the same unit as the keystroke times. */
  const Wait: int := 300

  datatype Keystroke = Keystroke(time: int, query: string)

  /** Either no timeout is set, or one is, holding its argument and when it is due. */
  datatype Debouncer = Idle | Waiting(query: string, deadline: int)

  /** A run of the wrapped function: when, and with which argument. */
  datatype Fired = Fired(time: int, query: string)

  /**
    A call of the debounced function: whatever timeout was set is cleared and
    a new one is set `Wait` after the call, holding the new argument.
   */
  function Call(d: Debouncer, k: Keystroke): (r: Debouncer)
    ensures forall t :: t < k.time + Wait ==> Advance(r, t) == (r, None)
    ensures Advance(r, k.time + Wait) == (Idle, Some(Fired(k.time + Wait, k.query)))
  {
    Waiting(k.query, k.time + Wait)
  }

  /** Time reaches `t`: a timeout due by then runs once and is gone. */
  function Advance(d: Debouncer, t: int): (r: (Debouncer, Option<Fired>))
    ensures r.1.Some? <==> d.Waiting? && d.deadline <= t
    ensures r.1.Some? ==> r.0 == Idle && r.1.value == Fired(d.deadline, d.query)
    ensures r.1.None? ==> r.0 == d
  {
    match d
    case Waiting(q, due) => if due <= t then (Idle, Some(Fired(due, q))) else (d, None)
    case Idle => (d, None)
  }

  function Appended(fired: seq<Fired>, f: Option<Fired>): seq<Fired> {
    match f
    case Some(x) => fired + [x]
    case None => fired
  }

  /**
    A keystroke at time `t`: timeouts due strictly before `t` run first; one
    due at `t` itself is cleared by the keystroke.
   */
  function Step(s: (Debouncer, seq<Fired>), k: Keystroke): (Debouncer, seq<Fired>) {
    var (d, f) := Advance(s.0, k.time - 1);
    (Call(d, k), Appended(s.1, f))
  }

  /** The keystrokes in order, from an idle debouncer: the state and what has run so far. */
  function Run(ks: seq<Keystroke>): (r: (Debouncer, seq<Fired>))
    ensures |r.1| <= |ks|
    ensures ks != [] ==> r.0 == Waiting(ks[|ks| - 1].query, ks[|ks| - 1].time + Wait)
  {
    if ks == [] then (Idle, []) else Step(Run(ks[..|ks| - 1]), ks[|ks| - 1])
  }

  /** Keystrokes in time order, each within `Wait` of the one before. */
  ghost predicate Burst(ks: seq<Keystroke>) {
    forall i, j :: 0 <= i && j == i + 1 && j < |ks| ==> ks[i].time <= ks[j].time < ks[i].time + Wait
  }

  /**
    A burst runs nothing while it lasts: afterwards one timeout is set, holding
    the last keystroke's query and due `Wait` after it.
   */
  lemma {:induction false} BurstDefers(ks: seq<Keystroke>)
    requires ks != [] && Burst(ks)
    ensures Run(ks) == (Waiting(ks[|ks| - 1].query, ks[|ks| - 1].time + Wait), [])
  {
    var n := |ks|;
    var init := ks[..n - 1];
    if init != [] {
      assert Burst(init) by {
        forall i, j | 0 <= i && j == i + 1 && j < |init|
          ensures init[i].time <= init[j].time < init[i].time + Wait
        {
          assert init[i] == ks[i] && init[j] == ks[j];
        }
      }
      BurstDefers(init);
      assert init[|init| - 1] == ks[n - 2];
    }
  }

  /**
    After a burst, with nothing typed since, the wrapped function runs exactly
    once, with the last query, at `Wait` after the last keystroke, and not before.
   */
  lemma BurstFiresOnce(ks: seq<Keystroke>, t: int)
    requires ks != [] && Burst(ks)
    ensures var last := ks[|ks| - 1];
      var r := Advance(Run(ks).0, t);
      (t < last.time + Wait ==> r.1.None? && r.0 == Run(ks).0) &&
      (t >= last.time + Wait ==> r.1 == Some(Fired(last.time + Wait, last.query)) && r.0 == Idle)
  {
    BurstDefers(ks);
  }

  /** Typing "a", "ab", "abc" at 0, 100 and 150 runs the search once, with "abc", at 450. */
  lemma TypingExample()
    ensures var ks := [Keystroke(0, "a"), Keystroke(100, "ab"), Keystroke(150, "abc")];
      Advance(Run(ks).0, 449).1.None? && Advance(Run(ks).0, 450).1 == Some(Fired(450, "abc"))
  {
    var ks := [Keystroke(0, "a"), Keystroke(100, "ab"), Keystroke(150, "abc")];
    BurstFiresOnce(ks, 449);
    BurstFiresOnce(ks, 450);
  }

  /** Every run of the wrapped function carries a typed query and happens `Wait` after it was typed. */
  lemma {:induction false} FiredComeFromKeystrokes(ks: seq<Keystroke>)
    ensures forall f :: f in Run(ks).1 ==> exists k :: k in ks && f == Fired(k.time + Wait, k.query)
    ensures Run(ks).0.Waiting? ==> exists k :: k in ks && Run(ks).0 == Waiting(k.query, k.time + Wait)
  {
    if ks != [] {
      var init := ks[..|ks| - 1];
      var last := ks[|ks| - 1];
      FiredComeFromKeystrokes(init);
      assert forall k :: k in init ==> k in ks;
      assert last in ks;
    }
  }

  // ---------------------------------------------------------------------------
  // The search box
  // ---------------------------------------------------------------------------

  /** The shell's state: the search box text, its debouncer, and the pages visited. */
  datatype Shell = Shell(searchQuery: string, debouncer: Debouncer, visited: seq<string>)

  /** The link a search navigates to (`encodeURIComponent` is not modelled). */
  function SearchLink(query: string): string {
    Href("/mentors", [Param("search", query)])
  }

  /**
    `handleSearch`: the query is always recorded; the shell navigates only
    when the query has a character other than whitespace.
   */
  function HandleSearch(s: Shell, query: string): (r: Shell)
    ensures r.searchQuery == query && r.debouncer == s.debouncer
    ensures Trim(query) == [] ==> r.visited == s.visited
    ensures Trim(query) != [] ==> r.visited == s.visited + [SearchLink(query)]
  {
    if Trim(query) != [] then s.(searchQuery := query, visited := s.visited + [SearchLink(query)])
    else s.(searchQuery := query)
  }

  /** A search navigates exactly when some character of the query is not whitespace. */
  lemma SearchNavigatesIffNotBlank(s: Shell, query: string)
    ensures |HandleSearch(s, query).visited| == |s.visited| + 1 <==>
      exists i :: 0 <= i < |query| && !IsJsSpace(query[i])
  {
    TrimEmptyIffAllSpace(query);
  }

  /** Time reaches `t`: a due timeout runs `handleSearch` with its query. */
  function OnTime(s: Shell, t: int): (r: Shell)
    ensures r.debouncer == Advance(s.debouncer, t).0
    ensures Advance(s.debouncer, t).1.None? ==> r == s.(debouncer := r.debouncer)
    ensures Advance(s.debouncer, t).1.Some? ==> r.searchQuery == Advance(s.debouncer, t).1.value.query
  {
    var (d, f) := Advance(s.debouncer, t);
    match f
    case Some(x) => HandleSearch(s.(debouncer := d), x.query)
    case None => s.(debouncer := d)
  }

  /**
    A keystroke at time `t`: a search due before `t` runs first, then the box
    shows the new text at once and the debouncer is re-armed. The keystroke
    itself never navigates.
   */
  function OnChange(s: Shell, k: Keystroke): (r: Shell)
    ensures r.searchQuery == k.query
    ensures r.visited == OnTime(s, k.time - 1).visited
    ensures r.debouncer == Waiting(k.query, k.time + Wait)
  {
    OnTime(s, k.time - 1).(searchQuery := k.query, debouncer := Call(s.debouncer, k))
  }

  /** Keystrokes fed to the shell one by one leave its debouncer where `Run` leaves it. */
  function Typed(s: Shell, ks: seq<Keystroke>): Shell {
    if ks == [] then s else OnChange(Typed(s, ks[..|ks| - 1]), ks[|ks| - 1])
  }

  lemma {:induction false} TypedFollowsRun(s: Shell, ks: seq<Keystroke>)
    requires s.debouncer == Idle
    ensures Typed(s, ks).debouncer == Run(ks).0
    ensures |Typed(s, ks).visited| <= |s.visited| + |Run(ks).1|
  {
    if ks != [] {
      var init := ks[..|ks| - 1];
      TypedFollowsRun(s, init);
      var t := Typed(s, init);
      var f := Advance(t.debouncer, ks[|ks| - 1].time - 1).1;
      assert |OnTime(t, ks[|ks| - 1].time - 1).visited| <= |t.visited| + (if f.Some? then 1 else 0);
    }
  }

  /** Typing "a", "ab", "abc" and waiting navigates once, to the search for "abc". */
  lemma TypingNavigatesOnce(s: Shell)
    requires s.debouncer == Idle
    ensures var s1 := OnChange(s, Keystroke(0, "a"));
      var s2 := OnChange(s1, Keystroke(100, "ab"));
      var s3 := OnChange(s2, Keystroke(150, "abc"));
      s3.searchQuery == "abc" && s3.visited == s.visited &&
      OnTime(s3, 449).visited == s.visited &&
      OnTime(s3, 450).visited == s.visited + [SearchLink("abc")]
  {
    TypingAbc(s);
    TrimUnchanged("abc");
    PendingSearchRuns("abc", 450, s.visited, 449);
    PendingSearchRuns("abc", 450, s.visited, 450);
  }

  /** The three keystrokes leave one search pending, for "abc" at 450, and navigate nowhere. */
  lemma TypingAbc(s: Shell)
    requires s.debouncer == Idle
    ensures OnChange(OnChange(OnChange(s, Keystroke(0, "a")), Keystroke(100, "ab")), Keystroke(150, "abc")) ==
      Shell("abc", Waiting("abc", 450), s.visited)
  {
    var s1 := OnChange(s, Keystroke(0, "a"));
    assert s1 == Shell("a", Waiting("a", 300), s.visited);
    KeystrokeBeforeDue(s1, Keystroke(100, "ab"));
    KeystrokeBeforeDue(OnChange(s1, Keystroke(100, "ab")), Keystroke(150, "abc"));
  }

  /** A pending search runs once its time comes, navigating when its query is not blank. */
  lemma PendingSearchRuns(q: string, due: int, visited: seq<string>, t: int)
    ensures var r := OnTime(Shell(q, Waiting(q, due), visited), t);
      (t < due ==> r.visited == visited) &&
      (t >= due && Trim(q) == [] ==> r.visited == visited) &&
      (t >= due && Trim(q) != [] ==> r.visited == visited + [SearchLink(q)])
  {
  }

  /** A keystroke before the pending search is due only re-arms the debouncer. */
  lemma KeystrokeBeforeDue(s: Shell, k: Keystroke)
    requires s.debouncer.Waiting? && k.time - 1 < s.debouncer.deadline
    ensures OnChange(s, k) == Shell(k.query, Waiting(k.query, k.time + Wait), s.visited)
  {
  }

  // ---------------------------------------------------------------------------
  // Sidebar and title
  // ---------------------------------------------------------------------------

  /** `getActiveMentorsCount`: mentors whose availability is exactly "Available". */
  function ActiveMentorsCount(ms: seq<Mentor>): (r: nat)
    ensures r <= |ms|
    ensures r == |ms| <==> forall m :: m in ms ==> m.availability == "Available"
  {
    FilterKeepsAllIff(ms, HasAvailability("Available"));
    Count(ms, HasAvailability("Available"))
  }

  /** Five of the seven seeded mentors are "Available". */
  lemma SeedActiveMentors()
    ensures ActiveMentorsCount(Mentors) == 5
  {
    SeedAvailableSpelling();
  }

  datatype NavItem = NavItem(name: string, href: string)

  /** The sidebar entries, in order. */
  const Navigation: seq<NavItem> := [
    NavItem("Dashboard", "/"),
    NavItem("Mentors", "/mentors"),
    NavItem("Learning Paths", "/learning-paths"),
    NavItem("Settings", "/settings")
  ]

  /** A sidebar entry is highlighted when the path is exactly its link. */
  predicate IsActive(pathname: string, item: NavItem) {
    pathname == item.href
  }

  /** At most one entry is highlighted; none for a path that is not one of the four links. */
  lemma AtMostOneActive(pathname: string)
    ensures forall i, j ::
      (0 <= i < |Navigation| && 0 <= j < |Navigation| &&
       IsActive(pathname, Navigation[i]) && IsActive(pathname, Navigation[j])) ==> i == j
    ensures (exists i :: 0 <= i < |Navigation| && IsActive(pathname, Navigation[i])) <==>
      pathname in ["/", "/mentors", "/learning-paths", "/settings"]
  {
    assert Navigation[0].href == "/" && Navigation[1].href == "/mentors";
    assert Navigation[2].href == "/learning-paths" && Navigation[3].href == "/settings";
  }

  /** The header title for a path; empty off the four pages. */
  function PageTitle(pathname: string): (r: string)
    ensures r == [] <==> pathname !in ["/", "/mentors", "/learning-paths", "/settings"]
  {
    if pathname == "/" then "Dashboard"
    else if pathname == "/mentors" then "Find Mentors"
    else if pathname == "/learning-paths" then "Learning Paths"
    else if pathname == "/settings" then "Settings"
    else ""
  }

  /** The header subtitle; on the mentor page it counts the available mentors. */
  function PageSubtitle(pathname: string, ms: seq<Mentor>): (r: string)
    ensures r == [] <==> pathname !in ["/", "/mentors", "/learning-paths", "/settings"]
    ensures pathname == "/mentors" ==> r == IntToString(ActiveMentorsCount(ms)) + " mentors available"
  {
    if pathname == "/" then "Welcome back! Your learning journey continues."
    else if pathname == "/mentors" then IntToString(ActiveMentorsCount(ms)) + " mentors available"
    else if pathname == "/learning-paths" then "Structured programs for your career growth"
    else if pathname == "/settings" then "Manage your account and preferences"
    else ""
  }

  /** The subtitle on the mentor page starts with the number of available mentors. */
  lemma MentorSubtitleReadsBack(ms: seq<Mentor>)
    ensures ParseInt(PageSubtitle("/mentors", ms)) == Some(ActiveMentorsCount(ms))
  {
    ParseIntOfIntPrefix(ActiveMentorsCount(ms), " mentors available");
  }

  /** The title names the highlighted entry, except that "Mentors" is titled "Find Mentors". */
  lemma TitleMatchesActiveEntry(pathname: string, i: nat)
    requires i < |Navigation| && IsActive(pathname, Navigation[i])
    ensures PageTitle(pathname) == (if i == 1 then "Find Mentors" else Navigation[i].name)
  {
  }
}
