/**
  The notification bell: the list of notifications, the updates the panel
  makes to it, the unread badge, and the "time ago" text of each entry.
 */
module Notifications {
  import opened Common
  import opened Strings

  datatype Kind = Meeting | Learning | MentorNews | System

  /**
    A notification. `timestamp` is in milliseconds; an action is modelled by
    its label, since its click handler only logs.
   */
  datatype Notification = Notification(
    id: string,
    kind: Kind,
    title: string,
    message: string,
    timestamp: int,
    read: bool,
    action: Option<string>)

  function IsUnread(): Notification -> bool {
    (n: Notification) => !n.read
  }

  /** `notifications.filter(n => !n.read).length`. */
  function UnreadCount(ns: seq<Notification>): (r: nat)
    ensures r <= |ns|
    ensures r == 0 <==> forall n :: n in ns ==> n.read
  {
    Count(ns, IsUnread())
  }

  /** `markAsRead`: every entry with the id is read; nothing else about any entry changes. */
  function MarkAsRead(ns: seq<Notification>, id: string): (r: seq<Notification>)
    ensures |r| == |ns|
    ensures forall i :: 0 <= i < |r| ==> r[i].read == (ns[i].read || ns[i].id == id)
    ensures forall i :: 0 <= i < |r| ==> r[i].(read := ns[i].read) == ns[i]
  {
    if ns == [] then []
    else
      var head := if ns[0].id == id then ns[0].(read := true) else ns[0];
      [head] + MarkAsRead(ns[1..], id)
  }

  /** `markAllAsRead`: every entry is read; nothing else about any entry changes. */
  function MarkAllAsRead(ns: seq<Notification>): (r: seq<Notification>)
    ensures |r| == |ns|
    ensures forall i :: 0 <= i < |r| ==> r[i].read && r[i].(read := ns[i].read) == ns[i]
  {
    if ns == [] then [] else [ns[0].(read := true)] + MarkAllAsRead(ns[1..])
  }

  function IdIsNot(id: string): Notification -> bool {
    (n: Notification) => n.id != id
  }

  /** `removeNotification`: the entries with another id, in order. */
  function Remove(ns: seq<Notification>, id: string): (r: seq<Notification>)
    ensures Subsequence(r, ns)
    ensures forall n :: n in r <==> n in ns && n.id != id
    ensures forall n :: multiset(r)[n] == if n.id != id then multiset(ns)[n] else 0
  {
    FilterCounts(ns, IdIsNot(id));
    Filter(ns, IdIsNot(id))
  }

  /** Marking twice is marking once. */
  lemma MarkAsReadIdempotent(ns: seq<Notification>, id: string)
    ensures MarkAsRead(MarkAsRead(ns, id), id) == MarkAsRead(ns, id)
  {
    var once := MarkAsRead(ns, id);
    var twice := MarkAsRead(once, id);
    forall i | 0 <= i < |once| ensures twice[i] == once[i] {
      assert twice[i].(read := once[i].read) == once[i];
    }
  }

  /** An id no entry has leaves the list as it was. */
  lemma MarkAbsentId(ns: seq<Notification>, id: string)
    requires forall n :: n in ns ==> n.id != id
    ensures MarkAsRead(ns, id) == ns
  {
    var r := MarkAsRead(ns, id);
    forall i | 0 <= i < |ns| ensures r[i] == ns[i] {
      assert ns[i] in ns;
      assert r[i].(read := ns[i].read) == ns[i];
    }
  }

  function IsUnreadWith(id: string): Notification -> bool {
    (n: Notification) => !n.read && n.id == id
  }

  /** Marking an id read takes exactly its unread entries off the unread count. */
  lemma {:induction false} UnreadAfterMark(ns: seq<Notification>, id: string)
    ensures UnreadCount(MarkAsRead(ns, id)) + Count(ns, IsUnreadWith(id)) == UnreadCount(ns)
  {
    if ns != [] {
      UnreadAfterMark(ns[1..], id);
      var r := MarkAsRead(ns, id);
      assert r == [r[0]] + MarkAsRead(ns[1..], id);
      FilterConcat([r[0]], MarkAsRead(ns[1..], id), IsUnread());
      FilterConcat([ns[0]], ns[1..], IsUnread());
      FilterConcat([ns[0]], ns[1..], IsUnreadWith(id));
      assert [ns[0]] + ns[1..] == ns;
    }
  }

  /** After "Mark all as read" nothing is unread. */
  lemma MarkAllClearsUnread(ns: seq<Notification>)
    ensures UnreadCount(MarkAllAsRead(ns)) == 0
  {
    var r := MarkAllAsRead(ns);
    forall n | n in r ensures n.read {
      var i :| 0 <= i < |r| && r[i] == n;
    }
  }

  /** Removing an id no entry has leaves the list as it was. */
  lemma RemoveAbsentId(ns: seq<Notification>, id: string)
    requires forall n :: n in ns ==> n.id != id
    ensures Remove(ns, id) == ns
  {
    FilterKeepsAll(ns, IdIsNot(id));
  }

  /** Removing twice is removing once. */
  lemma RemoveIdempotent(ns: seq<Notification>, id: string)
    ensures Remove(Remove(ns, id), id) == Remove(ns, id)
  {
    FilterIdempotent(ns, IdIsNot(id));
  }

  /** The "Mark all as read" button is shown while something is unread. */
  function ShowsMarkAll(ns: seq<Notification>): (r: bool)
    ensures r <==> exists i :: 0 <= i < |ns| && !ns[i].read
  {
    UnreadCount(ns) > 0
  }

  /**
    Clicking the action of the entry at `i` marks that entry read. The button
    only exists on entries that have an action.
   */
  function ActionClick(ns: seq<Notification>, i: nat): (r: seq<Notification>)
    requires i < |ns| && ns[i].action.Some?
    ensures |r| == |ns| && r[i].read
    ensures forall j :: 0 <= j < |r| && ns[j].id != ns[i].id ==> r[j] == ns[j]
  {
    MarkAsRead(ns, ns[i].id)
  }

  // ---------------------------------------------------------------------------
  // Badge
  // ---------------------------------------------------------------------------

  /** The badge over the bell: hidden with nothing unread, the count up to 9, then "9+". */
  function BadgeText(unread: int): (r: Option<string>)
    ensures r.None? <==> unread <= 0
    ensures unread > 9 ==> r == Some("9+")
    ensures 0 < unread <= 9 ==> r.Some? && |r.value| == 1 && IsDecimalDigit(r.value[0])
  {
    if unread <= 0 then None
    else if unread > 9 then Some("9+")
    else Some(NatToString(unread))
  }

  /** Read back with `parseInt`, a shown badge gives the unread count capped at 9. */
  lemma BadgeReadsBack(unread: int)
    requires unread > 0
    ensures ParseInt(BadgeText(unread).value) == Some(Min(unread, 9))
  {
    if unread > 9 {
      ParseIntOfNatPrefix(9, "+");
      assert NatToString(9) + "+" == "9+";
    } else {
      ParseIntOfNatPrefix(unread, "");
      assert NatToString(unread) + "" == NatToString(unread);
    }
  }

  // ---------------------------------------------------------------------------
  // Time ago
  // ---------------------------------------------------------------------------

  /** How old an entry is, in the unit its text uses. */
  datatype Age = Minutes(n: int) | Hours(n: int) | Days(n: int)

  /**
    The whole minutes elapsed, rounded down (for a positive divisor Dafny's
    `/` rounds down, as `Math.floor` does), put into its bucket.
   */
  function AgeOf(now: int, timestamp: int): (r: Age)
    ensures r.Minutes? <==> (now - timestamp) / 60000 < 60
    ensures r.Days? <==> (now - timestamp) / 60000 >= 1440
  {
    var m := (now - timestamp) / 60000;
    if m < 60 then Minutes(m)
    else if m < 1440 then Hours(m / 60)
    else Days(m / 1440)
  }

  /** What follows the number: the unit, an "s" unless hours or days are 1 or fewer, and "ago". */
  function Suffix(a: Age): (r: string)
    ensures r != [] && r[0] == ' '
    ensures |r| >= 4 && r[|r| - 4..] == " ago"
  {
    match a
    case Minutes(_) => " minutes ago"
    case Hours(h) => if h > 1 then " hours ago" else " hour ago"
    case Days(d) => if d > 1 then " days ago" else " day ago"
  }

  function AgeText(a: Age): string {
    IntToString(a.n) + Suffix(a)
  }

  /** `formatTimeAgo(timestamp)` read at time `now`. */
  function FormatTimeAgo(now: int, timestamp: int): (r: string)
    ensures ParseInt(r) == Some(AgeOf(now, timestamp).n)
    ensures |r| >= 4 && r[|r| - 4..] == " ago"
  {
    var a := AgeOf(now, timestamp);
    AgeTextReadsBack(a);
    EndsAgo(a);
    AgeText(a)
  }

  /**
    The bucket holds the elapsed minutes: under an hour as they are, under a
    day as 1 to 23 whole hours, and beyond as at least one whole day.
   */
  lemma AgeBuckets(now: int, timestamp: int)
    ensures var m := (now - timestamp) / 60000;
      match AgeOf(now, timestamp)
      case Minutes(k) => k == m && m < 60
      case Hours(h) => 60 <= m < 1440 && 1 <= h <= 23 && h * 60 <= m < (h + 1) * 60
      case Days(d) => 1440 <= m && 1 <= d && d * 1440 <= m < (d + 1) * 1440
  {
  }

  /**
    Minutes are always plural, even for 1 or a negative count; hours and days
    as they come out of `AgeOf` are singular exactly at 1.
   */
  lemma AgeWording(now: int, timestamp: int)
    ensures var a := AgeOf(now, timestamp);
      (a.Minutes? ==> Suffix(a) == " minutes ago") &&
      (a.Hours? ==> (Suffix(a) == " hour ago" <==> a.n == 1) && (a.n != 1 ==> Suffix(a) == " hours ago")) &&
      (a.Days? ==> (Suffix(a) == " day ago" <==> a.n == 1) && (a.n != 1 ==> Suffix(a) == " days ago"))
  {
    AgeBuckets(now, timestamp);
  }

  /** The text ends with " ago". */
  lemma EndsAgo(a: Age)
    ensures |AgeText(a)| >= 4 && AgeText(a)[|AgeText(a)| - 4..] == " ago"
  {
    var x, y := IntToString(a.n), Suffix(a);
    assert (x + y)[|x + y| - 4..] == y[|y| - 4..];
  }

  /** The text starts with the bucket's number: `parseInt` reads it back. */
  lemma AgeTextReadsBack(a: Age)
    ensures ParseInt(AgeText(a)) == Some(a.n)
  {
    ParseIntOfIntPrefix(a.n, Suffix(a));
  }

  // ---------------------------------------------------------------------------
  // The initial list
  // ---------------------------------------------------------------------------

  const Hour: int := 60 * 60 * 1000

  const MeetingMessage := "You have a scheduled meeting with Marcus Johnson (Product Manager) tomorrow at 2:00 PM"
  const LearningMessage := "You're 65% through the \"Frontend Development\" learning path. Continue where you left off!"
  const MentorMessage := "Dr. Priya Patel is now available for mentorship in Data Science"
  const ProfileMessage := "Your profile has been successfully updated"

  /**
    The four notifications the bell starts with. Time is measured from the
    moment the list is created, so their stamps are 2, 4, 6 and 24 hours
    before 0.
   */
  const Seed: seq<Notification> := [
    Notification("1", Meeting, "Meeting with Marcus Johnson", MeetingMessage, -2 * Hour, false, Some("View Details")),
    Notification("2", Learning, "Continue Your Learning Path", LearningMessage, -4 * Hour, false, Some("Continue Learning")),
    Notification("3", MentorNews, "New Mentor Available", MentorMessage, -6 * Hour, true, None),
    Notification("4", System, "Profile Update", ProfileMessage, -24 * Hour, true, None)
  ]

  /** Of four entries, two unread followed by two read make an unread count of 2. */
  lemma UnreadOfFour(s: seq<Notification>)
    requires |s| == 4 && !s[0].read && !s[1].read && s[2].read && s[3].read
    ensures UnreadCount(s) == 2
  {
    assert s == [s[0], s[1]] + [s[2], s[3]];
    FilterConcat([s[0], s[1]], [s[2], s[3]], IsUnread());
    assert Filter([s[0], s[1]], IsUnread()) == [s[0], s[1]];
    assert Filter([s[2], s[3]], IsUnread()) == [];
  }

  /** Entries "1" and "2" are unread and carry actions, so the badge shows "2". */
  lemma SeedUnread()
    ensures UnreadCount(Seed) == 2 && BadgeText(UnreadCount(Seed)) == Some("2")
    ensures forall i :: 0 <= i < |Seed| ==> (Seed[i].action.Some? <==> !Seed[i].read)
  {
    UnreadOfFour(Seed);
  }

  /** Read at creation, the entries say 2, 4 and 6 hours and 1 day ago. */
  lemma SeedAges()
    ensures AgeOf(0, Seed[0].timestamp) == Hours(2)
    ensures AgeOf(0, Seed[1].timestamp) == Hours(4)
    ensures AgeOf(0, Seed[2].timestamp) == Hours(6)
    ensures AgeOf(0, Seed[3].timestamp) == Days(1)
    ensures Suffix(AgeOf(0, Seed[3].timestamp)) == " day ago"
  {
  }
}
