/**
  The settings page: the tab bar, the profile form, the notification and
  security switches, the session-timeout choice, and the label each
  notification switch is given from its key.
 */
module SettingsPage {
  import opened Common
  import opened Strings

  // ---------------------------------------------------------------------------
  // Tabs
  // ---------------------------------------------------------------------------

  const TabIds: seq<string> := ["profile", "notifications", "security", "appearance"]

  const InitialTab: string := "profile"

  /** The section for `id` is drawn exactly when it is the active tab. */
  predicate ShowsSection(activeTab: string, id: string) {
    activeTab == id
  }

  /** Whichever tab is clicked, its section and no other is drawn. */
  lemma ExactlyOneSection(k: nat)
    requires k < |TabIds|
    ensures forall j :: 0 <= j < |TabIds| ==> (ShowsSection(TabIds[k], TabIds[j]) <==> j == k)
  {
  }

  // ---------------------------------------------------------------------------
  // Profile
  // ---------------------------------------------------------------------------

  datatype Profile = Profile(name: string, email: string, bio: string, location: string, website: string, avatar: string)

  /** The five inputs of the profile form. */
  datatype ProfileField = FullName | Email | Location | Website | Bio

  function FieldOf(p: Profile, f: ProfileField): string {
    match f
    case FullName => p.name
    case Email => p.email
    case Location => p.location
    case Website => p.website
    case Bio => p.bio
  }

  /** An input's `onChange`: that field takes the new text, every other field keeps its own. */
  function EditProfile(p: Profile, f: ProfileField, text: string): (r: Profile)
    ensures FieldOf(r, f) == text
    ensures forall g :: g != f ==> FieldOf(r, g) == FieldOf(p, g)
    ensures r.avatar == p.avatar
  {
    match f
    case FullName => p.(name := text)
    case Email => p.(email := text)
    case Location => p.(location := text)
    case Website => p.(website := text)
    case Bio => p.(bio := text)
  }

  /** Typing back a field's old text leaves the profile as it was. */
  lemma EditBackRestores(p: Profile, f: ProfileField, text: string)
    ensures EditProfile(EditProfile(p, f, text), f, FieldOf(p, f)) == p
  {
  }

  // ---------------------------------------------------------------------------
  // Notification switches
  // ---------------------------------------------------------------------------

  datatype NotificationPrefs = NotificationPrefs(
    email: bool, push: bool, mentorRequests: bool, learningReminders: bool, weeklyDigest: bool)

  const InitialPrefs: NotificationPrefs := NotificationPrefs(true, true, true, true, false)

  datatype PrefKey = EmailKey | PushKey | MentorRequestsKey | LearningRemindersKey | WeeklyDigestKey

  /** The keys in the order `Object.entries` lists them. */
  const PrefKeys: seq<PrefKey> := [EmailKey, PushKey, MentorRequestsKey, LearningRemindersKey, WeeklyDigestKey]

  function KeyName(k: PrefKey): string {
    match k
    case EmailKey => "email"
    case PushKey => "push"
    case MentorRequestsKey => "mentorRequests"
    case LearningRemindersKey => "learningReminders"
    case WeeklyDigestKey => "weeklyDigest"
  }

  function Pref(p: NotificationPrefs, k: PrefKey): bool {
    match k
    case EmailKey => p.email
    case PushKey => p.push
    case MentorRequestsKey => p.mentorRequests
    case LearningRemindersKey => p.learningReminders
    case WeeklyDigestKey => p.weeklyDigest
  }

  /** `{ ...notifications, [key]: !value }`: that switch flips, the others stay. */
  function TogglePref(p: NotificationPrefs, k: PrefKey): (r: NotificationPrefs)
    ensures Pref(r, k) == !Pref(p, k)
    ensures forall j :: j != k ==> Pref(r, j) == Pref(p, j)
  {
    match k
    case EmailKey => p.(email := !p.email)
    case PushKey => p.(push := !p.push)
    case MentorRequestsKey => p.(mentorRequests := !p.mentorRequests)
    case LearningRemindersKey => p.(learningReminders := !p.learningReminders)
    case WeeklyDigestKey => p.(weeklyDigest := !p.weeklyDigest)
  }

  /** Two records agreeing on every switch are the same record. */
  lemma PrefsEqual(p: NotificationPrefs, q: NotificationPrefs)
    requires forall k :: Pref(p, k) == Pref(q, k)
    ensures p == q
  {
    assert Pref(p, EmailKey) == Pref(q, EmailKey) && Pref(p, PushKey) == Pref(q, PushKey);
    assert Pref(p, MentorRequestsKey) == Pref(q, MentorRequestsKey);
    assert Pref(p, LearningRemindersKey) == Pref(q, LearningRemindersKey);
    assert Pref(p, WeeklyDigestKey) == Pref(q, WeeklyDigestKey);
  }

  /** Flipping a switch twice restores the record. */
  lemma ToggleTwice(p: NotificationPrefs, k: PrefKey)
    ensures TogglePref(TogglePref(p, k), k) == p
  {
    PrefsEqual(TogglePref(TogglePref(p, k), k), p);
  }

  /** Flips of two different switches can be made in either order. */
  lemma TogglesCommute(p: NotificationPrefs, j: PrefKey, k: PrefKey)
    ensures TogglePref(TogglePref(p, j), k) == TogglePref(TogglePref(p, k), j)
  {
    PrefsEqual(TogglePref(TogglePref(p, j), k), TogglePref(TogglePref(p, k), j));
  }

  // ---------------------------------------------------------------------------
  // The switch labels
  // ---------------------------------------------------------------------------

  /** `replace(/([A-Z])/g, ' $1')`: a space before every upper-case letter. */
  function SpaceBeforeUpper(s: string): (r: string)
    ensures |r| >= |s|
  {
    if s == [] then []
    else (if IsUpper(s[0]) then [' ', s[0]] else [s[0]]) + SpaceBeforeUpper(s[1..])
  }

  /** The heading of a switch: the key split before its capitals, trimmed. */
  function Label(key: string): string {
    Trim(SpaceBeforeUpper(key))
  }

  /** The text with its spaces taken out. */
  function RemoveSpaces(s: string): (r: string)
    ensures |r| <= |s|
  {
    if s == [] then [] else (if s[0] == ' ' then [] else [s[0]]) + RemoveSpaces(s[1..])
  }

  lemma {:induction false} RemoveSpacesOfSpaced(s: string)
    requires ' ' !in s
    ensures RemoveSpaces(SpaceBeforeUpper(s)) == s
  {
    if s != [] {
      RemoveSpacesOfSpaced(s[1..]);
      var head := if IsUpper(s[0]) then [' ', s[0]] else [s[0]];
      RemoveSpacesConcat(head, SpaceBeforeUpper(s[1..]));
      assert [s[0]] + s[1..] == s;
    }
  }

  lemma {:induction false} RemoveSpacesConcat(a: string, b: string)
    ensures RemoveSpaces(a + b) == RemoveSpaces(a) + RemoveSpaces(b)
  {
    if a == [] {
      assert a + b == b;
    } else {
      assert (a + b)[1..] == a[1..] + b;
      RemoveSpacesConcat(a[1..], b);
    }
  }

  /** The spaced text starts with the key's first letter when that is not a capital, and ends with its last. */
  lemma {:induction false} SpacedEnds(s: string)
    requires s != []
    ensures var r := SpaceBeforeUpper(s);
      (!IsUpper(s[0]) ==> r[0] == s[0]) && r[|r| - 1] == s[|s| - 1]
  {
    if |s| > 1 {
      SpacedEnds(s[1..]);
    }
  }

  /**
    For a key without whitespace that does not start with a capital, trimming
    removes nothing, and taking the spaces out of the label gives the key back.
   */
  lemma LabelRecoversKey(key: string)
    requires key != [] && !IsUpper(key[0])
    requires forall i :: 0 <= i < |key| ==> !IsJsSpace(key[i])
    ensures Label(key) == SpaceBeforeUpper(key)
    ensures RemoveSpaces(Label(key)) == key
  {
    SpacedEnds(key);
    TrimUnchanged(SpaceBeforeUpper(key));
    assert ' ' !in key by {
      assert forall i :: 0 <= i < |key| ==> key[i] != ' ';
    }
    RemoveSpacesOfSpaced(key);
  }

  /** Spacing a joined text spaces each part. */
  lemma {:induction false} SpaceBeforeUpperConcat(a: string, b: string)
    ensures SpaceBeforeUpper(a + b) == SpaceBeforeUpper(a) + SpaceBeforeUpper(b)
  {
    if a == [] {
      assert a + b == b;
    } else {
      assert (a + b)[1..] == a[1..] + b;
      SpaceBeforeUpperConcat(a[1..], b);
    }
  }

  /** A word of lower-case letters is left as it is. */
  lemma {:induction false} SpaceBeforeLower(w: string)
    requires forall i :: 0 <= i < |w| ==> !IsUpper(w[i])
    ensures SpaceBeforeUpper(w) == w
  {
    if w != [] {
      SpaceBeforeLower(w[1..]);
      assert [w[0]] + w[1..] == w;
    }
  }

  /** A lower-case word and then a capitalised one get one space between them. */
  lemma TwoWordKey(a: string, c: char, b: string)
    requires forall i :: 0 <= i < |a| ==> !IsUpper(a[i])
    requires forall i :: 0 <= i < |b| ==> !IsUpper(b[i])
    requires IsUpper(c)
    ensures SpaceBeforeUpper(a + [c] + b) == a + [' ', c] + b
  {
    SpaceBeforeUpperConcat(a + [c], b);
    SpaceBeforeUpperConcat(a, [c]);
    SpaceBeforeLower(a);
    SpaceBeforeLower(b);
    assert SpaceBeforeUpper([c]) == [' ', c] by {
      assert [c][1..] == [];
    }
  }

  /** "mentorRequests" is headed "mentor Requests". */
  lemma MentorRequestsLabel()
    ensures Label(KeyName(MentorRequestsKey)) == "mentor Requests"
  {
    assert KeyName(MentorRequestsKey) == "mentor" + ['R'] + "equests";
    TwoWordKey("mentor", 'R', "equests");
    assert "mentor" + [' ', 'R'] + "equests" == "mentor Requests";
    TrimUnchanged("mentor Requests");
  }

  /** The line under each heading: `Receive notifications for ${key.toLowerCase()}`. */
  function Description(key: string): (r: string)
    ensures |r| == |DescriptionPrefix| + |key| && r[..|DescriptionPrefix|] == DescriptionPrefix
    ensures forall i :: |DescriptionPrefix| <= i < |r| ==> !IsUpper(r[i])
    ensures (forall i :: 0 <= i < |key| ==> !IsUpper(key[i])) ==> r == DescriptionPrefix + key
  {
    var low := Lower(key);
    assert (forall i :: 0 <= i < |key| ==> !IsUpper(key[i])) ==> low == key;
    DescriptionPrefix + low
  }

  const DescriptionPrefix: string := "Receive notifications for "

  /** The description lower-cases the raw key, not the heading: for "mentorRequests" it lacks the heading's space. */
  lemma MentorRequestsDescription()
    ensures Label(KeyName(MentorRequestsKey)) == "mentor Requests"
    ensures Description(KeyName(MentorRequestsKey))[|DescriptionPrefix|..] != Label(KeyName(MentorRequestsKey))
  {
    MentorRequestsLabel();
  }

  // ---------------------------------------------------------------------------
  // Security
  // ---------------------------------------------------------------------------

  /** The four choices of the session-timeout list. */
  datatype TimeoutChoice = Fifteen | Thirty | Sixty | OneTwenty

  /** The minutes a choice stands for, which is also its `value`. */
  function ChoiceMinutes(c: TimeoutChoice): int {
    match c
    case Fifteen => 15
    case Thirty => 30
    case Sixty => 60
    case OneTwenty => 120
  }

  predicate IsListedTimeout(minutes: int) {
    minutes == 15 || minutes == 30 || minutes == 60 || minutes == 120
  }

  /** The security record. A `parseInt` that found no number would leave NaN here, written `None`. */
  datatype Security = Security(twoFactor: bool, emailVerification: bool, sessionTimeout: Option<int>)

  const InitialSecurity: Security := Security(false, true, Some(30))

  function ToggleTwoFactor(s: Security): (r: Security)
    ensures r.twoFactor == !s.twoFactor
    ensures r.emailVerification == s.emailVerification && r.sessionTimeout == s.sessionTimeout
  {
    s.(twoFactor := !s.twoFactor)
  }

  function ToggleEmailVerification(s: Security): (r: Security)
    ensures r.emailVerification == !s.emailVerification
    ensures r.twoFactor == s.twoFactor && r.sessionTimeout == s.sessionTimeout
  {
    s.(emailVerification := !s.emailVerification)
  }

  /** Choosing from the list stores `parseInt` of the option's value text. */
  function SelectTimeout(s: Security, c: TimeoutChoice): (r: Security)
    ensures r.sessionTimeout == Some(ChoiceMinutes(c))
    ensures r.twoFactor == s.twoFactor && r.emailVerification == s.emailVerification
  {
    ParseIntOfIntToString(ChoiceMinutes(c));
    s.(sessionTimeout := ParseInt(IntToString(ChoiceMinutes(c))))
  }

  datatype SecurityEvent = TwoFactorClicked | EmailVerificationClicked | TimeoutChosen(choice: TimeoutChoice)

  function ApplySecurity(s: Security, e: SecurityEvent): Security {
    match e
    case TwoFactorClicked => ToggleTwoFactor(s)
    case EmailVerificationClicked => ToggleEmailVerification(s)
    case TimeoutChosen(c) => SelectTimeout(s, c)
  }

  function ApplyAll(s: Security, es: seq<SecurityEvent>): Security
    decreases |es|
  {
    if es == [] then s else ApplyAll(ApplySecurity(s, es[0]), es[1..])
  }

  /** Whatever the user clicks, the session timeout stays one of 15, 30, 60 and 120. */
  lemma {:induction false} TimeoutStaysListed(s: Security, es: seq<SecurityEvent>)
    decreases |es|
    requires s.sessionTimeout.Some? && IsListedTimeout(s.sessionTimeout.value)
    ensures ApplyAll(s, es).sessionTimeout.Some? && IsListedTimeout(ApplyAll(s, es).sessionTimeout.value)
  {
    if es != [] {
      var next := ApplySecurity(s, es[0]);
      assert next.sessionTimeout.Some? && IsListedTimeout(next.sessionTimeout.value);
      TimeoutStaysListed(next, es[1..]);
    }
  }

  /** From the initial 30 minutes, every sequence of clicks keeps a listed timeout. */
  lemma InitialTimeoutListed(es: seq<SecurityEvent>)
    ensures ApplyAll(InitialSecurity, es).sessionTimeout.Some?
    ensures IsListedTimeout(ApplyAll(InitialSecurity, es).sessionTimeout.value)
  {
    TimeoutStaysListed(InitialSecurity, es);
  }
}
