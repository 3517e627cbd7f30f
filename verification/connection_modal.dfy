/**
  The "Connect with ..." dialog: which way to connect, the message box, when
  "Send Request" is enabled, and what submitting does.
 */
module ConnectionModal {
  import opened Common
  import opened Strings
  import opened Data

  datatype ConnectOption = SendMessage | ScheduleSession

  /** The dialog's own state: the chosen option (none at first) and the message typed. */
  datatype Form = Form(option: Option<ConnectOption>, message: string)

  const InitialForm: Form := Form(None, "")

  /** The dialog is drawn only for a mentor, and only while open; with no mentor nothing is drawn. */
  predicate Renders(mentor: Option<Mentor>, isOpen: bool) {
    mentor.Some? && isOpen
  }

  lemma NoMentorRendersNothing(isOpen: bool)
    ensures !Renders(None, isOpen)
  {
  }

  /** The message box appears once an option is chosen. */
  predicate ShowsMessageBox(f: Form) {
    f.option.Some?
  }

  /** "Send Request" is enabled with an option chosen and a message that is not all whitespace. */
  function SubmitEnabled(f: Form): (r: bool)
    ensures r <==> f.option.Some? && exists i :: 0 <= i < |f.message| && !IsJsSpace(f.message[i])
    ensures r ==> ShowsMessageBox(f)
  {
    TrimEmptyIffAllSpace(f.message);
    f.option.Some? && Trim(f.message) != []
  }

  /** The dialog opens with nothing chosen, so it cannot be sent yet. */
  lemma InitiallyDisabled()
    ensures !SubmitEnabled(InitialForm) && !ShowsMessageBox(InitialForm)
  {
  }

  /** Choosing a radio button sets the option and keeps the message. */
  function Choose(f: Form, o: ConnectOption): (r: Form)
    ensures r.option == Some(o) && r.message == f.message
    ensures ShowsMessageBox(r)
  {
    f.(option := Some(o))
  }

  /** Typing in the message box replaces the message and keeps the option. */
  function Type(f: Form, text: string): (r: Form)
    ensures r.option == f.option && r.message == text
  {
    f.(message := text)
  }

  /** What a handler leaves: the dialog's state, and whether `onClose` was called. */
  datatype Outcome = Outcome(form: Form, closeRequested: bool)

  /**
    Submitting logs the request and calls `onClose`, as Cancel, the close
    button and the backdrop do. The dialog's state is not reset, so it is
    there again the next time the dialog opens.
   */
  function Submit(f: Form): (r: Outcome)
    ensures r.closeRequested && r.form == f
  {
    Outcome(f, true)
  }

  /** Because nothing is reset, a form that could be sent is still sendable when the dialog reopens. */
  lemma SubmitKeepsForm(f: Form)
    requires SubmitEnabled(f)
    ensures Submit(f).closeRequested && SubmitEnabled(Submit(f).form) && ShowsMessageBox(Submit(f).form)
  {
  }

  /** Choosing either option and typing a word makes the form sendable. */
  lemma ChooseThenTypeEnables(f: Form, o: ConnectOption, text: string)
    requires text != [] && !IsJsSpace(text[0])
    ensures SubmitEnabled(Type(Choose(f, o), text))
  {
    assert !IsJsSpace(Type(Choose(f, o), text).message[0]);
  }

  function Reason(o: ConnectOption): string {
    match o
    case SendMessage => "learning more about your experience"
    case ScheduleSession => "scheduling a mentoring session"
  }

  /** The message box's placeholder, greeting the mentor by `name.split(' ')[0]`. */
  function Placeholder(m: Mentor, o: ConnectOption): (r: string)
    ensures r == "Hi " + FirstWord(m.name) + ", I'm interested in " + Reason(o) + ". I'm particularly interested in..."
    ensures FirstWord(m.name) <= m.name && ' ' !in FirstWord(m.name)
  {
    FirstWordIsSplitHead(m.name);
    "Hi " + Split(m.name, ' ')[0] + ", I'm interested in " + Reason(o) + ". I'm particularly interested in..."
  }
}
