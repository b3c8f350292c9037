/**
  The check-in kiosk's submit flow: the two input fields, the main window's
  visibility and the timer window that a successful registration opens.

  `Step` says, as a value, what one press of "Start Session" does to the
  screen; class `Kiosk` holds the same state in fields and its methods update
  them in place, each tied to `Step` or `ShowMainWindow` by its contract.
*/
module CheckIn {
  import opened Wrappers
  import opened EmailPattern
  import opened Validation
  import opened Registration

  /** One submitted (email, student number) pair. */
  datatype Entry = Entry(email: string, number: string)

  /** The one slot the kiosk ever connects to `timer_closed`. */
  datatype Slot = ShowMainWindowSlot

  /** The message boxes `on_submit` can raise, with their titles and texts. */
  datatype MessageBox = Warning(title: string, text: string) | Critical(title: string, text: string)

  const EmailErrorBox := Warning("Email Error", "Please enter a valid TIP email.")
  const NumberErrorBox := Warning("Student Number Error", "Please enter a valid Student Number.")
  const SubmissionErrorBox := Critical("Submission Error", "Failed to insert data into Google Sheets.")

  /** What can be observed of a timer window: what it was started with, what its closed signal calls. */
  datatype TimerView = TimerView(started: Entry, closedSlots: seq<Slot>)

  /** The kiosk's global state: `name_input`, `student_number_input`, `win` and `timer_window`. */
  datatype Screen = Screen(emailText: string, numberText: string, visible: bool, timer: Option<TimerView>)

  /** The effect of one submit: the new screen, the boxes shown, and the entry `insert_user` was called with, if any. */
  datatype Submission = Submission(after: Screen, shown: seq<MessageBox>, registered: Option<Entry>)

  /** `on_submit`, with `reply` standing in for the registry's answer. */
  function Step(isWord: char -> bool, s: Screen, reply: Reply): (r: Submission)
    // registration is tried at most once, exactly when both checks pass, with the fields as they were
    ensures r.registered.Some? <==> FullMatch(isWord, s.emailText) && |s.numberText| == StudentNumberLength
    ensures r.registered.Some? ==> r.registered.value == Entry(s.emailText, s.numberText)
    // a bad email is reported alone, whatever the number, and nothing changes
    ensures !FullMatch(isWord, s.emailText) ==> r.after == s && r.shown == [EmailErrorBox]
    // a number of the wrong length is reported once the email has passed, and nothing changes
    ensures FullMatch(isWord, s.emailText) && |s.numberText| != StudentNumberLength ==>
      r.after == s && r.shown == [NumberErrorBox]
    // acknowledged: fields cleared, window hidden, timer started with the submitted entry and wired back
    ensures r.registered.Some? && Acknowledged(reply) ==>
      r.shown == [] &&
      r.after == Screen("", "", false, Some(TimerView(Entry(s.emailText, s.numberText), [ShowMainWindowSlot])))
    // refused or unreachable registry: only the submission error, nothing changes
    ensures r.registered.Some? && !Acknowledged(reply) ==> r.after == s && r.shown == [SubmissionErrorBox]
  {
    match Validate(isWord, s.emailText, s.numberText)
    case EmailRejected => Submission(s, [EmailErrorBox], None)
    case NumberRejected => Submission(s, [NumberErrorBox], None)
    case Accepted =>
      var entry := Entry(s.emailText, s.numberText);
      if InsertUser(reply) then
        Submission(Screen("", "", false, Some(TimerView(entry, [ShowMainWindowSlot]))), [], Some(entry))
      else
        Submission(s, [SubmissionErrorBox], Some(entry))
  }

  /** `show_main_window`: the window becomes visible and nothing else changes. */
  function ShowMainWindow(s: Screen): (t: Screen)
    ensures t.visible
    ensures t.emailText == s.emailText && t.numberText == s.numberText && t.timer == s.timer
  {
    s.(visible := true)
  }

  /** Showing the window twice is the same as showing it once. */
  lemma ShowMainWindowIdempotent(s: Screen)
    ensures ShowMainWindow(ShowMainWindow(s)) == ShowMainWindow(s)
  {
  }

  /** The window is hidden by a submit only when the registry acknowledged the entry it was sent. */
  lemma HiddenOnlyAfterAcknowledgement(isWord: char -> bool, s: Screen, reply: Reply)
    requires s.visible && !Step(isWord, s, reply).after.visible
    ensures Step(isWord, s, reply).registered == Some(Entry(s.emailText, s.numberText))
    ensures Acknowledged(reply)
  {
  }

  /**
    A refused submit leaves the screen as it was, so pressing the button again
    without editing gives the same answer.
  */
  lemma RefusalRepeats(isWord: char -> bool, s: Screen, reply: Reply)
    requires !Acknowledged(reply) || Step(isWord, s, reply).registered.None?
    ensures Step(isWord, Step(isWord, s, reply).after, reply) == Step(isWord, s, reply)
  {
  }

  /**
    A full session: after an acknowledged submit and the timer closing, the
    form is visible again with empty fields, and the timer remembers the entry.
  */
  lemma SessionRoundTrip(isWord: char -> bool, s: Screen, reply: Reply)
    requires FullMatch(isWord, s.emailText) && |s.numberText| == StudentNumberLength
    requires Acknowledged(reply)
    ensures ShowMainWindow(Step(isWord, s, reply).after) ==
      Screen("", "", true, Some(TimerView(Entry(s.emailText, s.numberText), [ShowMainWindowSlot])))
  {
  }

  /**
    The timer subsystem: `timer.start_timer(email, student_number)` returns a
    window object that remembers what it was started with and whose
    `timer_closed` signal a caller may connect to.
  */
  class TimerWindow {
    const started: Entry
    var closedSlots: seq<Slot>

    function View(): TimerView
      reads this
    {
      TimerView(started, closedSlots)
    }

    constructor Start(email: string, number: string)
      ensures started == Entry(email, number) && closedSlots == []
    {
      started := Entry(email, number);
      closedSlots := [];
    }

    /** `timer_closed.connect(slot)`. */
    method Connect(slot: Slot)
      modifies this
      ensures closedSlots == old(closedSlots) + [slot]
    {
      closedSlots := closedSlots + [slot];
    }
  }

  /** The module-level state that `on_submit` and `show_main_window` read and write. */
  class Kiosk {
    /** Python's table of word characters, used by `\w`. */
    const isWord: char -> bool
    var emailText: string           // name_input.text()
    var numberText: string          // student_number_input.text()
    var visible: bool               // win is shown
    var timerWindow: TimerWindow?   // the global timer_window, unset until the first session

    /** The fields seen as one `Screen` value. */
    function Current(): Screen
      reads this, timerWindow
    {
      Screen(emailText, numberText, visible,
             if timerWindow == null then None else Some(timerWindow.View()))
    }

    /** `window()`: the form is shown with empty fields and no timer yet. */
    constructor (isWord: char -> bool)
      ensures this.isWord == isWord
      ensures Current() == Screen("", "", true, None)
    {
      this.isWord := isWord;
      emailText, numberText := "", "";
      visible := true;
      timerWindow := null;
    }

    /** `on_submit`, with `reply` standing in for what `requests.post` would give. */
    method Submit(reply: Reply) returns (shown: seq<MessageBox>, registered: Option<Entry>)
      modifies this
      ensures Current() == Step(isWord, old(Current()), reply).after
      ensures shown == Step(isWord, old(Current()), reply).shown
      ensures registered == Step(isWord, old(Current()), reply).registered
      // a new timer is started exactly on an acknowledged registration; otherwise the old one stays
      ensures registered.Some? && Acknowledged(reply) ==> fresh(timerWindow)
      ensures !(registered.Some? && Acknowledged(reply)) ==> timerWindow == old(timerWindow)
    {
      var email := emailText;
      var number := numberText;
      ReMatchIsFullMatch(isWord, email);

      if !ReMatch(isWord, email) {
        return [EmailErrorBox], None;
      }
      if |number| != StudentNumberLength {
        return [NumberErrorBox], None;
      }

      registered := Some(Entry(email, number));
      var success := InsertUser(reply);
      if success {
        emailText := "";
        numberText := "";
        visible := false;
        var t := new TimerWindow.Start(email, number);
        t.Connect(ShowMainWindowSlot);
        assert t.closedSlots == [ShowMainWindowSlot];
        timerWindow := t;
        shown := [];
      } else {
        shown := [SubmissionErrorBox];
      }
    }

    /** `show_main_window`, run when the timer window's `timer_closed` fires. */
    method SessionClosed()
      modifies this
      ensures Current() == ShowMainWindow(old(Current()))
      ensures timerWindow == old(timerWindow)
    {
      visible := true;
    }
  }
}
