/**
  Concrete runs of the submit flow, for any table of word characters that
  counts `a` as one (Python's does).
*/
module Scenarios {
  import opened Wrappers
  import opened EmailPattern
  import opened Validation
  import opened Registration
  import opened CheckIn

  const Accepting: Reply := Http(200, Object(Some(JString("success"))))

  /** `a@tip.edu.ph` matches the pattern. */
  lemma SimpleAddressMatches(isWord: char -> bool)
    requires isWord('a')
    ensures FullMatch(isWord, "a@tip.edu.ph")
  {
    AcceptsLocalAtDomain(isWord, "a");
    assert "a" + Domain == "a@tip.edu.ph";
  }

  /** A TIP email and a seven-character number, acknowledged: the session starts. */
  lemma ValidEntryStartsSession(isWord: char -> bool)
    requires isWord('a')
    ensures var s := Screen("a@tip.edu.ph", "1234567", true, None);
      Step(isWord, s, Accepting) ==
        Submission(Screen("", "", false, Some(TimerView(Entry("a@tip.edu.ph", "1234567"), [ShowMainWindowSlot]))),
                   [], Some(Entry("a@tip.edu.ph", "1234567")))
  {
  }

  /** `$` also matches before one final newline, so this email passes too. */
  lemma TrailingNewlineAccepted(isWord: char -> bool)
    requires isWord('a')
    ensures Validate(isWord, "a@tip.edu.ph" + "\n", "1234567") == Accepted
  {
  }

  /** Another domain is refused before anything else is looked at, and the fields are kept. */
  lemma OtherDomainRefused(isWord: char -> bool, number: string, reply: Reply)
    ensures var s := Screen("a@gmail.com", number, true, None);
      Step(isWord, s, reply) == Submission(s, [EmailErrorBox], None)
  {
  }

  /** The domain is matched case-sensitively. */
  lemma UpperCaseDomainRefused(isWord: char -> bool)
    ensures !FullMatch(isWord, "a@TIP.edu.ph")
  {
  }

  /** Python's word characters exclude `@`, so two of them refuse the email. */
  lemma SecondAtRefused(isWord: char -> bool)
    requires !isWord('@')
    ensures !FullMatch(isWord, "a@b@tip.edu.ph")
  {
    RejectsBadLocalChar(isWord, "a@b@tip.edu.ph", 1);
  }

  /** The character just before the `@` is checked like every other one. */
  lemma BadLastLocalCharRefused(isWord: char -> bool)
    requires !isWord('!')
    ensures !FullMatch(isWord, "x!@tip.edu.ph")
  {
    RejectsBadLocalChar(isWord, "x!@tip.edu.ph", 1);
  }

  /** Five digits fail the length check; the form is left as it was. */
  lemma ShortNumberRefused(isWord: char -> bool, reply: Reply)
    requires isWord('a')
    ensures var s := Screen("a@tip.edu.ph", "12345", true, None);
      Step(isWord, s, reply) == Submission(s, [NumberErrorBox], None)
  {
  }

  /** The registry answers with another status: one attempt, the failure notice, the fields kept. */
  lemma RegistryRefusalKeepsFields(isWord: char -> bool)
    requires isWord('a')
    ensures var s := Screen("a@tip.edu.ph", "1234567", true, None);
      Step(isWord, s, Http(200, Object(Some(JString("quota exceeded"))))) ==
        Submission(s, [SubmissionErrorBox], Some(Entry("a@tip.edu.ph", "1234567")))
  {
  }
}
