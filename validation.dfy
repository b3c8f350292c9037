/**
  The two checks `on_submit` makes before it registers anyone: the email
  pattern first, then the length of the student number. Whatever the first
  check refuses, the second is never reached.
*/
module Validation {
  import opened EmailPattern

  /** The only thing `on_submit` demands of the student number. */
  const StudentNumberLength: nat := 7

  datatype Verdict = Accepted | EmailRejected | NumberRejected

  /**
    The checks in the order the kiosk makes them: a bad email is reported
    even when the number is bad too, and the number is judged by its length
    alone, whatever characters it holds.
  */
  function Validate(isWord: char -> bool, email: string, number: string): (v: Verdict)
    ensures v == EmailRejected <==> !FullMatch(isWord, email)
    ensures v == NumberRejected <==> FullMatch(isWord, email) && |number| != StudentNumberLength
    ensures v == Accepted <==> FullMatch(isWord, email) && |number| == StudentNumberLength
  {
    ReMatchIsFullMatch(isWord, email);
    if !ReMatch(isWord, email) then EmailRejected
    else if |number| != StudentNumberLength then NumberRejected
    else Accepted
  }

  /** Empty fields are refused, the email first. */
  lemma EmptyFieldsRejected(isWord: char -> bool, number: string)
    ensures Validate(isWord, "", number) == EmailRejected
    ensures forall email :: Validate(isWord, email, "") != Accepted
  {
  }
}
