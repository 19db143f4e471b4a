/**
 * The decisions of the two e-mail notifications that are not the e-mail
 * call itself: whether there is anyone to write to, and the strings put into
 * the template parameters. The script defines both notification functions
 * (`sendStatusUpdateEmail`, `sendComplaintEmail`) but no flow calls them, so
 * what is stated here is what they would send.
 */
module Notify {
  import opened Wrappers
  import opened Text
  import opened Session

  /** The address a notification goes to: none when the student lookup gave nothing or the
      student has no e-mail, in which case the notification is skipped. */
  function Recipient(student: Option<Student>): (r: Option<string>)
    ensures r.Some? <==> student.Some? && student.value.email != ""
    ensures r.Some? ==> r.value == student.value.email
  {
    if student.None? || student.value.email == "" then None else Some(student.value.email)
  }

  /** The `new_status` template parameter as the status-update notification builds it: the
      upper-cased first character followed by the WHOLE display text, so the first letter
      appears twice ("pending" gives "Ppending"). */
  function NewStatusParam(newStatus: string): string {
    (if newStatus == [] then [] else [ToUpper(newStatus[0])]) + StatusDisplay(newStatus)
  }

  /** The label the notification evidently means: the display text with its first character
      upper-cased, as the complaint type is. */
  function CapitalizedStatusLabel(newStatus: string): string {
    Capitalize(StatusDisplay(newStatus))
  }

  /** For every non-empty status the label as built is the upper-cased first character followed
      by the whole display text, one character longer than the status, and so never the intended
      capitalised label. */
  lemma NewStatusParamRepeatsFirst(newStatus: string)
    requires newStatus != []
    ensures |NewStatusParam(newStatus)| == |newStatus| + 1
    ensures NewStatusParam(newStatus)[0] == ToUpper(newStatus[0])
    ensures NewStatusParam(newStatus)[1..] == StatusDisplay(newStatus)
    ensures NewStatusParam(newStatus) != CapitalizedStatusLabel(newStatus)
  {
    CapitalizeProperties(StatusDisplay(newStatus));
  }

  /** The label as built from a status whose display text is `shown`. */
  lemma NewStatusParamOf(newStatus: string, shown: string)
    requires newStatus != [] && StatusDisplay(newStatus) == shown
    ensures NewStatusParam(newStatus) == [ToUpper(newStatus[0])] + shown
  {
  }

  /** The status "pending" would be mailed as "Ppending", where "Pending" is meant. The literal is
      passed in as `status` only to keep the proof cheap: with the literal in the ensures the solver
      unfolds the recursive display function character by character. */
  lemma PendingMailedAsPpending(status: string)
    requires status == "pending"
    ensures NewStatusParam(status) == "Ppending"
    ensures CapitalizedStatusLabel(status) == "Pending"
  {
    StatusDisplayWithoutHyphen(status);
    NewStatusParamOf(status, status);
  }

  /** The intended label keeps the length of the status and every display character after the first. */
  lemma CapitalizedStatusLabelProperties(newStatus: string)
    ensures |CapitalizedStatusLabel(newStatus)| == |newStatus|
    ensures forall i :: 1 <= i < |newStatus| ==> CapitalizedStatusLabel(newStatus)[i] == StatusDisplay(newStatus)[i]
    ensures newStatus != [] ==> CapitalizedStatusLabel(newStatus)[0] == ToUpper(StatusDisplay(newStatus)[0])
  {
    CapitalizeProperties(StatusDisplay(newStatus));
  }
}
