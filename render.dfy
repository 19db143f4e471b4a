/**
 * The decisions behind the two complaint lists: what each rendered item
 * carries, and the loops that build one item per fetched complaint.
 * The HTML itself is not modelled, only the record each item is painted from.
 */
module Render {
  import opened Text
  import opened Complaints

  const NoComplaintsYet := "No complaints submitted yet."
  const LoadError := "Error loading complaints."

  /** What the complaints request produced: the parsed list, or a failure (network or non-ok status). */
  datatype Fetch = Fetched(complaints: seq<Complaint>) | FetchFailed

  /** A list area shows either a single message or one entry per complaint. */
  datatype Listing<T> = Message(text: string) | Entries(entries: seq<T>)

  /** One item of the student's own list; `statusClass` is the CSS class, `statusText` the shown text. */
  datatype StudentEntry = StudentEntry(
    typeLabel: string,
    id: string,
    description: string,
    statusClass: string,
    statusText: string,
    submitted: int)

  /** One option of the admin status select. */
  datatype StatusOption = StatusOption(value: string, text: string, selected: bool)

  /** What follows the item's details: the read-only notice, or the status select and maybe a delete button. */
  datatype Controls = ReadOnlyNotice | StatusEditor(options: seq<StatusOption>, deleteButton: bool)

  /** One item of the admin list. */
  datatype AdminEntry = AdminEntry(
    className: string,
    typeLabel: string,
    id: string,
    titleSuffix: string,
    studentName: string,
    studentId: string,
    description: string,
    statusClass: string,
    statusText: string,
    submitted: int,
    controls: Controls)

  /** The four statuses are shown as "pending", "in progress", "resolved" and "rejected":
      only the hyphen of "in-progress" becomes a space. */
  lemma StatusTextOf(status: string)
    requires status in Statuses
    ensures StatusDisplay(status) == if status == InProgress then "in progress" else status
  {
    if status == InProgress {
      StatusDisplayInProgress(status);
    } else {
      StatusDisplayWithoutHyphen(status);
    }
  }

  /** Different statuses of the four are shown as different texts. */
  lemma StatusTextsDistinct(s1: string, s2: string)
    requires s1 in Statuses && s2 in Statuses && s1 != s2
    ensures StatusDisplay(s1) != StatusDisplay(s2)
  {
    StatusTextOf(s1);
    StatusTextOf(s2);
  }

  function StudentEntryOf(c: Complaint): StudentEntry {
    StudentEntry(Capitalize(c.category), c.id, c.description, c.status, StatusDisplay(c.status), c.timestamp)
  }

  /** The four options of the status select, each marked selected when its value is the complaint's status. */
  function StatusOptions(status: string): seq<StatusOption> {
    [ StatusOption(Pending, "Pending", status == Pending),
      StatusOption(InProgress, "In Progress", status == InProgress),
      StatusOption(Resolved, "Resolved", status == Resolved),
      StatusOption(Rejected, "Rejected", status == Rejected) ]
  }

  function AdminEntryOf(c: Complaint, now: int): AdminEntry {
    var expired := IsExpired(c.timestamp, now);
    AdminEntry(
      if expired then "complaint-item expired" else "complaint-item",
      Capitalize(c.category), c.id,
      if expired then " (Expired)" else "",
      c.name, c.studentId, c.description, c.status, StatusDisplay(c.status), c.timestamp,
      if expired then ReadOnlyNotice else StatusEditor(StatusOptions(c.status), c.status == Resolved))
  }

  /** Number of options marked selected. */
  function CountSelected(options: seq<StatusOption>): nat {
    if options == [] then 0 else (if options[0].selected then 1 else 0) + CountSelected(options[1..])
  }

  /** An expired complaint is marked and titled as expired and offers neither a status select
      nor a delete button, whatever its status. */
  lemma ExpiredEntryIsReadOnly(c: Complaint, now: int)
    requires IsExpired(c.timestamp, now)
    ensures AdminEntryOf(c, now).className == "complaint-item expired"
    ensures AdminEntryOf(c, now).titleSuffix == " (Expired)"
    ensures AdminEntryOf(c, now).controls == ReadOnlyNotice
  {
  }

  /** A complaint submitted 25 h before the render is shown read-only, whatever its status. */
  lemma TwentyFiveHoursOldIsReadOnly(c: Complaint, now: int)
    requires c.timestamp == now - 25 * 60 * 60 * 1000
    ensures AdminEntryOf(c, now).controls == ReadOnlyNotice
    ensures AdminEntryOf(c, now).titleSuffix == " (Expired)"
  {
    TwentyFiveHoursExpired(now);
    ExpiredEntryIsReadOnly(c, now);
  }

  /** A complaint that has not expired offers the status select over the four statuses, in the
      select's order, in which an option is selected exactly when its value is the complaint's
      status, and a delete button exactly when it is resolved. */
  lemma LiveEntryIsEditable(c: Complaint, now: int)
    requires !IsExpired(c.timestamp, now)
    ensures AdminEntryOf(c, now).className == "complaint-item"
    ensures AdminEntryOf(c, now).titleSuffix == ""
    ensures AdminEntryOf(c, now).controls == StatusEditor(StatusOptions(c.status), c.status == Resolved)
    ensures AdminEntryOf(c, now).controls.deleteButton <==> c.status == Resolved
    ensures var options := StatusOptions(c.status);
      && |options| == |Statuses|
      && (forall i :: 0 <= i < |options| ==> options[i].value == Statuses[i])
      && (forall i :: 0 <= i < |options| ==> (options[i].selected <==> options[i].value == c.status))
  {
  }

  /** Exactly one option is selected when the status is one of the four, and none otherwise. */
  lemma OneOptionSelected(status: string)
    ensures CountSelected(StatusOptions(status)) == if status in Statuses then 1 else 0
  {
    var rest := StatusOptions(status)[1..];
    assert CountSelected(rest[1..][1..]) == if status == Rejected then 1 else 0;
    assert CountSelected(rest) == if status in Statuses[1..] then 1 else 0;
  }

  /** The delete button appears exactly for complaints that are resolved and not expired. */
  lemma DeleteButtonIff(c: Complaint, now: int)
    ensures (AdminEntryOf(c, now).controls.StatusEditor? && AdminEntryOf(c, now).controls.deleteButton)
            <==> !IsExpired(c.timestamp, now) && c.status == Resolved
  {
  }

  /** An admin who sets an unexpired complaint to "resolved" gets a delete button on the next render;
      setting it to "in-progress" shows none. */
  lemma ResolveThenProgressScenario(c: Complaint, now: int)
    requires !IsExpired(c.timestamp, now)
    ensures AdminEntryOf(c.(status := Resolved), now).controls.deleteButton
    ensures !AdminEntryOf(c.(status := InProgress), now).controls.deleteButton
  {
  }

  /** `renderStudentComplaints` once the list is fetched: the load error, the empty message,
      or one entry per complaint in the order fetched. The student view takes no clock. */
  method RenderStudentComplaints(fetch: Fetch) returns (view: Listing<StudentEntry>)
    ensures fetch.FetchFailed? ==> view == Message(LoadError)
    ensures fetch.Fetched? && fetch.complaints == [] ==> view == Message(NoComplaintsYet)
    ensures fetch.Fetched? && fetch.complaints != [] ==>
      && view.Entries?
      && |view.entries| == |fetch.complaints|
      && forall i :: 0 <= i < |view.entries| ==> view.entries[i] == StudentEntryOf(fetch.complaints[i])
  {
    if fetch.FetchFailed? {
      return Message(LoadError);
    }
    var cs := fetch.complaints;
    if |cs| == 0 {
      return Message(NoComplaintsYet);
    }
    var entries: seq<StudentEntry> := [];
    for i := 0 to |cs|
      invariant |entries| == i
      invariant forall k :: 0 <= k < i ==> entries[k] == StudentEntryOf(cs[k])
    {
      entries := entries + [StudentEntryOf(cs[i])];
    }
    view := Entries(entries);
  }

  /** `renderAdminComplaints` once the list is fetched, with `now` the time of rendering:
      the load error, the empty message, or one entry per complaint in the order fetched. */
  method RenderAdminComplaints(fetch: Fetch, now: int) returns (view: Listing<AdminEntry>)
    ensures fetch.FetchFailed? ==> view == Message(LoadError)
    ensures fetch.Fetched? && fetch.complaints == [] ==> view == Message(NoComplaintsYet)
    ensures fetch.Fetched? && fetch.complaints != [] ==>
      && view.Entries?
      && |view.entries| == |fetch.complaints|
      && forall i :: 0 <= i < |view.entries| ==> view.entries[i] == AdminEntryOf(fetch.complaints[i], now)
  {
    if fetch.FetchFailed? {
      return Message(LoadError);
    }
    var cs := fetch.complaints;
    if |cs| == 0 {
      return Message(NoComplaintsYet);
    }
    var entries: seq<AdminEntry> := [];
    for i := 0 to |cs|
      invariant |entries| == i
      invariant forall k :: 0 <= k < i ==> entries[k] == AdminEntryOf(cs[k], now)
    {
      entries := entries + [AdminEntryOf(cs[i], now)];
    }
    view := Entries(entries);
  }

  /** In a rendered admin list, item k can be edited exactly when complaint k has not expired,
      and can be deleted exactly when it is also resolved. */
  lemma AdminListPolicy(cs: seq<Complaint>, now: int, entries: seq<AdminEntry>, k: int)
    requires |entries| == |cs|
    requires forall i :: 0 <= i < |entries| ==> entries[i] == AdminEntryOf(cs[i], now)
    requires 0 <= k < |cs|
    ensures entries[k].controls.StatusEditor? <==> !IsExpired(cs[k].timestamp, now)
    ensures (entries[k].controls.StatusEditor? && entries[k].controls.deleteButton)
            <==> !IsExpired(cs[k].timestamp, now) && cs[k].status == Resolved
  {
    DeleteButtonIff(cs[k], now);
  }
}
