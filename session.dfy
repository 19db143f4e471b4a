/**
 * The browser's `localStorage` as a string-to-string map, and the session
 * mirror kept in it: the three `current*` keys that copy the last student
 * who registered or logged in.
 */
module Session {
  import opened Wrappers

  const CurrentStudentId := "currentStudentId"
  const CurrentStudentName := "currentStudentName"
  const CurrentStudentEmail := "currentStudentEmail"

  /** The keys of the session mirror. */
  const SessionKeys: set<string> := {CurrentStudentId, CurrentStudentName, CurrentStudentEmail}

  /** A student record as the server returns it from registration or login. */
  datatype Student = Student(studentId: string, name: string, email: string)

  /** `localStorage.getItem(key)` is truthy: the key is present and its value is not empty. */
  predicate Truthy(items: map<string, string>, key: string) {
    key in items && items[key] != ""
  }

  /** The test in `checkLoginStatus`: both the id and the name read back truthy. */
  predicate LoggedIn(items: map<string, string>) {
    Truthy(items, CurrentStudentId) && Truthy(items, CurrentStudentName)
  }

  /** The three `setItem` calls made after a successful registration or login. */
  function WriteSession(items: map<string, string>, s: Student): map<string, string> {
    items[CurrentStudentId := s.studentId][CurrentStudentName := s.name][CurrentStudentEmail := s.email]
  }

  /** The three `removeItem` calls of `handleLogout`. */
  function ClearSession(items: map<string, string>): map<string, string> {
    items - {CurrentStudentId} - {CurrentStudentName} - {CurrentStudentEmail}
  }

  /** The student the mirror describes, when all three keys are present. */
  function Mirror(items: map<string, string>): Option<Student> {
    if CurrentStudentId in items && CurrentStudentName in items && CurrentStudentEmail in items
    then Some(Student(items[CurrentStudentId], items[CurrentStudentName], items[CurrentStudentEmail]))
    else None
  }

  /** True when `a` and `b` agree on every key outside the session mirror. */
  ghost predicate SameOutsideSession(a: map<string, string>, b: map<string, string>) {
    forall k :: k !in SessionKeys ==> (k in a <==> k in b) && (k in a ==> a[k] == b[k])
  }

  /** After a write the mirror reads back the student written, and the session is logged in exactly
      when that student's id and name are not empty; no other key changes. */
  lemma WriteThenRead(items: map<string, string>, s: Student)
    ensures Mirror(WriteSession(items, s)) == Some(s)
    ensures LoggedIn(WriteSession(items, s)) <==> s.studentId != "" && s.name != ""
    ensures SameOutsideSession(items, WriteSession(items, s))
  {
  }

  /** Logging out removes exactly the three session keys: afterwards the mirror is gone, the session
      is not logged in, and every other key (such as `registeredStudents`) is as before. */
  lemma ClearRemovesExactlySession(items: map<string, string>)
    ensures ClearSession(items).Keys == items.Keys - SessionKeys
    ensures Mirror(ClearSession(items)) == None
    ensures !LoggedIn(ClearSession(items))
    ensures SameOutsideSession(items, ClearSession(items))
  {
  }

  /** A second login replaces the first entirely: the last write wins. */
  lemma LastWriteWins(items: map<string, string>, first: Student, second: Student)
    ensures WriteSession(WriteSession(items, first), second) == WriteSession(items, second)
  {
    var a := WriteSession(WriteSession(items, first), second);
    var b := WriteSession(items, second);
    assert a.Keys == b.Keys;
    assert forall k :: k in a ==> a[k] == b[k];
  }

  /** Logging out after a login leaves the store as logging out before it would. */
  lemma ClearUndoesWrite(items: map<string, string>, s: Student)
    ensures ClearSession(WriteSession(items, s)) == ClearSession(items)
  {
    var a := ClearSession(WriteSession(items, s));
    var b := ClearSession(items);
    assert a.Keys == b.Keys;
  }

  /** Registering a student and then logging in with the same record leaves the mirror holding
      exactly the registered values. */
  lemma RegisterThenLoginScenario(items: map<string, string>)
    ensures var registered := Student("S1", "Ana", "a@x.com");
      Mirror(WriteSession(WriteSession(items, registered), registered)) == Some(registered)
      && LoggedIn(WriteSession(WriteSession(items, registered), registered))
  {
    var registered := Student("S1", "Ana", "a@x.com");
    LastWriteWins(items, registered, registered);
    WriteThenRead(items, registered);
  }

  /** `localStorage`: a string-to-string store that the handlers change in place. */
  class LocalStorage {
    var items: map<string, string>

    constructor (initial: map<string, string>)
      ensures items == initial
    {
      items := initial;
    }

    /** `getItem`; `None` stands for JavaScript's `null`. */
    function GetItem(key: string): (r: Option<string>)
      reads this
      ensures r.Some? <==> key in items
      ensures r.Some? ==> r.value == items[key]
    {
      if key in items then Some(items[key]) else None
    }

    method SetItem(key: string, value: string)
      modifies this
      ensures items == old(items)[key := value]
    {
      items := items[key := value];
    }

    method RemoveItem(key: string)
      modifies this
      ensures items == old(items) - {key}
    {
      items := items - {key};
    }
  }
}
