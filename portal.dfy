/**
 * The page state the handlers change in place: the sections of the student
 * portal, the login/register switch, and the admin's registered-students
 * panel; and the registration, login and logout handlers that write the
 * session into `localStorage`. A server reply is an input: the request a
 * handler would send is returned, and the reply it would get is passed in.
 */
module Portal {
  import opened Wrappers
  import opened Text
  import opened Session
  import opened Forms

  const Visible := "block"
  const Hidden := "none"
  const Active := "active"
  const PortalPage := "student.html"
  const RegistrationFailed := "Registration failed"
  const LoginFailed := "Login failed"
  const RegistrationSucceeded := "Registration successful! Redirecting to Student Portal."
  const ShowStudents := "Show Registered Students"
  const HideStudents := "Hide Registered Students"

  /** The server's answer to a registration or login request. */
  datatype Reply =
    | Accepted(student: Student)         // ok status; the student record of the body
    | Rejected(message: Option<string>)  // non-ok status; the `message` of the error body, if any
    | Failed(error: string)              // the request or the parsing threw; the exception's message

  /** The alert a failed request shows: the server's message when it gave a non-empty one, the
      handler's fallback text when it did not, and the exception's message when one was thrown. */
  function FailureAlert(reply: Reply, fallback: string): (m: string)
    requires !reply.Accepted?
    ensures reply.Rejected? && reply.message.Some? && reply.message.value != "" ==> m == reply.message.value
    ensures reply.Rejected? && (reply.message.None? || reply.message.value == "") ==> m == fallback
    ensures reply.Failed? ==> m == reply.error
  {
    match reply
    case Rejected(message) => if message.Some? && message.value != "" then message.value else fallback
    case Failed(error) => error
  }

  /** The shared tail of the four registration and login handlers: on an accepted reply the three
      `setItem` calls copy the returned student into the session; otherwise nothing is stored and
      the failure is alerted. */
  method StoreReply(storage: LocalStorage, reply: Reply, fallback: string) returns (alert: Option<string>)
    modifies storage
    ensures reply.Accepted? ==> storage.items == WriteSession(old(storage.items), reply.student) && alert == None
    ensures !reply.Accepted? ==> storage.items == old(storage.items) && alert == Some(FailureAlert(reply, fallback))
  {
    if reply.Accepted? {
      storage.SetItem(CurrentStudentId, reply.student.studentId);
      storage.SetItem(CurrentStudentName, reply.student.name);
      storage.SetItem(CurrentStudentEmail, reply.student.email);
      alert := None;
    } else {
      alert := Some(FailureAlert(reply, fallback));
    }
  }

  /** `handleStudentRegistration` on the stand-alone registration page: a blank field stops it with
      an alert and nothing sent; otherwise the trimmed values are sent, and an accepted reply is
      stored as the session, announced, and followed by a move to the student portal. */
  method HandleStudentRegistration(storage: LocalStorage, name: string, email: string, studentId: string, reply: Reply)
    returns (sent: Option<Request>, alert: Option<string>, redirect: Option<string>)
    modifies storage
    ensures ValidateRegistration(name, email, studentId).Failure? ==>
      sent == None && alert == Some(FillAllFields) && redirect == None && storage.items == old(storage.items)
    ensures ValidateRegistration(name, email, studentId).Success? ==>
      sent == Some(ValidateRegistration(name, email, studentId).value)
    ensures ValidateRegistration(name, email, studentId).Success? && reply.Accepted? ==>
      && storage.items == WriteSession(old(storage.items), reply.student)
      && alert == Some(RegistrationSucceeded) && redirect == Some(PortalPage)
    ensures ValidateRegistration(name, email, studentId).Success? && !reply.Accepted? ==>
      && storage.items == old(storage.items)
      && alert == Some(FailureAlert(reply, RegistrationFailed)) && redirect == None
  {
    var form := ValidateRegistration(name, email, studentId);
    if form.Failure? {
      return None, Some(form.error), None;
    }
    sent := Some(form.value);
    alert := StoreReply(storage, reply, RegistrationFailed);
    redirect := None;
    if reply.Accepted? {
      alert, redirect := Some(RegistrationSucceeded), Some(PortalPage);
    }
  }

  /** `handleStudentLogin` on the stand-alone login page: a blank id stops it with an alert and
      nothing sent; otherwise the trimmed id is sent, and an accepted reply is stored as the session
      and followed by a move to the student portal. */
  method HandleStudentLogin(storage: LocalStorage, studentId: string, reply: Reply)
    returns (sent: Option<Request>, alert: Option<string>, redirect: Option<string>)
    modifies storage
    ensures ValidateLogin(studentId).Failure? ==>
      sent == None && alert == Some(EnterStudentId) && redirect == None && storage.items == old(storage.items)
    ensures ValidateLogin(studentId).Success? ==> sent == Some(LoginRequest(Trim(studentId)))
    ensures ValidateLogin(studentId).Success? && reply.Accepted? ==>
      storage.items == WriteSession(old(storage.items), reply.student) && alert == None && redirect == Some(PortalPage)
    ensures ValidateLogin(studentId).Success? && !reply.Accepted? ==>
      storage.items == old(storage.items) && alert == Some(FailureAlert(reply, LoginFailed)) && redirect == None
  {
    var form := ValidateLogin(studentId);
    if form.Failure? {
      return None, Some(form.error), None;
    }
    sent := Some(form.value);
    alert := StoreReply(storage, reply, LoginFailed);
    redirect := if reply.Accepted? then Some(PortalPage) else None;
  }

  /** The elements of the student portal page (student.html) that the script changes. */
  class StudentPage {
    var loginDisplay: string            // #student-login
    var dashboardDisplay: string        // #student-dashboard
    var submitDisplay: string           // #submit-complaint
    var myComplaintsDisplay: string     // #my-complaints
    var studentNameText: string         // #student-name
    var loginSectionDisplay: string     // #login-section
    var registerSectionDisplay: string  // #register-section
    var showLoginClasses: set<string>   // classes of #show-login
    var showRegisterClasses: set<string> // classes of #show-register

    /** The four sections show the portal, with the student's name, exactly when `items` is logged
        in, and the login section otherwise. */
    predicate ShowsSession(items: map<string, string>)
      reads this
    {
      if LoggedIn(items) then
        && loginDisplay == Hidden && dashboardDisplay == Visible
        && submitDisplay == Visible && myComplaintsDisplay == Visible
        && studentNameText == items[CurrentStudentName]
      else
        && loginDisplay == Visible && dashboardDisplay == Hidden
        && submitDisplay == Hidden && myComplaintsDisplay == Hidden
    }

    /** `checkLoginStatus`: reads the id and the name back and shows the sections to match; the
        name on the page is only written when logged in. */
    method CheckLoginStatus(storage: LocalStorage)
      modifies this`loginDisplay, this`dashboardDisplay, this`submitDisplay, this`myComplaintsDisplay,
               this`studentNameText
      ensures ShowsSession(storage.items)
      ensures !LoggedIn(storage.items) ==> studentNameText == old(studentNameText)
    {
      var id := storage.GetItem(CurrentStudentId);
      var name := storage.GetItem(CurrentStudentName);
      if id.Some? && id.value != "" && name.Some? && name.value != "" {
        loginDisplay, dashboardDisplay := Hidden, Visible;
        submitDisplay, myComplaintsDisplay := Visible, Visible;
        studentNameText := name.value;
      } else {
        loginDisplay, dashboardDisplay := Visible, Hidden;
        submitDisplay, myComplaintsDisplay := Hidden, Hidden;
      }
    }

    /** `handleLogout`: removes the three session keys, leaves every other key, and shows the
        login section. */
    method HandleLogout(storage: LocalStorage)
      modifies storage, this`loginDisplay, this`dashboardDisplay, this`submitDisplay,
               this`myComplaintsDisplay, this`studentNameText
      ensures storage.items == ClearSession(old(storage.items))
      ensures ShowsSession(storage.items) && loginDisplay == Visible && dashboardDisplay == Hidden
      ensures studentNameText == old(studentNameText)
    {
      storage.RemoveItem(CurrentStudentId);
      storage.RemoveItem(CurrentStudentName);
      storage.RemoveItem(CurrentStudentEmail);
      ClearRemovesExactlySession(old(storage.items));
      CheckLoginStatus(storage);
    }

    /** `handleStudentRegistrationOnPortal`: as on the registration page, but an accepted reply is
        followed by `checkLoginStatus` instead of an alert and a move. */
    method HandleRegistrationOnPortal(storage: LocalStorage, name: string, email: string, studentId: string, reply: Reply)
      returns (sent: Option<Request>, alert: Option<string>)
      modifies storage, this`loginDisplay, this`dashboardDisplay, this`submitDisplay,
               this`myComplaintsDisplay, this`studentNameText
      ensures ValidateRegistration(name, email, studentId).Failure? ==>
        sent == None && alert == Some(FillAllFields) && storage.items == old(storage.items) && unchanged(this)
      ensures ValidateRegistration(name, email, studentId).Success? ==>
        sent == Some(ValidateRegistration(name, email, studentId).value)
      ensures ValidateRegistration(name, email, studentId).Success? && reply.Accepted? ==>
        storage.items == WriteSession(old(storage.items), reply.student) && alert == None && ShowsSession(storage.items)
        && (!LoggedIn(storage.items) ==> studentNameText == old(studentNameText))
      ensures ValidateRegistration(name, email, studentId).Success? && !reply.Accepted? ==>
        storage.items == old(storage.items) && alert == Some(FailureAlert(reply, RegistrationFailed)) && unchanged(this)
    {
      var form := ValidateRegistration(name, email, studentId);
      if form.Failure? {
        return None, Some(form.error);
      }
      sent := Some(form.value);
      alert := StoreReply(storage, reply, RegistrationFailed);
      if reply.Accepted? {
        CheckLoginStatus(storage);
      }
    }

    /** `handleStudentLoginOnPortal`: as on the login page, but an accepted reply is followed by
        `checkLoginStatus` instead of a move. */
    method HandleLoginOnPortal(storage: LocalStorage, studentId: string, reply: Reply)
      returns (sent: Option<Request>, alert: Option<string>)
      modifies storage, this`loginDisplay, this`dashboardDisplay, this`submitDisplay,
               this`myComplaintsDisplay, this`studentNameText
      ensures ValidateLogin(studentId).Failure? ==>
        sent == None && alert == Some(EnterStudentId) && storage.items == old(storage.items) && unchanged(this)
      ensures ValidateLogin(studentId).Success? ==> sent == Some(LoginRequest(Trim(studentId)))
      ensures ValidateLogin(studentId).Success? && reply.Accepted? ==>
        storage.items == WriteSession(old(storage.items), reply.student) && alert == None && ShowsSession(storage.items)
        && (!LoggedIn(storage.items) ==> studentNameText == old(studentNameText))
      ensures ValidateLogin(studentId).Success? && !reply.Accepted? ==>
        storage.items == old(storage.items) && alert == Some(FailureAlert(reply, LoginFailed)) && unchanged(this)
    {
      var form := ValidateLogin(studentId);
      if form.Failure? {
        return None, Some(form.error);
      }
      sent := Some(form.value);
      alert := StoreReply(storage, reply, LoginFailed);
      if reply.Accepted? {
        CheckLoginStatus(storage);
      }
    }

    /** `toggleLoginRegister`: shows one of the two forms, hides the other, and moves the `active`
        class to the matching button, leaving the buttons' other classes alone. */
    method ToggleLoginRegister(showLogin: bool)
      modifies this`loginSectionDisplay, this`registerSectionDisplay, this`showLoginClasses,
               this`showRegisterClasses
      ensures showLogin ==> loginSectionDisplay == Visible && registerSectionDisplay == Hidden
      ensures !showLogin ==> loginSectionDisplay == Hidden && registerSectionDisplay == Visible
      ensures showLoginClasses == if showLogin then old(showLoginClasses) + {Active} else old(showLoginClasses) - {Active}
      ensures showRegisterClasses == if showLogin then old(showRegisterClasses) - {Active} else old(showRegisterClasses) + {Active}
    {
      if showLogin {
        loginSectionDisplay, registerSectionDisplay := Visible, Hidden;
        showLoginClasses := showLoginClasses + {Active};
        showRegisterClasses := showRegisterClasses - {Active};
      } else {
        loginSectionDisplay, registerSectionDisplay := Hidden, Visible;
        showLoginClasses := showLoginClasses - {Active};
        showRegisterClasses := showRegisterClasses + {Active};
      }
    }
  }

  /** The elements of the admin page that `toggleRegisteredStudents` changes. */
  class AdminPage {
    var studentsDisplay: string   // #registered-students
    var toggleText: string        // #toggle-students

    /** `toggleRegisteredStudents`: a hidden panel is shown and the button offers to hide it; any
        other display value, including an unset one, hides the panel and the button offers to show it. */
    method ToggleRegisteredStudents()
      modifies this
      ensures old(studentsDisplay) == Hidden ==> studentsDisplay == Visible && toggleText == HideStudents
      ensures old(studentsDisplay) != Hidden ==> studentsDisplay == Hidden && toggleText == ShowStudents
    {
      if studentsDisplay == Hidden {
        studentsDisplay, toggleText := Visible, HideStudents;
      } else {
        studentsDisplay, toggleText := Hidden, ShowStudents;
      }
    }
  }
}
