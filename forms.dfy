/**
 * The checks the registration and login forms make before any request is
 * sent: every field is trimmed, and an empty trimmed field stops the submit.
 */
module Forms {
  import opened Wrappers
  import opened Text

  const FillAllFields := "Please fill in all fields."
  const EnterStudentId := "Please enter your Student ID."

  /** The body of the request a valid form sends. */
  datatype Request =
    | RegisterRequest(name: string, email: string, studentId: string)
    | LoginRequest(studentId: string)

  /** The registration check: the trimmed values, or the "fill in all fields" message when any of
      the three fields holds nothing but whitespace. */
  function ValidateRegistration(name: string, email: string, studentId: string): (r: Result<Request, string>)
    ensures r.Failure? <==> Blank(name) || Blank(email) || Blank(studentId)
    ensures r.Failure? ==> r.error == FillAllFields
    ensures r.Success? ==> r.value == RegisterRequest(Trim(name), Trim(email), Trim(studentId))
    ensures r.Success? ==> r.value.name != "" && r.value.email != "" && r.value.studentId != ""
  {
    var n, e, id := Trim(name), Trim(email), Trim(studentId);
    if n == "" || e == "" || id == "" then Failure(FillAllFields)
    else Success(RegisterRequest(n, e, id))
  }

  /** The login check: the trimmed id, or the "enter your Student ID" message when it is blank. */
  function ValidateLogin(studentId: string): (r: Result<Request, string>)
    ensures r.Failure? <==> Blank(studentId)
    ensures r.Failure? ==> r.error == EnterStudentId
    ensures r.Success? ==> r.value == LoginRequest(Trim(studentId)) && r.value.studentId != ""
  {
    var id := Trim(studentId);
    if id == "" then Failure(EnterStudentId) else Success(LoginRequest(id))
  }

  /** Surrounding whitespace never changes the outcome: validating the trimmed values gives the
      same request or message as validating the raw ones. */
  lemma ValidationIgnoresSurroundingSpace(name: string, email: string, studentId: string)
    ensures ValidateRegistration(Trim(name), Trim(email), Trim(studentId))
            == ValidateRegistration(name, email, studentId)
    ensures ValidateLogin(Trim(studentId)) == ValidateLogin(studentId)
  {
    TrimIdempotent(name);
    TrimIdempotent(email);
    TrimIdempotent(studentId);
    SameTrimSameOutcome(Trim(name), Trim(email), Trim(studentId), name, email, studentId);
  }

  /** Both checks see their fields only through `trim()`. */
  lemma SameTrimSameOutcome(n1: string, e1: string, id1: string, n2: string, e2: string, id2: string)
    requires Trim(n1) == Trim(n2) && Trim(e1) == Trim(e2) && Trim(id1) == Trim(id2)
    ensures ValidateRegistration(n1, e1, id1) == ValidateRegistration(n2, e2, id2)
    ensures ValidateLogin(id1) == ValidateLogin(id2)
  {
  }
}
