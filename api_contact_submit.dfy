/** php/api/contact-submit.php: the login, method and comment guards, and
    the arguments saveContact receives. */
module ContactSubmitApi {
  import opened Common
  import opened Json
  import opened PhpValues
  import opened Config

  datatype ContactStep =
    | Stop(halt: Halt)
    | CallSaveContact(phone: string, firstName: string, lastName: string, dateOfBirth: string, email: string,
                      gender: Option<string>, comment: string)

  /** `empty($data['comment']) || strlen($data['comment']) < 10`; strlen
      on an array throws before the comparison, and `None` is that case. */
  function CommentTooShort(data: Body): Option<bool> {
    var c := Lookup(data, "comment");
    if Empty(c) then Some(true)
    else
      match Strlen(c.value)
      case None => None
      case Some(n) => Some(n < 10)
  }

  function SubmitContact(session: Session, requestMethod: string, data: Body): (r: ContactStep)
    ensures !IsLoggedIn(session) ==> r == Stop(SendError("You must be logged in to submit a contact form", 401))
    ensures IsLoggedIn(session) && requestMethod != "POST" ==> r == Stop(SendError("Invalid request method", 405))
    ensures r == Stop(SendError("Comment must be at least 10 characters", 400)) <==>
      IsLoggedIn(session) && requestMethod == "POST" && CommentTooShort(data) == Some(true)
    ensures r.CallSaveContact? <==> IsLoggedIn(session) && requestMethod == "POST" && CommentTooShort(data) == Some(false)
    ensures r == Stop(Fatal) <==> IsLoggedIn(session) && requestMethod == "POST" && CommentTooShort(data).None?
    ensures r.CallSaveContact? ==>
      var u := session.value;
      r.phone == u.phone && r.firstName == u.firstName && r.lastName == u.lastName &&
      r.dateOfBirth == u.dateOfBirth && r.email == u.email && r.gender == u.gender &&
      "comment" in data && PhpString(data["comment"]) == Some(r.comment) && |r.comment| >= 10
  {
    if !IsLoggedIn(session) then Stop(SendError("You must be logged in to submit a contact form", 401))
    else if requestMethod != "POST" then Stop(SendError("Invalid request method", 405))
    else
      match CommentTooShort(data)
      case None => Stop(Fatal)
      case Some(true) => Stop(SendError("Comment must be at least 10 characters", 400))
      case Some(false) =>
        var u := session.value;
        var comment := PhpString(data["comment"]).value;
        CallSaveContact(u.phone, u.firstName, u.lastName, u.dateOfBirth, u.email, u.gender, comment)
  }

  /** Only the comment is read from the request: two bodies with the same
      comment lead to the same call, whatever identity fields they carry. */
  lemma IdentityComesFromSession(session: Session, requestMethod: string, data1: Body, data2: Body)
    requires Lookup(data1, "comment") == Lookup(data2, "comment")
    ensures SubmitContact(session, requestMethod, data1) == SubmitContact(session, requestMethod, data2)
  {
    assert CommentTooShort(data1) == CommentTooShort(data2);
  }

  /** A ten-character comment is accepted and a nine-character one refused. */
  lemma CommentLengthBoundary(session: Session, data: Body, s: string)
    requires IsLoggedIn(session)
    requires Lookup(data, "comment") == Some(JStr(s))
    ensures |s| >= 10 ==> SubmitContact(session, "POST", data).CallSaveContact? && SubmitContact(session, "POST", data).comment == s
    ensures |s| < 10 ==> SubmitContact(session, "POST", data) == Stop(SendError("Comment must be at least 10 characters", 400))
  {
    NonEmptyString(s);
  }
}
