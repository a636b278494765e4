/** php/api/register.php: the guards a registration request passes before
    registerUser is called, in the order the script checks them. */
module RegisterApi {
  import opened Common
  import opened Json
  import opened PhpValues
  import opened Config

  const RequiredFields: seq<string> := ["phone", "password", "confirmPassword", "firstName", "lastName", "dateOfBirth", "email"]

  /** Where the script goes with a request: it stops, or it hands the body's
      fields to registerUser. */
  datatype RegisterStep =
    | Stop(halt: Halt)
    | CallRegisterUser(phone: Json, password: Json, firstName: Json, lastName: Json, dateOfBirth: Json,
                       email: Json, gender: Json)

  predicate Blank(data: Body, field: string) {
    Empty(Lookup(data, field))
  }

  /** The first required field, in the script's order, that empty() rejects. */
  function FirstBlankField(data: Body): (r: Option<string>)
    ensures r.None? <==> forall k :: 0 <= k < |RequiredFields| ==> !Blank(data, RequiredFields[k])
    ensures r.Some? ==> exists k :: 0 <= k < |RequiredFields| && RequiredFields[k] == r.value && Blank(data, r.value) &&
                                    forall j :: 0 <= j < k ==> !Blank(data, RequiredFields[j])
    ensures r.None? ==> "phone" in data && "password" in data && "confirmPassword" in data && "firstName" in data &&
                        "lastName" in data && "dateOfBirth" in data && "email" in data
  {
    match FirstIndex(RequiredFields, (f: string) => Blank(data, f))
    case None =>
      assert !Blank(data, RequiredFields[0]) && !Blank(data, RequiredFields[1]) && !Blank(data, RequiredFields[2]);
      assert !Blank(data, RequiredFields[3]) && !Blank(data, RequiredFields[4]) && !Blank(data, RequiredFields[5]);
      assert !Blank(data, RequiredFields[6]);
      None
    case Some(k) => Some(RequiredFields[k])
  }

  /** The script from the method check to the registerUser call. */
  function Register(requestMethod: string, data: Body): (r: RegisterStep)
    ensures requestMethod != "POST" ==> r == Stop(SendError("Invalid request method", 405))
    ensures requestMethod == "POST" && FirstBlankField(data).Some? ==>
      r == Stop(SendError("Field '" + FirstBlankField(data).value + "' is required", 400))
    ensures r == Stop(SendError("Passwords do not match", 400)) <==>
      requestMethod == "POST" && FirstBlankField(data).None? && data["password"] != data["confirmPassword"]
    ensures r == Stop(Fatal) <==>
      requestMethod == "POST" && FirstBlankField(data).None? && data["password"] == data["confirmPassword"] &&
      Strlen(data["password"]).None?
    ensures r == Stop(SendError("Password must be at least 8 characters", 400)) <==>
      requestMethod == "POST" && FirstBlankField(data).None? && data["password"] == data["confirmPassword"] &&
      Strlen(data["password"]).Some? && Strlen(data["password"]).value < 8
    ensures r.CallRegisterUser? <==>
      requestMethod == "POST" && (forall k :: 0 <= k < |RequiredFields| ==> !Blank(data, RequiredFields[k])) &&
      data["password"] == data["confirmPassword"] && Strlen(data["password"]).Some? && Strlen(data["password"]).value >= 8
    ensures r.CallRegisterUser? ==>
      Some(r.phone) == Lookup(data, "phone") && Some(r.password) == Lookup(data, "password") &&
      Some(r.firstName) == Lookup(data, "firstName") && Some(r.lastName) == Lookup(data, "lastName") &&
      Some(r.dateOfBirth) == Lookup(data, "dateOfBirth") && Some(r.email) == Lookup(data, "email") &&
      r.gender == Coalesce(Lookup(data, "gender"), JNull)
  {
    if requestMethod != "POST" then Stop(SendError("Invalid request method", 405))
    else
      match FirstBlankField(data)
      case Some(field) =>
        FieldMessageDiffers(field);
        Stop(SendError("Field '" + field + "' is required", 400))
      case None =>
        if data["password"] != data["confirmPassword"] then Stop(SendError("Passwords do not match", 400))
        else
          match Strlen(data["password"])
          case None => Stop(Fatal)
          case Some(n) =>
            if n < 8 then Stop(SendError("Password must be at least 8 characters", 400))
            else CallRegisterUser(data["phone"], data["password"], data["firstName"], data["lastName"],
                                  data["dateOfBirth"], data["email"], Coalesce(Lookup(data, "gender"), JNull))
  }

  lemma FieldMessageDiffers(field: string)
    ensures "Field '" + field + "' is required" != "Password must be at least 8 characters"
    ensures "Field '" + field + "' is required" != "Passwords do not match"
  {
    assert ("Field '" + field + "' is required")[0] == 'F';
  }

  /** The length check comes last: whatever the password, the length error
      is never reported while a required field is blank or the confirmation
      differs, and a missing phone is always the error reported. */
  lemma ShortPasswordReportedLast(requestMethod: string, data: Body, password: Json)
    requires requestMethod == "POST"
    requires Lookup(data, "password") == Some(password)
    ensures Lookup(data, "confirmPassword") != Some(password) ==> Register(requestMethod, data) != Stop(SendError("Password must be at least 8 characters", 400))
    ensures (exists k :: 0 <= k < |RequiredFields| && Blank(data, RequiredFields[k])) ==>
      Register(requestMethod, data) != Stop(SendError("Password must be at least 8 characters", 400))
    ensures Lookup(data, "phone") == None ==> Register(requestMethod, data) == Stop(SendError("Field 'phone' is required", 400))
  {
    if Lookup(data, "phone") == None {
      assert Blank(data, RequiredFields[0]);
      var first := FirstBlankField(data);
      assert first.Some?;
      var k :| 0 <= k < |RequiredFields| && RequiredFields[k] == first.value && forall j :: 0 <= j < k ==> !Blank(data, RequiredFields[j]);
      assert k == 0;
      assert "Field '" + first.value + "' is required" == "Field 'phone' is required";
    } else if Register(requestMethod, data) == Stop(SendError("Password must be at least 8 characters", 400)) {
      assert FirstBlankField(data).None?;
      assert data["password"] == data["confirmPassword"];
      assert Lookup(data, "confirmPassword") == Some(password);
    }
  }
}
