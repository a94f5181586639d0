/** The sign-up form talking to the auth service: what the form posts, what the
    controller answers, and how the form reads that answer. */
module SignupFlow {
  import opened Base
  import opened Signup
  import opened Auth

  /** The form recognises the service's replies: its success text signs the
      user up, and its refusal is shown as it was sent. */
  lemma RepliesRead(form: Form, axiosMessage: string)
    ensures SignupResponse(form, Answered(Text(Registered))) == SignedUp(form.username)
    ensures SignupResponse(form, Refused(Text(UserExists), axiosMessage)) == Failed(UserExists)
  {
    var low := Lower(Registered);
    assert low[16..23] == "success";
    assert OccursAt(low, "success", 16);
  }

  /** The success test never mistakes the refusal for a success. */
  lemma RefusalIsNotSuccess()
    ensures !Includes(Lower(UserExists), "success")
  {
    var low := Lower(UserExists);
    forall i | 0 <= i < |low| ensures low[i] != 'c' {
      assert UserExists[i] != 'c' && UserExists[i] != 'C';
    }
    IncludesNeedsChar(low, "success", 'c');
  }

  /** One submit against the service: blocked by the validators, or posted;
      a posted form signs up exactly when its username is free, and then the
      service holds one new user built from the form, with the encoded
      password, the email and no reset token. The profile fields (contact,
      age, gender, height, weight) are not read by any handler and are not
      part of this model. */
  method Submit(service: AuthController, form: Form, toNumber: string -> JsNumber, newId: UserId, axiosMessage: string)
    returns (result: SignupResult)
    requires service.Valid() && newId !in service.users
    modifies service
    ensures service.Valid()
    ensures !RulesHold(form, toNumber) ==> result == Failed("Please fix the highlighted fields.") && service.users == old(service.users)
    ensures RulesHold(form, toNumber) && UsernameTaken(old(service.users), form.username) ==>
              result == Failed(UserExists) && service.users == old(service.users)
    ensures RulesHold(form, toNumber) && !UsernameTaken(old(service.users), form.username) ==>
              result == SignedUp(form.username)
              && service.users == old(service.users)[newId := User(form.username, service.encoder.encode(form.password), Some(form.email), None)]
  {
    var step := HandleSignup(form, toNumber);
    match step
    case Blocked(_, globalError) =>
      result := Failed(globalError);
    case Post(payload) =>
      var reply := service.RegisterUser(User(payload.username, payload.password, Some(payload.email), None), newId);
      RepliesRead(form, axiosMessage);
      if reply.Ok? {
        result := SignupResponse(form, Answered(Text(reply.value)));
      } else {
        result := SignupResponse(form, Refused(Text(reply.message), axiosMessage));
      }
  }
}
