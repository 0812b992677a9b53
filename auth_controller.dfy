/**
 * `login` of controllers/authController.js: a lookup by email and a
 * password comparison. `matches` stands for `bcrypt.compare` and `sign`
 * for `jwt.sign` over the member's id, role and name; neither is
 * interpreted. An unknown email and a wrong password give the same reply.
 */
module AuthController {
  import opened Domain
  import opened Stores
  import opened Accounts

  /** The successful reply: a token and the member's view. */
  datatype Session = Session(token: string, user: MemberView)

  /** `member.profilePic || ""`. */
  function PicOrEmpty(pic: Option<string>): (r: string)
    ensures Present(pic) ==> r == pic.value
    ensures !Present(pic) ==> r == ""
  {
    if Present(pic) then pic.value else ""
  }

  /** `login`: missing fields, then lookup by email, then the password comparison. */
  function Login(members: seq<Member>, email: Option<string>, password: Option<string>,
                 matches: (string, string) -> bool, sign: (MemberId, string, string) -> string): (r: Result<Session>)
    ensures !(Present(email) && Present(password)) ==> r == Err(MissingFields)
    ensures r.Err? ==> r.error in {MissingFields, InvalidCredentials}
    ensures Present(email) && Present(password) && r.Err? ==> r.error == InvalidCredentials
    ensures r.Ok? ==>
              && Present(email) && Present(password)
              && r.value.user.email == email.value
              && r.value.user.profilePic.Some?
              && exists i :: 0 <= i < |members| && members[i].id == r.value.user.id
                   && members[i].email == email.value && matches(password.value, members[i].passwordHash)
    ensures r.Ok? <==> && Present(email) && Present(password) && FindByEmail(members, email.value) >= 0
                       && matches(password.value, members[FindByEmail(members, email.value)].passwordHash)
    ensures r.Ok? ==>
              && var m := members[FindByEmail(members, email.value)];
              && r.value.user == View(m).(profilePic := Some(PicOrEmpty(m.profilePic)))
              && r.value.token == sign(m.id, m.role, m.name)
  {
    if !Present(email) || !Present(password) then Err(MissingFields)
    else
      var k := FindByEmail(members, email.value);
      if k == -1 then Err(InvalidCredentials)
      else
        var m := members[k];
        if !matches(password.value, m.passwordHash) then Err(InvalidCredentials)
        else
          Ok(Session(sign(m.id, m.role, m.name), MemberView(m.id, m.name, m.email, m.role, Some(PicOrEmpty(m.profilePic)))))
  }

  /**
   * The reply does not tell an unknown email from a wrong password: both
   * are the same "Invalid credentials" error.
   */
  lemma LoginHidesCause(members: seq<Member>, email: string, password: string,
                        matches: (string, string) -> bool, sign: (MemberId, string, string) -> string)
    requires email != "" && password != ""
    requires forall i :: 0 <= i < |members| && members[i].email == email ==> !matches(password, members[i].passwordHash)
    ensures Login(members, Some(email), Some(password), matches, sign) == Err(InvalidCredentials)
  {
  }

  /**
   * With unique emails, login succeeds exactly when some member has the
   * email and the password matches that member's hash, and then the reply
   * is that member's view.
   */
  lemma LoginSucceedsIff(members: seq<Member>, email: string, password: string,
                         matches: (string, string) -> bool, sign: (MemberId, string, string) -> string, i: nat)
    requires UniqueEmails(members) && email != "" && password != ""
    requires i < |members| && members[i].email == email
    ensures Login(members, Some(email), Some(password), matches, sign).Ok? <==> matches(password, members[i].passwordHash)
    ensures Login(members, Some(email), Some(password), matches, sign).Ok? ==>
              Login(members, Some(email), Some(password), matches, sign).value.user.id == members[i].id
  {
    FindByEmailUnique(members, i);
  }

  /**
   * After a successful signup, logging in with the same email and password
   * returns the new member, provided the comparison accepts a password
   * against its own hash. Whether the schema's default picture is "" or
   * absent, the reply carries "".
   */
  lemma LoginAfterSignup(members: seq<Member>, id: MemberId, name: string, email: string, password: string,
                         defaultPic: Option<string>, hash: string -> string, matches: (string, string) -> bool,
                         sign: (MemberId, string, string) -> string)
    requires email != "" && password != "" && FindByEmail(members, email) == -1
    requires matches(password, hash(password)) && !Present(defaultPic)
    ensures var r := Login(members + [NewMember(id, name, email, password, None, defaultPic, hash)], Some(email), Some(password), matches, sign);
            && r.Ok?
            && r.value.user == MemberView(id, name, email, "customer", Some(""))
  {
    var members' := members + [NewMember(id, name, email, password, None, defaultPic, hash)];
    var k := FindByEmail(members', email);
    assert members'[|members|].email == email;
    assert forall j :: 0 <= j < |members| ==> members'[j] == members[j];
  }
}
