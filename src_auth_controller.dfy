/**
 * `login` of src/controllers/authController.js. Unlike its counterpart in
 * controllers/authController.js it checks no required fields and returns
 * the stored picture as it is, without a default. Signup is the shared
 * `Accounts.Signup`.
 */
module SrcAuthController {
  import opened Domain
  import opened Stores
  import opened Accounts
  import AuthController

  /** `login`: lookup by email, then the password comparison; any failure is "Invalid credentials". */
  function Login(members: seq<Member>, email: string, password: string,
                 matches: (string, string) -> bool, sign: (MemberId, string, string) -> string)
    : (r: Result<AuthController.Session>)
    ensures r.Err? ==> r.error == InvalidCredentials
    ensures r.Ok? <==> exists i :: 0 <= i < |members| && members[i].email == email
                          && matches(password, members[FindByEmail(members, email)].passwordHash)
    ensures r.Ok? ==>
              && var m := members[FindByEmail(members, email)];
              && r.value.user == View(m)
              && r.value.token == sign(m.id, m.role, m.name)
  {
    var k := FindByEmail(members, email);
    if k == -1 then Err(InvalidCredentials)
    else
      var m := members[k];
      if !matches(password, m.passwordHash) then Err(InvalidCredentials)
      else Ok(AuthController.Session(sign(m.id, m.role, m.name), View(m)))
  }

  /**
   * The two login handlers agree on complete requests, except that this one
   * passes the stored picture through where the other substitutes "" for a
   * missing or empty one.
   */
  lemma LoginVariantsAgree(members: seq<Member>, email: string, password: string,
                           matches: (string, string) -> bool, sign: (MemberId, string, string) -> string)
    requires email != "" && password != ""
    ensures var a := AuthController.Login(members, Some(email), Some(password), matches, sign);
            var b := Login(members, email, password, matches, sign);
            && (a.Ok? <==> b.Ok?)
            && (a.Err? ==> a == b)
            && (a.Ok? ==> a.value.token == b.value.token
                          && a.value.user == b.value.user.(profilePic := Some(AuthController.PicOrEmpty(b.value.user.profilePic))))
  {
  }
}
