/**
 * Member registration, shared by the three signup handlers
 * (controllers/authController.js, src/controllers/authController.js and
 * the `/signup` route of index.js), and the password-free view of a member
 * that every reply carries. The handlers run the same checks; apart from
 * message text they differ only in the member schema they write to, which
 * is the `defaultPic` parameter: `Some("")` for the schemas of
 * models/Member.js and src/models/Member.js, `None` for the schema index.js
 * declares, which has no picture field.
 */
module Accounts {
  import opened Domain
  import opened Stores

  /** A member as replies show it: every field except the password hash. */
  datatype MemberView = MemberView(id: MemberId, name: string, email: string, role: string, profilePic: Option<string>)

  /** The reply projection (`select("-password")`). */
  function View(m: Member): (v: MemberView)
    ensures v.id == m.id && v.name == m.name && v.email == m.email && v.role == m.role && v.profilePic == m.profilePic
  {
    MemberView(m.id, m.name, m.email, m.role, m.profilePic)
  }

  /** All three signup fields are truthy. */
  predicate SignupComplete(name: Option<string>, email: Option<string>, password: Option<string>) {
    Present(name) && Present(email) && Present(password)
  }

  /**
   * The record signup stores: a fresh id, the hashed password, the role
   * defaulting to "customer", and the schema's default picture, if the
   * schema has one.
   */
  function NewMember(id: MemberId, name: string, email: string, password: string, role: Option<string>,
                     defaultPic: Option<string>, hash: string -> string): (m: Member)
    ensures m.id == id && m.name == name && m.email == email && m.passwordHash == hash(password) && m.role != ""
    ensures Present(role) ==> m.role == role.value
    ensures !Present(role) ==> m.role == "customer"
    ensures m.profilePic == defaultPic
  {
    Member(id, name, email, hash(password), RoleOrDefault(role), defaultPic)
  }

  /**
   * `signup`: with all three fields present and the email unused, exactly
   * one member is appended; otherwise the collection is untouched. `hash`
   * stands for `bcrypt.hash`, and `defaultPic` is the picture the schema
   * gives a new member.
   */
  method Signup(ms: MemberStore, name: Option<string>, email: Option<string>, password: Option<string>,
                role: Option<string>, defaultPic: Option<string>, hash: string -> string)
    returns (outcome: Outcome)
    requires ms.Valid()
    modifies ms
    ensures ms.Valid()
    ensures !SignupComplete(name, email, password) ==> outcome == Failure(MissingFields)
    ensures SignupComplete(name, email, password) && FindByEmail(old(ms.members), email.value) >= 0 ==>
              outcome == Failure(UserExists)
    ensures outcome.Failure? ==> ms.members == old(ms.members) && ms.nextId == old(ms.nextId)
    ensures SignupComplete(name, email, password) && FindByEmail(old(ms.members), email.value) == -1 ==>
              && outcome == Success
              && ms.members == old(ms.members) + [NewMember(old(ms.nextId), name.value, email.value, password.value, role, defaultPic, hash)]
              && ms.nextId == old(ms.nextId) + 1
  {
    if !Present(name) || !Present(email) || !Present(password) {
      return Failure(MissingFields);
    }
    if FindByEmail(ms.members, email.value) != -1 {
      return Failure(UserExists);
    }
    var m := NewMember(ms.nextId, name.value, email.value, password.value, role, defaultPic, hash);
    InsertKeepsValid(ms.members, ms.nextId, m);
    ms.members := ms.members + [m];
    ms.nextId := ms.nextId + 1;
    outcome := Success;
  }

  /**
   * Signing up twice with the same email adds the member once: the second
   * attempt is refused as an existing user.
   */
  method SignupTwice(ms: MemberStore, name: string, email: string, password: string,
                     defaultPic: Option<string>, hash: string -> string)
    requires ms.Valid() && name != "" && email != "" && password != ""
    requires FindByEmail(ms.members, email) == -1
    modifies ms
    ensures ms.Valid()
    ensures |ms.members| == |old(ms.members)| + 1
    ensures FindByEmail(ms.members, email) == |old(ms.members)|
  {
    var first := Signup(ms, Some(name), Some(email), Some(password), None, defaultPic, hash);
    assert ms.members[|old(ms.members)|].email == email;
    var second := Signup(ms, Some(name), Some(email), Some(password), None, defaultPic, hash);
    assert second == Failure(UserExists);
  }
}
