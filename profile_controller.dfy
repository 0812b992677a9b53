/**
 * The profile handlers of src/controllers/profileController.js: read a
 * member without the password, rename a member (the name must not be
 * blank and is stored trimmed), and set a member's picture. Each update
 * changes exactly one field of exactly one member.
 */
module ProfileController {
  import opened Domain
  import opened Stores
  import opened Accounts
  import opened Text

  /** `getProfile`: the member's view, or NotFound. */
  function GetProfile(members: seq<Member>, user: MemberId): (r: Result<MemberView>)
    ensures r.Err? <==> forall i :: 0 <= i < |members| ==> members[i].id != user
    ensures r.Err? ==> r.error == NotFound
    ensures r.Ok? ==> r.value.id == user && exists i :: 0 <= i < |members| && View(members[i]) == r.value
  {
    var k := FindById(members, user);
    if k == -1 then Err(NotFound) else Ok(View(members[k]))
  }

  /** `!name || name.trim() === ""`. */
  predicate NameMissing(name: Option<string>) {
    !Present(name) || Trim(name.value) == ""
  }

  /** The blank check is the all-whitespace test. */
  lemma NameMissingIffBlank(name: Option<string>)
    ensures NameMissing(name) <==> name.None? || IsBlank(name.value)
  {
    if name.Some? {
      TrimEmptyIffBlank(name.value);
    }
  }

  /** Only field `name` of member `k` differs. */
  predicate OnlyNameChanged(before: seq<Member>, after: seq<Member>, k: int) {
    && |after| == |before| && 0 <= k < |before|
    && after[k] == before[k].(name := after[k].name)
    && forall i :: 0 <= i < |before| && i != k ==> after[i] == before[i]
  }

  /** Only field `profilePic` of member `k` differs. */
  predicate OnlyPicChanged(before: seq<Member>, after: seq<Member>, k: int) {
    && |after| == |before| && 0 <= k < |before|
    && after[k] == before[k].(profilePic := after[k].profilePic)
    && forall i :: 0 <= i < |before| && i != k ==> after[i] == before[i]
  }

  /** Changing one member's name or picture keeps ids and emails unique. */
  lemma ProfileEditKeepsValid(before: seq<Member>, after: seq<Member>, k: int, nextId: MemberId)
    requires OnlyNameChanged(before, after, k) || OnlyPicChanged(before, after, k)
    requires (forall i :: 0 <= i < |before| ==> before[i].id < nextId) && UniqueIds(before) && UniqueEmails(before)
    ensures (forall i :: 0 <= i < |after| ==> after[i].id < nextId) && UniqueIds(after) && UniqueEmails(after)
  {
    assert forall i :: 0 <= i < |after| ==> after[i].id == before[i].id && after[i].email == before[i].email;
  }

  /** `updateProfile`: the blank check first, then the lookup, then the trimmed name is stored. */
  method UpdateProfile(ms: MemberStore, user: MemberId, name: Option<string>) returns (r: Result<MemberView>)
    requires ms.Valid()
    modifies ms`members
    ensures ms.Valid()
    ensures NameMissing(name) ==> r == Err(NameRequired)
    ensures !NameMissing(name) && FindById(old(ms.members), user) == -1 ==> r == Err(NotFound)
    ensures r.Err? ==> ms.members == old(ms.members)
    ensures !NameMissing(name) && FindById(old(ms.members), user) >= 0 ==>
              && var k := FindById(old(ms.members), user);
              && OnlyNameChanged(old(ms.members), ms.members, k)
              && ms.members[k].name == Trim(name.value)
              && r == Ok(View(ms.members[k]))
    ensures r.Ok? ==>
              && r.value.id == user
              && r.value.name != ""
              && !IsWhitespace(r.value.name[0]) && !IsWhitespace(r.value.name[|r.value.name| - 1])
  {
    if !Present(name) || Trim(name.value) == "" {
      return Err(NameRequired);
    }
    var k := FindById(ms.members, user);
    if k == -1 {
      return Err(NotFound);
    }
    var trimmed := Trim(name.value);
    var updated := ms.members[k].(name := trimmed);
    ProfileEditKeepsValid(ms.members, ms.members[k := updated], k, ms.nextId);
    ms.members := ms.members[k := updated];
    r := Ok(View(updated));
  }

  /** `!req.file || !req.file.path`. */
  predicate FileMissing(file: Option<Upload>) {
    file.None? || file.value.path == ""
  }

  /** `updateProfilePic`: the file check first, then the lookup, then the picture is stored. */
  method UpdateProfilePic(ms: MemberStore, user: MemberId, file: Option<Upload>) returns (r: Result<MemberView>)
    requires ms.Valid()
    modifies ms`members
    ensures ms.Valid()
    ensures FileMissing(file) ==> r == Err(NoFile)
    ensures !FileMissing(file) && FindById(old(ms.members), user) == -1 ==> r == Err(NotFound)
    ensures r.Err? ==> ms.members == old(ms.members)
    ensures !FileMissing(file) && FindById(old(ms.members), user) >= 0 ==>
              && var k := FindById(old(ms.members), user);
              && OnlyPicChanged(old(ms.members), ms.members, k)
              && ms.members[k].profilePic == Some(file.value.path)
              && r == Ok(View(ms.members[k]))
  {
    if file.None? || file.value.path == "" {
      return Err(NoFile);
    }
    var k := FindById(ms.members, user);
    if k == -1 {
      return Err(NotFound);
    }
    var updated := ms.members[k].(profilePic := Some(file.value.path));
    ProfileEditKeepsValid(ms.members, ms.members[k := updated], k, ms.nextId);
    ms.members := ms.members[k := updated];
    r := Ok(View(updated));
  }

  /**
   * A rename stores the trimmed input, and submitting the stored name
   * again changes nothing, since it is already trimmed.
   */
  method RenameIsStable(ms: MemberStore, user: MemberId, name: string)
    requires ms.Valid() && FindById(ms.members, user) >= 0 && !IsBlank(name)
    modifies ms`members
    ensures ms.Valid()
    ensures var k := FindById(old(ms.members), user);
            OnlyNameChanged(old(ms.members), ms.members, k) && ms.members[k].name == Trim(name)
  {
    NameMissingIffBlank(Some(name));
    var k := FindById(ms.members, user);
    var first := UpdateProfile(ms, user, Some(name));
    var once := ms.members;
    var stored := once[k].name;
    assert !NameMissing(Some(stored)) by {
      TrimIdempotent(name);
    }
    assert FindById(once, user) == k by {
      FindByIdSameIds(old(ms.members), once, user);
    }
    var second := UpdateProfile(ms, user, Some(stored));
    var twice := ms.members;
    assert OnlyNameChanged(once, twice, k) && twice[k].name == Trim(stored);
    assert Trim(stored) == stored by {
      TrimIdempotent(name);
    }
    SameNameUnchanged(once, twice, k);
  }

  /** Rewriting a member's name with the name it already has changes nothing. */
  lemma SameNameUnchanged(before: seq<Member>, after: seq<Member>, k: int)
    requires OnlyNameChanged(before, after, k) && after[k].name == before[k].name
    ensures after == before
  {
    assert forall i :: 0 <= i < |before| ==> after[i] == before[i];
  }

  /** Lookups by id do not see changes to other fields. */
  lemma FindByIdSameIds(a: seq<Member>, b: seq<Member>, id: MemberId)
    requires |a| == |b| && forall i :: 0 <= i < |a| ==> a[i].id == b[i].id
    ensures FindById(a, id) == FindById(b, id)
  {
    assert (exists i :: 0 <= i < |a| && a[i].id == id) <==> (exists i :: 0 <= i < |b| && b[i].id == id);
  }
}
