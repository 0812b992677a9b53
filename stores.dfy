/**
 * The three document collections the handlers read and write (products,
 * carts, members) and the external image host. Each collection is an
 * object whose fields the handlers update in place; `Valid` is what every
 * handler keeps true of it.
 */
module Stores {
  import opened Domain
  import opened CartLines

  /** The `product` collection; new documents get the id `nextId`. */
  class ProductStore {
    var products: map<ProductId, Product>
    var nextId: ProductId

    ghost predicate Valid()
      reads this
    {
      forall id :: id in products ==> id < nextId
    }

    /** An empty collection. */
    constructor()
      ensures products == map[] && nextId == 0 && Valid()
    {
      products := map[];
      nextId := 0;
    }
  }

  /** The `carts` collection: at most one item list per user. */
  class CartStore {
    var carts: map<MemberId, seq<Line>>

    ghost predicate Valid()
      reads this
    {
      forall u :: u in carts ==> WellFormed(carts[u])
    }

    /** No user has a cart yet. */
    constructor()
      ensures carts == map[] && Valid()
    {
      carts := map[];
    }
  }

  /**
   * The `members` collection, in insertion order; `findOne` returns the
   * first match. Ids and emails are unique (the schema's unique index on
   * `email` and the store-assigned `_id`).
   */
  class MemberStore {
    var members: seq<Member>
    var nextId: MemberId

    ghost predicate Valid()
      reads this
    {
      && (forall i :: 0 <= i < |members| ==> members[i].id < nextId)
      && UniqueIds(members)
      && UniqueEmails(members)
    }

    /** An empty collection. */
    constructor()
      ensures members == [] && nextId == 0 && Valid()
    {
      members := [];
      nextId := 0;
    }
  }

  /** The external image host, seen only through the deletions it is asked to make. */
  class ImageHost {
    var destroyed: seq<string>

    /** No destruction requested yet. */
    constructor()
      ensures destroyed == []
    {
      destroyed := [];
    }
  }

  predicate UniqueIds(members: seq<Member>) {
    forall i, j :: 0 <= i < j < |members| ==> members[i].id != members[j].id
  }

  predicate UniqueEmails(members: seq<Member>) {
    forall i, j :: 0 <= i < j < |members| ==> members[i].email != members[j].email
  }

  /** `Member.findOne({ email })`: the index of the first member with that email, or -1. */
  function FindByEmail(members: seq<Member>, email: string): (k: int)
    ensures -1 <= k < |members|
    ensures 0 <= k ==> members[k].email == email
    ensures 0 <= k ==> forall j :: 0 <= j < k ==> members[j].email != email
    ensures k == -1 <==> forall i :: 0 <= i < |members| ==> members[i].email != email
  {
    FirstIndex(members, (m: Member) => m.email == email)
  }

  /** `Member.findById(id)`: the index of the first member with that id, or -1. */
  function FindById(members: seq<Member>, id: MemberId): (k: int)
    ensures -1 <= k < |members|
    ensures 0 <= k ==> members[k].id == id
    ensures 0 <= k ==> forall j :: 0 <= j < k ==> members[j].id != id
    ensures k == -1 <==> forall i :: 0 <= i < |members| ==> members[i].id != id
  {
    FirstIndex(members, (m: Member) => m.id == id)
  }

  /** With unique emails, the member `findOne` returns is the only one with that email. */
  lemma FindByEmailUnique(members: seq<Member>, i: nat)
    requires UniqueEmails(members) && i < |members|
    ensures FindByEmail(members, members[i].email) == i
  {
  }

  /** `role || "customer"`. */
  function RoleOrDefault(role: Option<string>): (r: string)
    ensures r != ""
    ensures Present(role) ==> r == role.value
    ensures !Present(role) ==> r == "customer"
  {
    if Present(role) then role.value else "customer"
  }

  /**
   * Appending a member whose id is fresh and whose email no member has keeps
   * the collection valid.
   */
  lemma InsertKeepsValid(members: seq<Member>, nextId: MemberId, m: Member)
    requires (forall i :: 0 <= i < |members| ==> members[i].id < nextId) && UniqueIds(members) && UniqueEmails(members)
    requires m.id == nextId && FindByEmail(members, m.email) == -1
    ensures forall i :: 0 <= i < |members + [m]| ==> (members + [m])[i].id < nextId + 1
    ensures UniqueIds(members + [m]) && UniqueEmails(members + [m])
  {
  }
}
