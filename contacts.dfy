/** Membership in a list of user ids (`UserList.contains`) and the contact
    resolver (`findContactByEmail`). */
module Contacts {
  import opened WobbleTypes

  /** `UserList.contains`: a linear scan that stops at the first equal id. */
  method Contains(users: seq<int>, userId: int) returns (found: bool)
    ensures found <==> userId in users
    ensures users == [] ==> !found
  {
    for k := 0 to |users|
      invariant forall j :: 0 <= j < k ==> users[j] != userId
    {
      if users[k] == userId {
        return true;
      }
    }
    return false;
  }

  /** The user id the contact scan settles on: that of the first contact whose
      email equals `email`, or -1 when no contact has it. */
  function FirstContactId(users: seq<User>, email: string): (id: int)
    ensures (forall k :: 0 <= k < |users| ==> users[k].email != email) ==> id == -1
    ensures forall k :: 0 <= k < |users| && users[k].email == email &&
                        (forall j :: 0 <= j < k ==> users[j].email != email) ==>
                        id == users[k].userId
  {
    if users == [] then -1
    else if users[0].email == email then users[0].userId
    else
      var rest := users[1..];
      assert forall k :: 1 <= k < |users| ==> rest[k - 1] == users[k];
      FirstContactId(rest, email)
  }

  /** The three-way result of `findContactByEmail`, given what `GetContacts`
      returned: -2 when fetching the contacts failed, else the id of the first
      contact with that email, else -1. */
  function ContactId(contacts: Result<seq<User>, ApiError>, email: string): (id: int)
    ensures contacts.Failure? ==> id == -2
    ensures contacts.Success? &&
            (forall k :: 0 <= k < |contacts.value| ==> contacts.value[k].email != email) ==>
            id == -1
    ensures contacts.Success? ==>
            forall k :: 0 <= k < |contacts.value| && contacts.value[k].email == email &&
                        (forall j :: 0 <= j < k ==> contacts.value[j].email != email) ==>
                        id == contacts.value[k].userId
  {
    match contacts
    case Failure(_) => -2
    case Success(users) => FirstContactId(users, email)
  }

  /** `findContactByEmail`, once `GetContacts` has answered `contacts`. */
  method FindContactByEmail(contacts: Result<seq<User>, ApiError>, email: string) returns (id: int)
    ensures id == ContactId(contacts, email)
  {
    if contacts.Failure? {
      return -2;
    }
    var users := contacts.value;
    for k := 0 to |users|
      invariant forall j :: 0 <= j < k ==> users[j].email != email
    {
      if users[k].email == email {
        return users[k].userId;
      }
    }
    return -1;
  }
}
