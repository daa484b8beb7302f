/**
  The administrator's user operations: updating a user's name, e-mail and
  administrator flag, and deleting a user. The user collection is a map
  from id to record; the reply to an update never carries the password.
 */
module UserController {
  import opened Js

  /** A stored user. */
  datatype UserRecord = UserRecord(id: string, name: string, email: string, password: string, isAdmin: bool)

  /** The fields of an update request; `None` stands for a missing or `null` field. */
  datatype UpdateBody = UpdateBody(name: Option<string>, email: Option<string>, isAdmin: Option<bool>)

  /** The user as the update replies with it: `_id`, `name`, `email` and `isAdmin`. */
  datatype PublicUser = PublicUser(id: string, name: string, email: string, isAdmin: bool)

  datatype UserReply = UserView(user: PublicUser) | Done(message: string) | Failure(status: int, message: string)

  /**
    The record after an update: name and e-mail are replaced only by
    non-empty values (`||`), the administrator flag by any present value,
    `false` included (`??`); id and password stay.
   */
  function Merged(u: UserRecord, body: UpdateBody): (r: UserRecord)
    ensures TruthyStr(body.name) ==> r.name == body.name.value
    ensures !TruthyStr(body.name) ==> r.name == u.name
    ensures TruthyStr(body.email) ==> r.email == body.email.value
    ensures !TruthyStr(body.email) ==> r.email == u.email
    ensures body.isAdmin.Some? ==> r.isAdmin == body.isAdmin.value
    ensures body.isAdmin.None? ==> r.isAdmin == u.isAdmin
    ensures r.id == u.id && r.password == u.password
  {
    u.(name := StrOr(body.name, u.name), email := StrOr(body.email, u.email), isAdmin := Nullish(body.isAdmin, u.isAdmin))
  }

  /** An empty name is ignored while `false` revokes the administrator flag. */
  lemma EmptyNameKeptFalseAdminApplied(u: UserRecord, email: Option<string>)
    ensures var r := Merged(u, UpdateBody(Some(""), email, Some(false)));
      r.name == u.name && !r.isAdmin
  {
  }

  /** Applying the same update twice is applying it once. */
  lemma MergedIdempotent(u: UserRecord, body: UpdateBody)
    ensures Merged(Merged(u, body), body) == Merged(u, body)
  {
  }

  /** An update with no fields changes nothing. */
  lemma EmptyUpdateKeeps(u: UserRecord)
    ensures Merged(u, UpdateBody(None, None, None)) == u
  {
  }

  /** Two updates in a row: the later one wins on every field it sets. */
  lemma LaterUpdateWins(u: UserRecord, first: UpdateBody, second: UpdateBody)
    ensures var r := Merged(Merged(u, first), second);
      && (TruthyStr(second.name) ==> r.name == second.name.value)
      && (!TruthyStr(second.name) ==> r.name == Merged(u, first).name)
      && (second.isAdmin.Some? ==> r.isAdmin == second.isAdmin.value)
      && (second.isAdmin.None? ==> r.isAdmin == Merged(u, first).isAdmin)
  {
  }

  /** The reply to an update: the record without its password. */
  function PublicView(u: UserRecord): (r: PublicUser)
    ensures r.id == u.id && r.name == u.name && r.email == u.email && r.isAdmin == u.isAdmin
  {
    PublicUser(u.id, u.name, u.email, u.isAdmin)
  }

  /** The reply does not depend on the password. */
  lemma PublicViewHidesPassword(u: UserRecord, password: string)
    ensures PublicView(u.(password := password)) == PublicView(u)
  {
  }

  /** The user collection. */
  class UserStore {
    var users: map<string, UserRecord>

    /** Every record is filed under its own id. */
    predicate Valid()
      reads this
    {
      forall id :: id in users ==> users[id].id == id
    }

    constructor ()
      ensures Valid() && users == map[]
    {
      users := map[];
    }

    /**
      `updateUser`: an unknown id is not found and changes nothing; otherwise
      the fields are assigned one by one, the record is saved and returned
      without its password.
     */
    method UpdateUser(id: string, body: UpdateBody) returns (reply: UserReply)
      requires Valid()
      modifies this
      ensures Valid()
      ensures id !in old(users) ==> reply == Failure(404, "User not found") && users == old(users)
      ensures id in old(users) ==>
        && users == old(users)[id := Merged(old(users)[id], body)]
        && reply == UserView(PublicView(users[id]))
    {
      if id !in users {
        return Failure(404, "User not found");
      }
      var user := users[id];
      user := user.(name := StrOr(body.name, user.name));
      user := user.(email := StrOr(body.email, user.email));
      user := user.(isAdmin := Nullish(body.isAdmin, user.isAdmin));
      users := users[id := user];
      reply := UserView(PublicUser(user.id, user.name, user.email, user.isAdmin));
    }

    /** `deleteUser`: an unknown id is not found and changes nothing; otherwise the user is gone. */
    method DeleteUser(id: string) returns (reply: UserReply)
      requires Valid()
      modifies this
      ensures Valid()
      ensures id !in old(users) ==> reply == Failure(404, "User not found") && users == old(users)
      ensures id in old(users) ==>
        && users == old(users) - {id}
        && reply == Done("User deleted successfully")
      ensures id !in users
    {
      if id !in users {
        return Failure(404, "User not found");
      }
      users := users - {id};
      reply := Done("User deleted successfully");
    }
  }
}
