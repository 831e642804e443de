/**
 * The user directory the authentication service works against. Users are
 * keyed by their email (the column is unique) and found by exact match; ids
 * come from an increasing sequence starting at 1.
 */
module Users {
  import opened Types

  /** A user row; `password` always holds a digest, never the plaintext. */
  datatype User = User(id: int, email: string, password: string, role: Role)

  /**
   * The directory invariant: each user is stored under its own email, ids
   * lie below the next id to hand out, and no two users share an id.
   */
  ghost predicate DirectoryValid(users: map<string, User>, nextId: int)
  {
    && nextId >= 1
    && (forall e :: e in users ==> users[e].email == e && 1 <= users[e].id < nextId)
    && (forall e1, e2 :: e1 in users && e2 in users && e1 != e2 ==> users[e1].id != users[e2].id)
  }

  class UsersService {
    var users: map<string, User>
    var nextId: int

    ghost predicate Valid()
      reads this
    {
      DirectoryValid(users, nextId)
    }

    constructor ()
      ensures Valid() && users == map[] && nextId == 1
    {
      users := map[];
      nextId := 1;
    }

    /** `findByEmail`: the user whose email is exactly `email`, or none. */
    function FindByEmail(email: string): (r: Option<User>)
      reads this
      requires Valid()
      ensures r.Some? <==> exists e :: e in users && users[e].email == email
      ensures r.Some? ==> r.value in users.Values && r.value.email == email
    {
      if email in users then Some(users[email]) else None
    }

    /** `create`: saves a new user, giving it the next id. */
    method Create(user: User) returns (saved: User)
      requires Valid()
      requires user.email !in users
      modifies this
      ensures Valid()
      ensures saved == user.(id := old(nextId))
      ensures users == old(users)[user.email := saved]
      ensures nextId == old(nextId) + 1
    {
      saved := user.(id := nextId);
      users := users[user.email := saved];
      nextId := nextId + 1;
    }
  }
}
