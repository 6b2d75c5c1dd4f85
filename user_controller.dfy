/**
 * The account handlers (backend/controllers/userController.js): a user
 * edits their own name and e-mail, an admin changes a user's role or
 * deletes a user. Each loads the stored user, overwrites fields on the
 * loaded document and saves it.
 */
module UserController {
  import opened Wrappers
  import opened Js

  /** A stored user. The password is the stored hash; the handlers never change it. */
  datatype User = User(name: string, email: string, role: string, password: string)

  /** `{ message, user }` with a status code; `user` is absent on errors and on deletion. */
  datatype Reply = Reply(code: nat, message: string, user: Option<User>)

  const NotFound := Reply(404, "User not found", None)
  const ServerError := Reply(500, "Server error", None)

  /** `value || fallback` for a body field: absent or empty keeps the fallback. */
  function OrElse(value: Option<string>, fallback: string): (r: string)
    ensures r == fallback || (value.Some? && r == value.value)
    ensures r == fallback <==> value.None? || value.value == "" || value.value == fallback
  {
    if Truthy(value) then value.value else fallback
  }

  /** The stored user after a profile edit. */
  function EditedProfile(u: User, name: Option<string>, email: Option<string>): (r: User)
    ensures r.role == u.role && r.password == u.password
    ensures r.name == (if Truthy(name) then name.value else u.name)
    ensures r.email == (if Truthy(email) then email.value else u.email)
  {
    u.(name := OrElse(name, u.name), email := OrElse(email, u.email))
  }

  /** The stored user after a role change. */
  function EditedRole(u: User, role: Option<string>): (r: User)
    ensures r.name == u.name && r.email == u.email && r.password == u.password
    ensures r.role == (if Truthy(role) then role.value else u.role)
  {
    u.(role := OrElse(role, u.role))
  }

  /** Sending the same edit twice leaves the user as sending it once. */
  lemma EditedProfileIdempotent(u: User, name: Option<string>, email: Option<string>)
    ensures EditedProfile(EditedProfile(u, name, email), name, email) == EditedProfile(u, name, email)
  {
  }

  /** An empty body changes nothing. */
  lemma EmptyEditKeepsUser(u: User)
    ensures EditedProfile(u, None, None) == u
    ensures EditedProfile(u, Some(""), Some("")) == u
    ensures EditedRole(u, None) == u && EditedRole(u, Some("")) == u
  {
  }

  /** The only way into another account's role is a non-empty role in the body. */
  lemma RoleChangesOnlyWhenGiven(u: User, role: Option<string>)
    requires EditedRole(u, role).role != u.role
    ensures Truthy(role) && EditedRole(u, role).role == role.value
  {
  }

  /** A user document loaded by `findById`, whose fields the handlers assign before `save`. */
  class UserDoc {
    var name: string
    var email: string
    var role: string
    var password: string

    function Snapshot(): User
      reads this
    {
      User(name, email, role, password)
    }

    constructor Load(u: User)
      ensures Snapshot() == u
    {
      name, email, role, password := u.name, u.email, u.role, u.password;
    }
  }

  /**
   * The users collection. `save` runs the user schema's validation, which
   * is not part of this model and is given as `accepts`.
   */
  class UserStore {
    var users: map<UserId, User>

    constructor (users: map<UserId, User>)
      ensures this.users == users
    {
      this.users := users;
    }

    /** `updateMyProfile` for the request's user (`null` when the account was removed after sign-in). */
    method UpdateMyProfile(requester: Option<UserId>, name: Option<string>, email: Option<string>, accepts: User -> bool)
      returns (reply: Reply)
      modifies this
      ensures requester.None? ==> reply == ServerError && users == old(users)
      ensures requester.Some? && requester.value !in old(users) ==> reply == NotFound && users == old(users)
      ensures requester.Some? && requester.value in old(users) ==>
                var edited := EditedProfile(old(users)[requester.value], name, email);
                if accepts(edited)
                then reply == Reply(200, "Profile updated", Some(edited)) && users == old(users)[requester.value := edited]
                else reply == ServerError && users == old(users)
    {
      if requester.None? {
        return ServerError;
      }
      var id := requester.value;
      if id !in users {
        return NotFound;
      }
      var user := new UserDoc.Load(users[id]);
      user.name := OrElse(name, user.name);
      user.email := OrElse(email, user.email);
      var saved := user.Snapshot();
      if !accepts(saved) {
        return ServerError;
      }
      users := users[id := saved];
      reply := Reply(200, "Profile updated", Some(saved));
    }

    /** `updateUserRole` for the user named in the path. */
    method UpdateUserRole(id: UserId, role: Option<string>, accepts: User -> bool) returns (reply: Reply)
      modifies this
      ensures id !in old(users) ==> reply == NotFound && users == old(users)
      ensures id in old(users) ==>
                var edited := EditedRole(old(users)[id], role);
                if accepts(edited)
                then reply == Reply(200, "Role updated", Some(edited)) && users == old(users)[id := edited]
                else reply == ServerError && users == old(users)
    {
      if id !in users {
        return NotFound;
      }
      var user := new UserDoc.Load(users[id]);
      user.role := OrElse(role, user.role);
      var saved := user.Snapshot();
      if !accepts(saved) {
        return ServerError;
      }
      users := users[id := saved];
      reply := Reply(200, "Role updated", Some(saved));
    }

    /** `deleteUser`: `findByIdAndDelete` removes the user if there is one. */
    method DeleteUser(id: UserId) returns (reply: Reply)
      modifies this
      ensures id !in old(users) ==> reply == NotFound && users == old(users)
      ensures id in old(users) ==> reply == Reply(200, "User deleted", None) && users == old(users) - {id}
    {
      if id !in users {
        return NotFound;
      }
      users := users - {id};
      reply := Reply(200, "User deleted", None);
    }
  }
}
