/** The user collection: records keyed by identifier, unique indexes on `username` and
    `email`, and the two store operations the routes use (`findOne` with an `$or` of email
    and username, and `save`). */
module UserStore {
  import opened Common
  import opened UserModel

  /** Why a save was refused: the schema's `required` validators or a unique index. */
  datatype SaveError = ValidationError | DuplicateKey

  /** No two stored users share a username, and no two share an email. */
  ghost predicate UniqueUsers(m: map<Id, User>)
  {
    && (forall a, b :: a in m && b in m && m[a].username == m[b].username ==> a == b)
    && (forall a, b :: a in m && b in m && m[a].email == m[b].email ==> a == b)
  }

  /** `{ $or: [{ email }, { username }] }`: the filter values are cast through the schema's
      setters; an absent key matches nothing. */
  predicate Matches(u: User, email: Option<string>, username: Option<string>)
  {
    || (email.Some? && u.email == NormalizeEmail(email.value))
    || (username.Some? && u.username == NormalizeUsername(username.value))
  }

  predicate AnyMatch(m: map<Id, User>, email: Option<string>, username: Option<string>)
  {
    exists id :: id in m && Matches(m[id], email, username)
  }

  /** Some stored user already holds `u`'s username or email. */
  predicate Clashes(m: map<Id, User>, u: User)
  {
    exists id :: id in m && (m[id].username == u.username || m[id].email == u.email)
  }

  /** The error, if any, with which inserting `u` into `m` fails: validation first, then
      the unique indexes on `_id`, `username` and `email`. */
  function InsertError(m: map<Id, User>, u: User): Option<SaveError>
  {
    if !HasRequired(u) then Some(ValidationError)
    else if u.id in m || Clashes(m, u) then Some(DuplicateKey)
    else None
  }

  class UserCollection {
    var users: map<Id, User>

    /** Every user is filed under its own id, normalised, has every required field, and
        usernames and emails are unique. */
    ghost predicate Valid()
      reads this
    {
      && (forall id :: id in users ==> users[id].id == id && IsNormalized(users[id]) && HasRequired(users[id]))
      && UniqueUsers(users)
    }

    constructor ()
      ensures Valid() && users == map[]
    {
      users := map[];
    }

    /** `User.findOne({ $or: [{ email }, { username }] })`: some matching user, or null when
        none matches. Which one of several matches is returned is not fixed. */
    method FindOne(email: Option<string>, username: Option<string>) returns (found: Option<User>)
      requires Valid()
      ensures found.None? <==> !AnyMatch(users, email, username)
      ensures found.Some? ==>
        found.value.id in users && users[found.value.id] == found.value && Matches(found.value, email, username)
    {
      if !AnyMatch(users, email, username) {
        return None;
      }
      var id :| id in users && Matches(users[id], email, username);
      return Some(users[id]);
    }

    /** `user.save()` for a new document: validation, then the pre-save hook, then the
        insert, which the unique indexes may refuse. On failure nothing is stored. */
    method Save(doc: UserDocument, now: Time) returns (err: Option<SaveError>)
      requires Valid() && doc.Valid()
      modifies this, doc`updated_at
      ensures Valid() && doc.Valid()
      ensures err == InsertError(old(users), old(doc.Value()))
      ensures err.None? ==> users == old(users)[doc.id := old(doc.Value()).(updated_at := now)]
      ensures err.Some? ==> users == old(users)
      ensures doc.updated_at == if HasRequired(old(doc.Value())) then now else old(doc.updated_at)
    {
      if !HasRequired(doc.Value()) {
        return Some(ValidationError);
      }
      doc.PreSave(now);
      var u := doc.Value();
      if u.id in users || Clashes(users, u) {
        return Some(DuplicateKey);
      }
      users := users[u.id := u];
      return None;
    }
  }
}
