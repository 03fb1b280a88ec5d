/** The user record schema: required fields, the trimmed username, the lower-cased and
    trimmed email, default timestamps and the pre-save hook that refreshes `updated_at`. */
module UserModel {
  import opened Common
  import Text

  /** A stored user; `password` holds the bcrypt hash, never the plaintext. */
  datatype User = User(
    id: Id,
    username: string,
    email: string,
    password: string,
    created_at: Time,
    updated_at: Time)

  /** The username setter: `trim: true`. */
  function NormalizeUsername(s: string): (r: string)
    ensures Text.IsTrimmed(r)
  {
    Text.Trim(s)
  }

  /** The email setters: `lowercase: true` and `trim: true`. */
  function NormalizeEmail(s: string): (r: string)
    ensures Text.IsTrimmed(r) && Text.IsLower(r)
  {
    Text.LowerTrimCommute(s);
    Text.Lower(Text.Trim(s))
  }

  /** Normalising an email that is already normalised changes nothing, so re-saving a
      stored user or looking one up by its stored email finds the same text. */
  lemma {:induction false} NormalizeEmailIdempotent(s: string)
    ensures NormalizeEmail(NormalizeEmail(s)) == NormalizeEmail(s)
  {
    var n := NormalizeEmail(s);
    Text.TrimOfTrimmed(n);
    assert Text.Lower(n) == n;
  }

  /** `required: true` on every path: present and, after the setters, not empty. */
  predicate HasRequired(u: User)
  {
    u.username != "" && u.email != "" && u.password != ""
  }

  predicate IsNormalized(u: User)
  {
    Text.IsTrimmed(u.username) && Text.IsTrimmed(u.email) && Text.IsLower(u.email)
  }

  /** A user document built in memory (`new User({...})`) before it is saved. */
  class UserDocument {
    const id: Id
    var username: string
    var email: string
    var password: string
    var created_at: Time
    var updated_at: Time

    function Value(): User
      reads this
    {
      User(id, username, email, password, created_at, updated_at)
    }

    ghost predicate Valid()
      reads this
    {
      IsNormalized(Value())
    }

    /** The setters normalise username and email; both timestamps default to the
        creation time. */
    constructor (id: Id, username: string, email: string, password: string, now: Time)
      ensures Valid()
      ensures this.id == id && this.username == NormalizeUsername(username)
      ensures this.email == NormalizeEmail(email) && this.password == password
      ensures created_at == now && updated_at == now
    {
      this.id := id;
      this.username := NormalizeUsername(username);
      this.email := NormalizeEmail(email);
      this.password := password;
      this.created_at := now;
      this.updated_at := now;
    }

    /** The `pre('save')` hook: sets `updated_at` to the current time and nothing else. */
    method PreSave(now: Time)
      requires Valid()
      modifies this`updated_at
      ensures Valid() && updated_at == now
      ensures Value() == old(Value()).(updated_at := now)
    {
      updated_at := now;
    }
  }
}
