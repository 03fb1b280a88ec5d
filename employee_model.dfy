/** The employee record schema: required and trimmed fields, defaults, the update
    semantics of the store, and the pre-save hook that refreshes `updated_at`. */
module EmployeeModel {
  import opened Common
  import Text

  /** A stored employee record. `salary` and `date_of_joining` hold the validated request
      text that the schema casts to a number and a date. */
  datatype Employee = Employee(
    id: Id,
    first_name: string,
    last_name: string,
    email: string,
    position: Option<string>,
    salary: Option<string>,
    date_of_joining: Option<string>,
    department: Option<string>,
    profile_image: Option<string>,
    created_at: Time,
    updated_at: Time)

  /** `required: true` on the string paths: each is present and, after trimming, not empty. */
  predicate HasRequired(e: Employee)
  {
    e.first_name != "" && e.last_name != "" && e.email != ""
  }

  predicate IsTrimmedOpt(v: Option<string>)
  {
    v.Some? ==> Text.IsTrimmed(v.value)
  }

  /** Every path declared with `trim: true` holds a trimmed string. */
  predicate IsNormalized(e: Employee)
  {
    && Text.IsTrimmed(e.first_name)
    && Text.IsTrimmed(e.last_name)
    && Text.IsTrimmed(e.email)
    && IsTrimmedOpt(e.position)
    && IsTrimmedOpt(e.department)
  }

  /** The trim setter on an optional path. */
  function TrimOpt(v: Option<string>): (r: Option<string>)
    ensures IsTrimmedOpt(r) && r.Some? == v.Some?
  {
    if v.Some? then Some(Text.Trim(v.value)) else None
  }

  /** The paths an update may set; an absent one is left as it is. */
  datatype Changes = Changes(
    first_name: Option<string>,
    last_name: Option<string>,
    email: Option<string>,
    position: Option<string>,
    salary: Option<string>,
    date_of_joining: Option<string>,
    department: Option<string>,
    profile_image: Option<string>)

  function Pick(change: Option<string>, current: string): string
  {
    if change.Some? then change.value else current
  }

  function PickOpt(change: Option<string>, current: Option<string>): Option<string>
  {
    if change.Some? then change else current
  }

  /** `findByIdAndUpdate(id, changes)` on an existing record: the changes are cast through
      the schema's setters (so trimmed where the schema trims), the supplied paths are
      overwritten, and the identifier and both timestamps are kept. Validators do not run
      on this path, so `required` is not checked. */
  function ApplyChanges(e: Employee, u: Changes): (r: Employee)
    ensures r.id == e.id && r.created_at == e.created_at && r.updated_at == e.updated_at
    ensures u.first_name.None? ==> r.first_name == e.first_name
    ensures u.last_name.None? ==> r.last_name == e.last_name
    ensures u.email.None? ==> r.email == e.email
    ensures u.position.None? ==> r.position == e.position
    ensures u.salary.None? ==> r.salary == e.salary
    ensures u.date_of_joining.None? ==> r.date_of_joining == e.date_of_joining
    ensures u.department.None? ==> r.department == e.department
    ensures u.profile_image.None? ==> r.profile_image == e.profile_image
    ensures u.first_name.Some? ==> r.first_name == Text.Trim(u.first_name.value)
    ensures u.last_name.Some? ==> r.last_name == Text.Trim(u.last_name.value)
    ensures u.email.Some? ==> r.email == Text.Trim(u.email.value)
    ensures u.position.Some? ==> r.position == Some(Text.Trim(u.position.value))
    ensures u.department.Some? ==> r.department == Some(Text.Trim(u.department.value))
    ensures u.date_of_joining.Some? ==> r.date_of_joining == u.date_of_joining
    ensures u.salary.Some? ==> r.salary == u.salary
    ensures u.profile_image.Some? ==> r.profile_image == u.profile_image
    ensures IsNormalized(e) ==> IsNormalized(r)
  {
    e.(first_name := Pick(TrimOpt(u.first_name), e.first_name),
       last_name := Pick(TrimOpt(u.last_name), e.last_name),
       email := Pick(TrimOpt(u.email), e.email),
       position := PickOpt(TrimOpt(u.position), e.position),
       salary := PickOpt(u.salary, e.salary),
       date_of_joining := PickOpt(u.date_of_joining, e.date_of_joining),
       department := PickOpt(TrimOpt(u.department), e.department),
       profile_image := PickOpt(u.profile_image, e.profile_image))
  }

  /** Sending the same update twice leaves the record as the first one left it. */
  lemma {:induction false} ApplyChangesIdempotent(e: Employee, u: Changes)
    ensures ApplyChanges(ApplyChanges(e, u), u) == ApplyChanges(e, u)
  {
    if u.first_name.Some? { Text.TrimIdempotent(u.first_name.value); }
    if u.last_name.Some? { Text.TrimIdempotent(u.last_name.value); }
    if u.email.Some? { Text.TrimIdempotent(u.email.value); }
    if u.position.Some? { Text.TrimIdempotent(u.position.value); }
    if u.department.Some? { Text.TrimIdempotent(u.department.value); }
  }

  /** Because validators do not run on update, a name of blanks is stored as the empty
      string: an update can take a record that has its required fields to one that does not. */
  lemma UpdateCanBlankRequired(e: Employee)
    ensures !HasRequired(ApplyChanges(e, Changes(Some(" "), None, None, None, None, None, None, None)))
  {
    assert Text.LeadingSpaces(" ") == 1;
  }

  /** A document being built in memory (`new Employee({...})`) before it is saved. Every
      assignment goes through the schema's setters, so the document stays normalised. */
  class EmployeeDocument {
    const id: Id
    var first_name: string
    var last_name: string
    var email: string
    var position: Option<string>
    var salary: Option<string>
    var date_of_joining: Option<string>
    var department: Option<string>
    var profile_image: Option<string>
    var created_at: Time
    var updated_at: Time

    function Value(): Employee
      reads this
    {
      Employee(id, first_name, last_name, email, position, salary, date_of_joining,
               department, profile_image, created_at, updated_at)
    }

    ghost predicate Valid()
      reads this
    {
      IsNormalized(Value())
    }

    /** The setters trim the `trim: true` paths; `profile_image` is null unless a path is
        given; both timestamps default to the creation time. */
    constructor (id: Id, first_name: string, last_name: string, email: string,
                 position: Option<string>, salary: Option<string>, date_of_joining: Option<string>,
                 department: Option<string>, profile_image: Option<string>, now: Time)
      ensures Valid()
      ensures this.id == id && this.first_name == Text.Trim(first_name)
      ensures this.last_name == Text.Trim(last_name) && this.email == Text.Trim(email)
      ensures this.position == TrimOpt(position) && this.department == TrimOpt(department)
      ensures this.salary == salary && this.date_of_joining == date_of_joining
      ensures this.profile_image == profile_image
      ensures created_at == now && updated_at == now
    {
      this.id := id;
      this.first_name := Text.Trim(first_name);
      this.last_name := Text.Trim(last_name);
      this.email := Text.Trim(email);
      this.position := TrimOpt(position);
      this.salary := salary;
      this.date_of_joining := date_of_joining;
      this.department := TrimOpt(department);
      this.profile_image := profile_image;
      this.created_at := now;
      this.updated_at := now;
    }

    /** The `pre('save')` hook: sets `updated_at` to the current time; the frame says that
        no other field changes. */
    method PreSave(now: Time)
      requires Valid()
      modifies this`updated_at
      ensures Valid() && updated_at == now
      ensures Value() == old(Value()).(updated_at := now)
    {
      updated_at := now;
    }
  }
}
