/** The employee collection: records keyed by identifier, a unique index on `email`, and
    the store operations the routes use to write (`save`, `findByIdAndUpdate`,
    `findByIdAndDelete`). The reads (`find`, `findById`) are lookups in the stored map,
    written out in the routes that make them. */
module EmployeeStore {
  import opened Common
  import Text
  import opened EmployeeModel

  /** Why a write was refused: the schema's validators (`required`) or a unique index
      (`_id`, `email`). The route answers both with 500. */
  datatype SaveError = ValidationError | DuplicateKey

  /** No two stored records share an email (the `unique: true` index). */
  ghost predicate UniqueEmails(m: map<Id, Employee>)
  {
    forall a, b :: a in m && b in m && m[a].email == m[b].email ==> a == b
  }

  /** Some record other than `except` already holds `email`. */
  predicate EmailTaken(m: map<Id, Employee>, email: string, except: Option<Id>)
  {
    exists id :: id in m && m[id].email == email && Some(id) != except
  }

  /** The error, if any, with which inserting `e` into `m` fails: validation runs first,
      then the unique indexes on `_id` and `email`. */
  function InsertError(m: map<Id, Employee>, e: Employee): Option<SaveError>
  {
    if !HasRequired(e) then Some(ValidationError)
    else if e.id in m || EmailTaken(m, e.email, None) then Some(DuplicateKey)
    else None
  }

  /** `{ $regex: pattern, $options: 'i' }` on an optional path: a record without the
      path never matches. */
  predicate FieldMatches(field: Option<string>, pattern: string)
  {
    field.Some? && Text.ContainsIgnoringCase(field.value, pattern)
  }

  /** A query filter; each supplied condition must hold (the conditions are ANDed). */
  datatype Filter = Filter(department: Option<string>, position: Option<string>)

  predicate Matches(e: Employee, f: Filter)
  {
    && (f.department.Some? ==> FieldMatches(e.department, f.department.value))
    && (f.position.Some? ==> FieldMatches(e.position, f.position.value))
  }

  /** Outcome of `findByIdAndUpdate`: the updated record, `null` for a missing id, or a
      thrown unique-index violation. */
  datatype UpdateOutcome = Updated(record: Employee) | Missing | Rejected(error: SaveError)

  class EmployeeCollection {
    var docs: map<Id, Employee>

    /** Every record is filed under its own id and normalised, and emails are unique. */
    ghost predicate Valid()
      reads this
    {
      && (forall id :: id in docs ==> docs[id].id == id && IsNormalized(docs[id]))
      && UniqueEmails(docs)
    }

    constructor ()
      ensures Valid() && docs == map[]
    {
      docs := map[];
    }

    /** `doc.save()` for a new document: validation, then the pre-save hook, then the
        insert, which the unique indexes may refuse. On failure nothing is stored. */
    method Save(doc: EmployeeDocument, now: Time) returns (err: Option<SaveError>)
      requires Valid() && doc.Valid()
      modifies this, doc`updated_at
      ensures Valid() && doc.Valid()
      ensures err == InsertError(old(docs), old(doc.Value()))
      ensures err.None? ==> docs == old(docs)[doc.id := old(doc.Value()).(updated_at := now)]
      ensures err.Some? ==> docs == old(docs)
      ensures doc.updated_at == if HasRequired(old(doc.Value())) then now else old(doc.updated_at)
    {
      if !HasRequired(doc.Value()) {
        return Some(ValidationError);
      }
      doc.PreSave(now);
      var e := doc.Value();
      if e.id in docs || EmailTaken(docs, e.email, None) {
        return Some(DuplicateKey);
      }
      docs := docs[e.id := e];
      return None;
    }

    /** `findByIdAndUpdate(id, changes, { new: true })`. */
    method FindByIdAndUpdate(id: Id, u: Changes) returns (r: UpdateOutcome)
      requires Valid()
      modifies this
      ensures Valid()
      ensures id !in old(docs) ==> r == Missing && docs == old(docs)
      ensures id in old(docs) ==>
        var n := ApplyChanges(old(docs)[id], u);
        if EmailTaken(old(docs), n.email, Some(id))
        then r == Rejected(DuplicateKey) && docs == old(docs)
        else r == Updated(n) && docs == old(docs)[id := n]
    {
      if id !in docs {
        return Missing;
      }
      var n := ApplyChanges(docs[id], u);
      if EmailTaken(docs, n.email, Some(id)) {
        return Rejected(DuplicateKey);
      }
      docs := docs[id := n];
      return Updated(n);
    }

    /** `findByIdAndDelete(id)`: the removed record, or `null` when there was none. */
    method FindByIdAndDelete(id: Id) returns (r: Option<Employee>)
      requires Valid()
      modifies this
      ensures Valid()
      ensures r == if id in old(docs) then Some(old(docs)[id]) else None
      ensures docs == old(docs) - {id}
    {
      if id !in docs {
        return None;
      }
      r := Some(docs[id]);
      docs := docs - {id};
    }
  }
}
