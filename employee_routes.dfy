/** The employee routes: list, search, create, read, update and delete, each behind the
    access gate. Every route is a short ordered decision tree; the pure ones are functions
    of the stored records, and the ones that write are methods on the collection, each
    proved equal to a specification function of the records before the call. */
module EmployeeRoutes {
  import opened Common
  import Text
  import opened Validation
  import opened EmployeeModel
  import opened EmployeeStore
  import AuthMiddleware
  import Crypto

  /** The text fields of a create or update request. */
  datatype EmployeeBody = EmployeeBody(
    first_name: Option<string>,
    last_name: Option<string>,
    email: Option<string>,
    position: Option<string>,
    salary: Option<string>,
    date_of_joining: Option<string>,
    department: Option<string>,
    profile_image: Option<string>)

  /** The `profile_image` file part as the upload middleware sees it. */
  datatype FilePart = FilePart(mimetype: string, size: nat)

  /** `limits: { fileSize: 2 * 1024 * 1024 }` */
  const MaxFileSize: nat := 2 * 1024 * 1024
  const UploadsPrefix := "/uploads/"

  /** The upload middleware stores a file only when its type is an image and it is no
      larger than the limit; otherwise it hands an error to the framework's default error
      handler, which answers 500, and the route handler never runs. */
  predicate UploadAccepted(f: FilePart)
  {
    Text.StartsWith(f.mimetype, "image/") && f.size <= MaxFileSize
  }

  /** The path recorded for a stored upload with generated file name `filename`. */
  function ImagePath(filename: string): (p: string)
    ensures Text.StartsWith(p, UploadsPrefix) && p[|UploadsPrefix|..] == filename
  {
    UploadsPrefix + filename
  }

  datatype EmployeeData = Many(records: map<Id, Employee>) | One(record: Employee)

  type Reply = Response<EmployeeData>

  /** A reply together with the records the store holds afterwards. */
  datatype Effect = Effect(reply: Reply, after: map<Id, Employee>)

  const InvalidIdMessage := "Invalid employee ID"
  const ValidationFailedMessage := "Validation failed"
  const SearchMissingMessage := "Please provide department or position to search"

  function NotFoundMessage(eid: string): string
  {
    "Employee for this ID " + eid + " is not found"
  }

  /** The text of a thrown store error (the wording of the store's own messages is not modelled). */
  function SaveErrorMessage(err: SaveError): string
  {
    match err
    case ValidationError => "Employee validation failed"
    case DuplicateKey => "E11000 duplicate key error"
  }

  // ---------------------------------------------------------------- GET /employees

  /** Every stored record. */
  function ListReply(m: map<Id, Employee>): (r: Reply)
    ensures r.code == 200 && r.ok && r.data == Some(Many(m))
  {
    Success(200, "", Many(m))
  }

  // --------------------------------------------------------- GET /employees/search

  /** The filter the search route builds: one case-insensitive condition per supplied
      (present and non-empty) query parameter. */
  function SearchFilter(department: Option<string>, position: Option<string>): Filter
  {
    var f := Filter(None, None);
    var f := if Supplied(department) then f.(department := department) else f;
    if Supplied(position) then f.(position := position) else f
  }

  /** With neither parameter supplied: 400 without consulting the store. Otherwise 200
      with exactly the records that satisfy every supplied condition. */
  function SearchReply(m: map<Id, Employee>, department: Option<string>, position: Option<string>): (r: Reply)
    ensures r.code == 400 <==> !Supplied(department) && !Supplied(position)
    ensures r.code == 400 ==> r == Failure(400, SearchMissingMessage)
    ensures r.code != 400 ==> r.code == 200 && r.data.Some? && r.data.value.Many?
    ensures r.code == 200 ==> forall id :: id in r.data.value.records <==>
      && id in m
      && (Supplied(department) ==> FieldMatches(m[id].department, department.value))
      && (Supplied(position) ==> FieldMatches(m[id].position, position.value))
    ensures r.code == 200 ==> forall id :: id in r.data.value.records ==> r.data.value.records[id] == m[id]
  {
    if !Supplied(department) && !Supplied(position) then
      Failure(400, SearchMissingMessage)
    else
      var f := SearchFilter(department, position);
      Success(200, "", Many(map id | id in m && Matches(m[id], f) :: m[id]))
  }

  /** Searching `department=it` finds a record whose department is `IT` and not one whose
      department is `Marketing`. */
  lemma SearchIgnoresCase()
    ensures FieldMatches(Some("IT"), "it")
    ensures !FieldMatches(Some("Marketing"), "it")
  {
    assert Text.Lower("IT") == "it";
    assert Text.Lower("it") == "it";
    assert Text.OccursAt("it", "it", 0);
    var hay := Text.Lower("Marketing");
    assert hay == "marketing";
    forall i | 0 <= i <= |hay| - 2 ensures !Text.OccursAt("it", hay, i) {
      assert hay[i..i + 2][0] == hay[i];
      assert hay[i..i + 2][1] == hay[i + 1];
    }
  }

  // ------------------------------------------------------------- POST /employees

  /** The create route's validation chains, in declaration order. */
  function CreateErrors(v: Validators, b: EmployeeBody): (errs: seq<FieldError>)
    ensures errs == [] <==>
      && NotEmpty(b.first_name) && NotEmpty(b.last_name) && v.isEmail(ValueOf(b.email))
      && (b.salary.Some? ==> v.isNumeric(b.salary.value))
      && (b.date_of_joining.Some? ==> v.isISO8601(b.date_of_joining.value))
    ensures FieldError("first_name", "First name is required") in errs <==> !NotEmpty(b.first_name)
    ensures FieldError("last_name", "Last name is required") in errs <==> !NotEmpty(b.last_name)
    ensures FieldError("email", "Valid email is required") in errs <==> !v.isEmail(ValueOf(b.email))
  {
    Check("first_name", NotEmpty(b.first_name), "First name is required")
    + Check("last_name", NotEmpty(b.last_name), "Last name is required")
    + Check("email", v.isEmail(ValueOf(b.email)), "Valid email is required")
    + CheckIfPresent("salary", b.salary, v.isNumeric, DefaultMessage)
    + CheckIfPresent("date_of_joining", b.date_of_joining, v.isISO8601, DefaultMessage)
  }

  /** `profile_image` of a created record: the stored file's path, or null without a file. */
  function ProfileImage(file: Option<string>): Option<string>
  {
    if file.Some? then Some(ImagePath(file.value)) else None
  }

  /** The record the create route builds from the body (the body's `profile_image` text is
      not among the fields it picks). */
  function NewRecord(id: Id, b: EmployeeBody, file: Option<string>, now: Time): (e: Employee)
    ensures IsNormalized(e) && e.id == id
    ensures e.first_name == Text.Trim(ValueOf(b.first_name)) && e.last_name == Text.Trim(ValueOf(b.last_name))
    ensures e.email == Text.Trim(ValueOf(b.email))
    ensures e.position == TrimOpt(b.position) && e.department == TrimOpt(b.department)
    ensures e.salary == b.salary && e.date_of_joining == b.date_of_joining
    ensures e.profile_image == if file.Some? then Some(UploadsPrefix + file.value) else None
    ensures e.created_at == now && e.updated_at == now
  {
    Employee(id, Text.Trim(ValueOf(b.first_name)), Text.Trim(ValueOf(b.last_name)),
             Text.Trim(ValueOf(b.email)), TrimOpt(b.position), b.salary, b.date_of_joining,
             TrimOpt(b.department), ProfileImage(file), now, now)
  }

  /** POST /employees. A validation failure answers 400 with the error list and stores
      nothing; a save failure answers 500 and stores nothing; otherwise exactly one record
      is added under the fresh id and 201 returns it. */
  function CreateSpec(m: map<Id, Employee>, b: EmployeeBody, file: Option<string>, v: Validators,
                      newId: Id, now: Time): (o: Effect)
    ensures o.reply.code in {201, 400, 500}
    ensures o.reply.code == 400 <==> CreateErrors(v, b) != []
    ensures o.reply.code == 400 ==> o.reply.errors == CreateErrors(v, b)
    ensures o.reply.code == 500 <==> CreateErrors(v, b) == [] && InsertError(m, NewRecord(newId, b, file, now)).Some?
    ensures o.reply.code != 201 ==> o.after == m && !o.reply.ok
    ensures o.reply.code == 201 ==>
      && o.reply.data == Some(One(NewRecord(newId, b, file, now)))
      && newId !in m && o.after == m[newId := NewRecord(newId, b, file, now)]
  {
    var errs := CreateErrors(v, b);
    if errs != [] then
      Effect(Invalid(ValidationFailedMessage, errs), m)
    else
      var e := NewRecord(newId, b, file, now);
      match InsertError(m, e)
      case Some(err) => Effect(Failure(500, SaveErrorMessage(err)), m)
      case None => Effect(Success(201, "Employee created successfully", One(e)), m[newId := e])
  }

  /** A created record has every required field and an email no other record holds, so
      creating keeps emails unique. */
  lemma {:induction false} CreateKeepsUnique(m: map<Id, Employee>, b: EmployeeBody, file: Option<string>,
                                             v: Validators, newId: Id, now: Time)
    requires UniqueEmails(m)
    ensures var o := CreateSpec(m, b, file, v, newId, now);
      && (o.reply.code == 201 ==>
            HasRequired(NewRecord(newId, b, file, now)) && !EmailTaken(m, NewRecord(newId, b, file, now).email, None))
      && UniqueEmails(o.after)
  {
    var o := CreateSpec(m, b, file, v, newId, now);
    if o.reply.code == 201 {
      var e := NewRecord(newId, b, file, now);
      assert InsertError(m, e).None?;
      assert forall id :: id in m ==> m[id].email != e.email;
    }
  }

  // -------------------------------------------------------- GET /employees/:eid

  /** A malformed id answers 400 before any lookup; an absent one 404; otherwise 200 with
      the record. The lookup uses the id the text casts to, so every spelling of a stored
      id finds it; the 404 message repeats the text as sent. */
  function GetReply(m: map<Id, Employee>, eid: string, v: Validators): (r: Reply)
    ensures r.code == 400 <==> !v.isObjectId(eid)
    ensures r.code == 404 <==> v.isObjectId(eid) && v.castObjectId(eid) !in m
    ensures r.code == 200 <==> v.isObjectId(eid) && v.castObjectId(eid) in m
    ensures r.code == 200 ==> r.data == Some(One(m[v.castObjectId(eid)]))
    ensures r.code == 404 ==> r.message == NotFoundMessage(eid)
  {
    if !v.isObjectId(eid) then Failure(400, InvalidIdMessage)
    else if v.castObjectId(eid) !in m then Failure(404, NotFoundMessage(eid))
    else Success(200, "", One(m[v.castObjectId(eid)]))
  }

  // -------------------------------------------------------- PUT /employees/:eid

  /** The update route's validation chains: every field optional. */
  function UpdateErrors(v: Validators, b: EmployeeBody): (errs: seq<FieldError>)
    ensures errs == [] <==>
      && (b.email.Some? ==> v.isEmail(b.email.value))
      && (b.salary.Some? ==> v.isNumeric(b.salary.value))
      && (b.date_of_joining.Some? ==> v.isISO8601(b.date_of_joining.value))
  {
    CheckIfPresent("email", b.email, v.isEmail, "Email must be valid")
    + CheckIfPresent("salary", b.salary, v.isNumeric, "Salary must be a number")
    + CheckIfPresent("date_of_joining", b.date_of_joining, v.isISO8601, DefaultMessage)
  }

  /** `updateData`: a copy of the body, with `profile_image` replaced by the stored file's
      path when a file was sent. */
  function UpdateData(b: EmployeeBody, file: Option<string>): (u: Changes)
    ensures u.profile_image == if file.Some? then Some(ImagePath(file.value)) else b.profile_image
    ensures u.first_name == b.first_name && u.last_name == b.last_name && u.email == b.email
    ensures u.position == b.position && u.department == b.department
    ensures u.salary == b.salary && u.date_of_joining == b.date_of_joining
  {
    Changes(b.first_name, b.last_name, b.email, b.position, b.salary, b.date_of_joining,
            b.department, if file.Some? then Some(ImagePath(file.value)) else b.profile_image)
  }

  /** PUT /employees/:eid. A malformed id answers 400 before the body's errors are
      looked at; then 400 for body errors, 404 for an absent id, 500 when the new email is
      already taken; otherwise only the supplied fields of that one record change. The
      record is the one the id text casts to. */
  function UpdateSpec(m: map<Id, Employee>, eid: string, b: EmployeeBody, file: Option<string>,
                      v: Validators): (o: Effect)
    ensures o.reply.code in {200, 400, 404, 500}
    ensures !v.isObjectId(eid) ==> o.reply == Failure(400, InvalidIdMessage)
    ensures o.reply.code == 400 <==> !v.isObjectId(eid) || UpdateErrors(v, b) != []
    ensures o.reply.code == 404 <==> v.isObjectId(eid) && UpdateErrors(v, b) == [] && v.castObjectId(eid) !in m
    ensures o.reply.code == 500 <==>
      && v.isObjectId(eid) && UpdateErrors(v, b) == [] && v.castObjectId(eid) in m
      && EmailTaken(m, ApplyChanges(m[v.castObjectId(eid)], UpdateData(b, file)).email, Some(v.castObjectId(eid)))
    ensures o.reply.code != 200 ==> o.after == m && !o.reply.ok
    ensures o.reply.code == 200 ==>
      var id := v.castObjectId(eid);
      && id in m && o.after == m[id := ApplyChanges(m[id], UpdateData(b, file))]
      && o.reply.data == Some(One(o.after[id]))
  {
    if !v.isObjectId(eid) then Effect(Failure(400, InvalidIdMessage), m)
    else
      var errs := UpdateErrors(v, b);
      var id := v.castObjectId(eid);
      if errs != [] then Effect(Invalid(ValidationFailedMessage, errs), m)
      else if id !in m then Effect(Failure(404, NotFoundMessage(eid)), m)
      else
        var n := ApplyChanges(m[id], UpdateData(b, file));
        if EmailTaken(m, n.email, Some(id)) then Effect(Failure(500, SaveErrorMessage(DuplicateKey)), m)
        else Effect(Success(200, "Employee details updated successfully", One(n)), m[id := n])
  }

  /** An update never gives a record an email another record holds, so emails stay unique. */
  lemma {:induction false} UpdateKeepsUnique(m: map<Id, Employee>, eid: string, b: EmployeeBody,
                                             file: Option<string>, v: Validators)
    requires UniqueEmails(m)
    ensures UniqueEmails(UpdateSpec(m, eid, b, file, v).after)
  {
    var o := UpdateSpec(m, eid, b, file, v);
    var key := v.castObjectId(eid);
    if o.reply.code == 200 {
      var n := o.after[key];
      assert !EmailTaken(m, n.email, Some(key));
      assert forall id :: id in m && id != key ==> m[id].email != n.email;
    }
  }

  /** An update that sends only a salary leaves the names and email as they were. */
  lemma SalaryOnlyUpdate(m: map<Id, Employee>, eid: string, salary: string, v: Validators)
    requires UpdateSpec(m, eid, EmployeeBody(None, None, None, None, Some(salary), None, None, None), None, v).reply.code == 200
    ensures var after := UpdateSpec(m, eid, EmployeeBody(None, None, None, None, Some(salary), None, None, None), None, v).after;
      var id := v.castObjectId(eid);
      && after[id].salary == Some(salary)
      && after[id].first_name == m[id].first_name
      && after[id].last_name == m[id].last_name
      && after[id].email == m[id].email
  {
  }

  // ----------------------------------------------------- DELETE /employees/:eid

  /** DELETE /employees/:eid. 400 for a malformed id, 404 (nothing changes) for an absent
      one, otherwise exactly the record the id text casts to is removed and 204 carries no
      body. */
  function DeleteSpec(m: map<Id, Employee>, eid: string, v: Validators): (o: Effect)
    ensures o.reply.code in {204, 400, 404}
    ensures o.reply.code == 400 <==> !v.isObjectId(eid)
    ensures o.reply.code == 404 <==> v.isObjectId(eid) && v.castObjectId(eid) !in m
    ensures o.reply.code != 204 ==> o.after == m
    ensures o.reply.code == 204 ==>
      v.castObjectId(eid) in m && o.after == m - {v.castObjectId(eid)} && o.reply.data == None
  {
    if !v.isObjectId(eid) then Effect(Failure(400, InvalidIdMessage), m)
    else if v.castObjectId(eid) !in m then Effect(Failure(404, NotFoundMessage(eid)), m)
    else Effect(Response(204, true, "", [], None), m - {v.castObjectId(eid)})
  }

  /** After a successful delete, reading the same id answers 404; deleting it again too. */
  lemma {:induction false} DeleteThenGet(m: map<Id, Employee>, eid: string, v: Validators)
    requires DeleteSpec(m, eid, v).reply.code == 204
    ensures GetReply(DeleteSpec(m, eid, v).after, eid, v).code == 404
    ensures DeleteSpec(DeleteSpec(m, eid, v).after, eid, v).reply.code == 404
  {
    var after := DeleteSpec(m, eid, v).after;
    assert v.castObjectId(eid) !in after;
  }

  /** A record read back right after it was created, through any id text that names the
      new id, equals what the create returned. */
  lemma {:induction false} CreateThenGet(m: map<Id, Employee>, b: EmployeeBody, file: Option<string>,
                                         v: Validators, newId: Id, now: Time, eid: string)
    requires CreateSpec(m, b, file, v, newId, now).reply.code == 201
    requires v.isObjectId(eid) && v.castObjectId(eid) == newId
    ensures GetReply(CreateSpec(m, b, file, v, newId, now).after, eid, v)
         == Success(200, "", CreateSpec(m, b, file, v, newId, now).reply.data.value)
  {
    var o := CreateSpec(m, b, file, v, newId, now);
    assert o.after[newId] == o.reply.data.value.record;
  }

  // ------------------------------------------------------ the handlers that write

  /** The create handler on the collection: validates the body, then saves the new record. */
  method CreateEmployee(store: EmployeeCollection, b: EmployeeBody, file: Option<string>,
                        v: Validators, newId: Id, now: Time) returns (r: Reply)
    requires store.Valid()
    modifies store
    ensures store.Valid()
    ensures Effect(r, store.docs) == CreateSpec(old(store.docs), b, file, v, newId, now)
  {
    var errs := CreateErrors(v, b);
    if errs != [] {
      return Invalid(ValidationFailedMessage, errs);
    }
    r := SaveNewEmployee(store, b, file, newId, now);
  }

  /** The create handler once the body is valid: builds the document (its setters trim the
      fields), saves it and answers 201 with the stored record, or 500 when the save fails. */
  method SaveNewEmployee(store: EmployeeCollection, b: EmployeeBody, file: Option<string>,
                         newId: Id, now: Time) returns (r: Reply)
    requires store.Valid()
    modifies store
    ensures store.Valid()
    ensures var e := NewRecord(newId, b, file, now);
      match InsertError(old(store.docs), e)
      case Some(err) => r == Failure(500, SaveErrorMessage(err)) && store.docs == old(store.docs)
      case None => r == Success(201, "Employee created successfully", One(e)) && store.docs == old(store.docs)[newId := e]
  {
    var profileImagePath := if file.Some? then Some(ImagePath(file.value)) else None;
    var doc := new EmployeeDocument(newId, ValueOf(b.first_name), ValueOf(b.last_name), ValueOf(b.email),
                                    b.position, b.salary, b.date_of_joining, b.department,
                                    profileImagePath, now);
    assert doc.Value() == NewRecord(newId, b, file, now);
    var err := store.Save(doc, now);
    if err.Some? {
      return Failure(500, SaveErrorMessage(err.value));
    }
    return Success(201, "Employee created successfully", One(doc.Value()));
  }

  /** The update handler: id check, body check, then `findByIdAndUpdate`. */
  method UpdateEmployee(store: EmployeeCollection, eid: string, b: EmployeeBody, file: Option<string>,
                        v: Validators) returns (r: Reply)
    requires store.Valid()
    modifies store
    ensures store.Valid()
    ensures Effect(r, store.docs) == UpdateSpec(old(store.docs), eid, b, file, v)
  {
    if !v.isObjectId(eid) {
      return Failure(400, InvalidIdMessage);
    }
    var errs := UpdateErrors(v, b);
    if errs != [] {
      return Invalid(ValidationFailedMessage, errs);
    }
    var updateData := Changes(b.first_name, b.last_name, b.email, b.position, b.salary,
                              b.date_of_joining, b.department, b.profile_image);
    if file.Some? {
      updateData := updateData.(profile_image := Some(ImagePath(file.value)));
    }
    var outcome := store.FindByIdAndUpdate(v.castObjectId(eid), updateData);
    match outcome
    case Missing => return Failure(404, NotFoundMessage(eid));
    case Rejected(err) => return Failure(500, SaveErrorMessage(err));
    case Updated(n) => return Success(200, "Employee details updated successfully", One(n));
  }

  /** The delete handler: id check, then `findByIdAndDelete`. */
  method DeleteEmployee(store: EmployeeCollection, eid: string, v: Validators) returns (r: Reply)
    requires store.Valid()
    modifies store
    ensures store.Valid()
    ensures Effect(r, store.docs) == DeleteSpec(old(store.docs), eid, v)
  {
    if !v.isObjectId(eid) {
      return Failure(400, InvalidIdMessage);
    }
    var removed := store.FindByIdAndDelete(v.castObjectId(eid));
    if removed.None? {
      return Failure(404, NotFoundMessage(eid));
    }
    return Response(204, true, "", [], None);
  }

  // ------------------------------------------------------------ the router

  /** One request to the employee router. */
  datatype Route =
    | ListAll
    | Search(department: Option<string>, position: Option<string>)
    | Create(body: EmployeeBody, file: Option<FilePart>)
    | GetOne(eid: string)
    | Update(eid: string, body: EmployeeBody, file: Option<FilePart>)
    | Delete(eid: string)

  /** The file part of a route that takes an upload, if one was sent. */
  function FileOf(route: Route): Option<FilePart>
  {
    if route.Create? || route.Update? then route.file else None
  }

  /** What the router answers once the gate has let the request through, the upload (if
      any) was stored as `filename`, and the store held `m`. */
  function RouteSpec(m: map<Id, Employee>, route: Route, v: Validators, now: Time,
                     newId: Id, filename: string): Effect
  {
    var stored := if FileOf(route).Some? then Some(filename) else None;
    match route
    case ListAll => Effect(ListReply(m), m)
    case Search(d, p) => Effect(SearchReply(m, d, p), m)
    case Create(b, _) => CreateSpec(m, b, stored, v, newId, now)
    case GetOne(eid) => Effect(GetReply(m, eid, v), m)
    case Update(eid, b, _) => UpdateSpec(m, eid, b, stored, v)
    case Delete(eid) => DeleteSpec(m, eid, v)
  }

  /** The employee router: the access gate first, then the upload middleware on the
      routes that take a file, then the handler. A request the gate refuses gets 401 and a
      refused upload 500; in both cases no handler runs and the store is unchanged. */
  method Handle(store: EmployeeCollection, req: AuthMiddleware.Request, route: Route,
                v: Validators, crypto: Crypto.Primitives, now: Time,
                newId: Id, filename: string) returns (r: Reply)
    requires store.Valid()
    modifies store, req`user
    ensures store.Valid()
    ensures AuthMiddleware.Decide(req.authorization, crypto, now).Deny? ==>
      r.code == 401 && store.docs == old(store.docs) && req.user == old(req.user)
    ensures AuthMiddleware.Decide(req.authorization, crypto, now).Admit? ==>
      req.user == Some(AuthMiddleware.Decide(req.authorization, crypto, now).payload)
    ensures AuthMiddleware.Decide(req.authorization, crypto, now).Admit? && FileOf(route).Some?
            && !UploadAccepted(FileOf(route).value) ==>
      r.code == 500 && store.docs == old(store.docs)
    ensures AuthMiddleware.Decide(req.authorization, crypto, now).Admit?
            && (FileOf(route).Some? ==> UploadAccepted(FileOf(route).value)) ==>
      Effect(r, store.docs) == RouteSpec(old(store.docs), route, v, now, newId, filename)
  {
    var gate := AuthMiddleware.Authenticate(req, crypto, now);
    if gate.Stop? {
      return Failure(gate.code, gate.message);
    }
    var part := FileOf(route);
    if part.Some? && !UploadAccepted(part.value) {
      return Failure(500, "Only image files are allowed");
    }
    var stored := if part.Some? then Some(filename) else None;
    match route {
      case ListAll =>
        r := ListReply(store.docs);
      case Search(d, p) =>
        r := SearchReply(store.docs, d, p);
      case Create(b, _) =>
        r := CreateEmployee(store, b, stored, v, newId, now);
      case GetOne(eid) =>
        r := GetReply(store.docs, eid, v);
      case Update(eid, b, _) =>
        r := UpdateEmployee(store, eid, b, stored, v);
      case Delete(eid) =>
        r := DeleteEmployee(store, eid, v);
    }
  }
}
