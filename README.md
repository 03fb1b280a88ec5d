# Employee management API — a Dafny model of the back end

This project models the request handling of the Express back end of a small employee
management application. It covers the following parts:

- **Access gate** (`backend/middleware/auth.js`). It admits a request to the employee
  routes only if the request carries `Authorization: Bearer <token>` and the token
  verifies. It then attaches the decoded payload as `req.user`. Otherwise it answers 401.
- **Record schemas** (`backend/models/Employee.js`, `backend/models/User.js`). These cover
  required fields, the trim and lowercase setters, unique indexes, default timestamps, and
  the pre-save hook that refreshes `updated_at`.
- **Employee routes** (`backend/routes/employee.js`). These are list, search, create, read,
  update and delete. Each route sits behind the gate. Create and update also sit behind the
  image-upload filter.
- **Account routes** (`backend/routes/user.js`). Signup stores a user with a bcrypt hash of
  the password. Login compares a password with the stored hash and returns a signed token
  that is valid for one hour.

The two MongoDB collections are classes holding a map from id to record
(`EmployeeStore.EmployeeCollection`, `UserStore.UserCollection`). Their `Valid()`
invariants cover several things:

- every record is filed under its own id;
- every record is stored normalised (trimmed, and the user email lower-cased);
- the unique indexes hold: employee email, user username and user email.

A Mongoose document under construction is a class as well (`EmployeeDocument`,
`UserDocument`). This lets the pre-save hook assign `updated_at` in place.

Every route is an ordered decision tree. A route that only reads is a function of the
stored map. A route that writes is a method on the collection, proved equal to a
specification function of the map before the call. For example, `CreateEmployee` ensures
`Effect(r, store.docs) == CreateSpec(old(store.docs), …)`. The properties the application
promises are proved as lemmas about those specification functions. They include:

- the exact outcome and store contents for every status code;
- preservation of the unique indexes;
- read-after-create and read-after-delete;
- signup followed by login;
- the one-hour validity of a login token at the gate.

Library code is passed in as values, because its source is not part of this model:

- `Validators` carries express-validator's `isEmail`, `isNumeric` and `isISO8601`, and
  Mongoose's `ObjectId.isValid`, as uninterpreted predicates, together with the driver's
  cast from an id text to the stored identifier.
- `Crypto.Primitives` carries `bcrypt.hash` and `bcrypt.compare`, and `jwt.sign` and
  `jwt.verify` with the process-wide secret.
- The ghost predicate `Crypto.Sound` states what these libraries guarantee. Only the lemmas
  that need it assume it: signup followed by login, and the token lifetime.

Nondeterministic inputs are parameters of the handlers:

- the clock reading `now`, in milliseconds;
- the freshly generated `ObjectId`;
- the bcrypt salt;
- the file name multer generates.

Some consequences of the code that the model keeps as written:

- A PUT keeps the old `updated_at`. Only the pre-save hook refreshes it, and
  `findByIdAndUpdate` does not run that hook.
- A unique-key collision answers 400 only through signup's own existence check. A collision
  that the store's index reports, such as a duplicate employee email on create or update,
  falls into the `catch` and answers 500.
- jsonwebtoken refuses a token from its expiry second on (`now >= exp`). `Crypto.Sound` and
  `UserRoutes.LoginTokenLifetime` state it that way.
- A file that the upload filter rejects reaches Express's default error handler, which
  answers 500.
- PUT runs the trim setters but not the validators. An update can therefore store an empty
  `first_name` (`EmployeeModel.UpdateCanBlankRequired`), so the required fields are proved
  for created records only and are not a collection invariant.
- The id in a URL is cast to an ObjectId before every lookup, so each spelling that casts to
  a stored id (upper-case hexadecimal, for one) finds that record.

## Model

| member | source | states |
|---|---|---|
| Text.Trim | backend/models/Employee.js:8-12 | The `trim: true` setter yields a string with no whitespace at either end, never longer than its input. |
| Text.TrimIsInfix | backend/models/Employee.js:8-12 | The trimmed value is an infix of the input with only whitespace before and after it. |
| Text.TrimOfInfix | backend/models/Employee.js:8-12 | Any trimmed infix surrounded only by whitespace is the trim, so the trim is uniquely determined. |
| Text.TrimIdempotent | backend/models/Employee.js:8-37 | Trimming an already-trimmed value changes nothing. Re-saving a stored record keeps its trimmed fields. |
| Text.Lower | backend/models/User.js:14-20 | `lowercase: true` keeps the length, leaves no upper-case letter and lowers each character in place. |
| Text.LowerTrimCommute | backend/models/User.js:14-20 | Lower-casing and trimming commute, so the order of the email's two setters does not matter. |
| Text.IndexOf | backend/middleware/auth.js:15 | The position of the first separator, with no separator before it. |
| Text.Split | backend/middleware/auth.js:15 | `split` on one character yields at least one piece, and no piece contains the separator. |
| Text.JoinSplit | backend/middleware/auth.js:15 | Joining the pieces with the separator gives back the original string. |
| Text.SecondPiece | backend/middleware/auth.js:15 | Piece `[1]` is the text after the first separator up to the next separator or the end. |
| Crypto.Issue | backend/routes/user.js:117-121 | A token payload carries the claims, `iat` is the current second, and `exp` is exactly 3600 seconds later. |
| AuthMiddleware.BearerToken | backend/middleware/auth.js:8-15 | The token taken from a `Bearer ` header has no space. It starts right after the prefix and is followed by a space or the end. |
| AuthMiddleware.BearerTokenOfHeader | backend/middleware/auth.js:15 | A client header `Bearer <token>`, followed by nothing or by a space and anything, yields exactly `<token>`. |
| AuthMiddleware.BearerTokenExamples | backend/middleware/auth.js:15 | `Bearer a b` yields `a`, and `Bearer ` yields the empty token. |
| AuthMiddleware.Decide | backend/middleware/auth.js:5-27 | Admit exactly when the header starts with `Bearer ` and its token verifies, with the decoded payload. Otherwise deny with the missing-header or the invalid-token message. |
| AuthMiddleware.Request.constructor | backend/middleware/auth.js:6 | A request carries its header and no `user` yet. |
| AuthMiddleware.Authenticate | backend/middleware/auth.js:5-27 | Exactly one of `next()` or a 401 stop. `next` happens iff `Decide` admits, and then `req.user` is the payload. On a stop `req.user` is untouched. |
| EmployeeModel.TrimOpt | backend/models/Employee.js:24-37 | The trim setter on an optional path keeps absence and trims a present value. |
| EmployeeModel.ApplyChanges | backend/routes/employee.js:219-227 | For each of the eight paths: an absent change keeps the old value, and a supplied one is stored, trimmed where the schema trims. Id, timestamps and normalisation are kept. |
| EmployeeModel.ApplyChangesIdempotent | backend/routes/employee.js:219-227 | Applying the same update twice equals applying it once. |
| EmployeeModel.UpdateCanBlankRequired | backend/routes/employee.js:225-227 | A `first_name` of blanks, sent on update, leaves the record without its required name, because update does not run validators. |
| EmployeeModel.EmployeeDocument.constructor | backend/models/Employee.js:3-50 | A new document has trimmed paths, the given `profile_image` (null when absent) and both timestamps at the creation time. |
| EmployeeModel.EmployeeDocument.PreSave | backend/models/Employee.js:52-55 | The hook sets `updated_at` to now and changes no other field. |
| UserModel.NormalizeUsername | backend/models/User.js:8-13 | The username is stored trimmed. |
| UserModel.NormalizeEmail | backend/models/User.js:14-20 | The email is stored trimmed and lower-cased. |
| UserModel.NormalizeEmailIdempotent | backend/models/User.js:14-20 | Normalising a stored email again changes nothing. |
| UserModel.UserDocument.constructor | backend/models/User.js:3-33 | A new user document has a trimmed username, a normalised email, the given password and both timestamps at the creation time. |
| UserModel.UserDocument.PreSave | backend/models/User.js:35-38 | The hook sets `updated_at` to now and changes no other field. |
| EmployeeStore.EmployeeCollection.constructor | backend/models/Employee.js:57 | A new collection is empty and valid. |
| EmployeeStore.EmployeeCollection.Save | backend/routes/employee.js:141 | Validation first, then the hook, then the unique indexes. On success, exactly the document with `updated_at = now` is added. On failure nothing changes. Validity is kept. |
| EmployeeStore.EmployeeCollection.FindByIdAndUpdate | backend/routes/employee.js:225-227 | A missing id changes nothing. An email clash with another record is refused. Otherwise only that record changes, to `ApplyChanges`. |
| EmployeeStore.EmployeeCollection.FindByIdAndDelete | backend/routes/employee.js:262 | Removes exactly that id and returns the removed record, or null when it was absent. |
| UserStore.UserCollection.constructor | backend/models/User.js:40 | A new collection is empty and valid. |
| UserStore.UserCollection.FindOne | backend/routes/user.js:97-99 | `findOne` with `$or` returns null iff no user matches the normalised email or username. Otherwise it returns a stored matching user. |
| UserStore.UserCollection.Save | backend/routes/user.js:54 | Validation first, then the hook, then the `_id`, username and email indexes. On success, exactly the new user is added. On failure nothing changes. Validity is kept. |
| EmployeeRoutes.ImagePath | backend/routes/employee.js:125-127 | The stored path is `/uploads/` followed by the generated file name. |
| EmployeeRoutes.ListReply | backend/routes/employee.js:40-53 | 200 with every stored record. |
| EmployeeRoutes.SearchReply | backend/routes/employee.js:58-82 | 400 iff neither parameter is supplied. Otherwise 200 with exactly the records matching every supplied parameter, case-insensitively (AND). |
| EmployeeRoutes.SearchIgnoresCase | backend/routes/employee.js:71 | `department=it` matches `IT` and does not match `Marketing`. |
| EmployeeRoutes.CreateErrors | backend/routes/employee.js:95-103 | No error iff both names are non-empty, the email is an email, and a supplied salary and date are valid. It also states that the first-name, last-name and email messages appear exactly when their rule fails. |
| EmployeeRoutes.NewRecord | backend/routes/employee.js:125-139 | The created record is normalised and has the fresh id. Names, email, position and department are the supplied text trimmed. Salary and date are as supplied. The image is the upload path or null. Both timestamps are now. |
| EmployeeRoutes.CreateSpec | backend/routes/employee.js:104-155 | 400 iff there are validation errors. 500 iff the body is valid and the insert of the new record would be refused. Both leave the store unchanged. Otherwise 201 adds exactly the new record under a fresh id and returns it. |
| EmployeeRoutes.CreateKeepsUnique | backend/models/Employee.js:8-23 | A created record has every required field and an email nobody else holds, so create keeps emails unique. |
| EmployeeRoutes.GetReply | backend/routes/employee.js:159-188 | 400 iff the id is malformed. 404 iff it is well-formed and casts to no stored id. Otherwise 200 with the record it casts to. |
| EmployeeRoutes.UpdateErrors | backend/routes/employee.js:194-198 | No error iff every supplied email, salary and date is valid. |
| EmployeeRoutes.UpdateData | backend/routes/employee.js:219-223 | The update copies each body field, with `profile_image` replaced by the upload path when a file was sent. |
| EmployeeRoutes.UpdateSpec | backend/routes/employee.js:199-247 | The id check comes before body errors. 404 iff the valid id casts to no stored id. 500 iff the updated record's email is held by another record. None of these changes the store. Otherwise 200 changes only that record, to `ApplyChanges`. |
| EmployeeRoutes.UpdateKeepsUnique | backend/models/Employee.js:18-23 | An update keeps employee emails unique. |
| EmployeeRoutes.SalaryOnlyUpdate | backend/routes/employee.js:218-227 | An update sending only a salary sets the salary and leaves names and email as they were. |
| EmployeeRoutes.DeleteSpec | backend/routes/employee.js:251-277 | 400 for a malformed id, and 404 with no change when it casts to no stored id. Otherwise exactly the record it casts to is removed and 204 carries no body. |
| EmployeeRoutes.DeleteThenGet | backend/routes/employee.js:262-270 | After a successful delete, reading or deleting the same id answers 404. |
| EmployeeRoutes.CreateThenGet | backend/routes/employee.js:141-148 | Reading a record right after its creation, through any id text that casts to its id, returns what the create returned. |
| EmployeeRoutes.CreateEmployee | backend/routes/employee.js:104-155 | The create handler on the collection has exactly the effect `CreateSpec` describes, and keeps the collection valid. |
| EmployeeRoutes.SaveNewEmployee | backend/routes/employee.js:125-154 | After validation: 201 with the new record when the save succeeds, 500 with the store unchanged when it fails. |
| EmployeeRoutes.UpdateEmployee | backend/routes/employee.js:199-247 | The update handler has exactly the effect `UpdateSpec` describes, and keeps the collection valid. |
| EmployeeRoutes.DeleteEmployee | backend/routes/employee.js:251-277 | The delete handler has exactly the effect `DeleteSpec` describes, and keeps the collection valid. |
| EmployeeRoutes.Handle | backend/routes/employee.js:25-37 | The gate runs first: a denial gives 401 with no change. Then the upload filter: a non-image or an over-2-MiB file gives 500 with no change. Otherwise the route's specification applies. |
| Validation.CountedLength | backend/routes/user.js:19-24 | The length `isLength` measures is at most the number of characters. It is equal exactly when the string holds no variation selector. |
| Validation.VariationSelectorNotCounted | backend/routes/user.js:19-20 | `ab` followed by U+FE0F is too short for the three-character minimum, and `abc` is long enough. |
| UserRoutes.SignupErrors | backend/routes/user.js:15-30 | No error iff the username is non-empty with at least 3 characters, the email is an email, and the password has at least 6 characters, counted as `isLength` counts them. A missing username is reported by both of its rules. |
| UserRoutes.NewUser | backend/routes/user.js:47-52 | The stored user has the fresh id, the normalised username and email, the hash as its password and both timestamps at now. |
| UserRoutes.SignupSpec | backend/routes/user.js:26-67 | 400 iff validation fails or a user holds the email or username, without change. 500 iff the body passes both checks and the store would refuse the new user (a required field empty after normalising, or a taken id or key), without change. 201 adds exactly the new user, storing the hash of the password. |
| UserRoutes.SignupKeepsUnique | backend/models/User.js:8-20 | Signup keeps usernames and emails unique. |
| UserRoutes.SignupServerErrorCause | backend/routes/user.js:35-54 | With a fresh id, a signup 500 can only come from a username or email that trims to nothing or an empty hash, never from a unique index. |
| UserRoutes.SignupTwice | backend/routes/user.js:35-43 | Repeating a successful signup answers 400 "User already exists" and stores nothing. |
| UserRoutes.Signup | backend/routes/user.js:26-67 | The signup handler has exactly the effect `SignupSpec` describes, and keeps the collection valid. |
| UserRoutes.SaveNewUser | backend/routes/user.js:47-60 | After the existence check: 201 with the new id when the save succeeds, 500 with the store unchanged when it fails. |
| UserRoutes.LoginErrors | backend/routes/user.js:73-85 | No error iff a present email is an email and the password is non-empty. |
| UserRoutes.LoginVerdict | backend/routes/user.js:108-127 | 200 iff the password matches the stored hash, with a token signed over the user's id and username expiring an hour later. Otherwise 401 "Incorrect password". |
| UserRoutes.Login | backend/routes/user.js:81-134 | Never writes the store. 400 iff there are body errors or neither identifier is given. 404 iff no user matches. Otherwise the verdict for a matching stored user, 401 or 200. |
| UserRoutes.SignupThenLogin | backend/routes/user.js:97-127 | After a successful signup, the same body passes login's checks, only the new user matches, and the password verifies, giving 200 with its token. |
| UserRoutes.LoginTokenLifetime | backend/routes/user.js:117-121 | A login token sent as `Bearer <token>` is admitted with its payload until the hour after the login second has passed, and refused from then on. |
| UserRoutes.SignupThenLoginClient | backend/routes/user.js:13-135 | A client that signs up and then logs in with the same body gets 200 and a token for the new account whenever the signup got 201. |

## Left out

- The frontend (`frontend/src`) and the server bootstrap (`backend/index.js`), which covers CORS, body parsing, static files and the database connection: these are user interface and I/O plumbing.
- Validation.Validators: `isEmail`, `isNumeric`, `isISO8601`, `ObjectId.isValid` and the id cast are uninterpreted, so every property holds whatever they decide. Only `notEmpty`, `isLength` and `.optional()` are modelled concretely.
- Crypto.Primitives: bcrypt and jsonwebtoken are uninterpreted. Salting, one-wayness and signature security are not modelled. `Crypto.Sound` states only the three guarantees the lemmas use.
- Text.Lower: `toLowerCase` is modelled for Basic Latin and Latin-1 letters only. Other scripts are left unchanged.
- EmployeeStore.FieldMatches: the search text is used as a regular expression. It is modelled as case-insensitive substring containment, which is exact only for text without regular-expression metacharacters.
- EmployeeRoutes.ListReply and EmployeeRoutes.SearchReply: `find()` answers a JSON array in the store's natural order. The model answers the matching records as a map from id to record, so the order of the array and its array form are not modelled.
- EmployeeRoutes.SaveErrorMessage and UserRoutes.SaveErrorMessage: the 500 replies carry the store's error text. Its wording is not modelled.
- EmployeeModel.Employee: `salary` and `date_of_joining` keep the validated request text. Mongoose's cast to Number and Date, and the `toDate()` sanitiser, are not modelled.
- Request bodies and search query parameters are modelled as optional strings. A JSON number, array or object in a body field is not modelled, nor is the array or object that a repeated or bracketed query key yields. So the `isString` checks on `position`, `department` and the login `username` always pass.
- EmployeeRoutes.UpdateData: only the eight schema fields of the body are modelled. Other keys a PUT body may carry, such as `_id` or `created_at`, are not.
- EmployeeStore.EmployeeCollection.Valid: it does not include the required fields, because an update can blank them (`EmployeeModel.UpdateCanBlankRequired`).
- EmployeeStore.EmployeeCollection.FindByIdAndUpdate: `updated_at` is not refreshed, because the pre-save hook does not run on this path.
- UserStore.Matches: a lookup value is cast through the schema's setters, and an absent key matches nothing. What Mongoose does with an `undefined` value inside `$or` is library behaviour not visible here and may differ.
- UserStore.UserCollection.FindOne: when several users match, which one is returned is left open.
- Signup's check-then-insert race between concurrent requests: requests are modelled one at a time, and the unique indexes keep the store consistent regardless.
- Each request reads the clock once (`now`). The pre-save hook's `new Date()` is taken to be the same reading as the document's default timestamps.
- Database and file-system faults (the remaining `catch` branches answering 500, including login's) are not modelled.
- Multer's storage: the generated file name (time, random suffix, extension) is a parameter. Multipart parsing errors other than the type and size limits, such as an unexpected field name, are not modelled.
- EmployeeRoutes.Handle: the default error handler's HTML body for a rejected upload is not modelled. Only its 500 status is.
