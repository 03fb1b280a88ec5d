/** Request-body validation as express-validator performs it: each chain checks one
    field, every failing validator contributes one error, and the errors of all chains
    are reported together, in the order the chains are declared. */
module Validation {
  import opened Common

  /** The checks the back end takes from libraries (validator.js through express-validator,
      and the identifier check of the document store driver). They are left uninterpreted:
      every property proved here holds whatever they decide. `castObjectId` is the driver's
      cast of an id text that `isObjectId` accepts to the stored identifier: several
      spellings (upper-case hexadecimal, a 12-character string) name the same record. */
  datatype Validators = Validators(
    isEmail: string -> bool,
    isNumeric: string -> bool,
    isISO8601: string -> bool,
    isObjectId: string -> bool,
    castObjectId: string -> Id)

  /** express-validator checks a missing field as if it were the empty string. */
  function ValueOf(v: Option<string>): string
  {
    if v.Some? then v.value else ""
  }

  /** `.notEmpty()` */
  predicate NotEmpty(v: Option<string>)
  {
    ValueOf(v) != ""
  }

  /** The variation selectors U+FE0E and U+FE0F, which `isLength` leaves out of the count. */
  predicate IsVariationSelector(c: char)
  {
    c == '\U{FE0E}' || c == '\U{FE0F}'
  }

  /** The length `isLength` measures. A string here is a sequence of code points, so a
      surrogate pair already counts as one character; the variation selectors count as none. */
  function CountedLength(s: string): (n: nat)
    ensures n <= |s|
    ensures n == |s| <==> forall i :: 0 <= i < |s| ==> !IsVariationSelector(s[i])
  {
    if s == [] then 0
    else (if IsVariationSelector(s[0]) then 0 else 1) + CountedLength(s[1..])
  }

  /** `.isLength({ min: n })` */
  predicate MinLength(v: Option<string>, n: nat)
  {
    CountedLength(ValueOf(v)) >= n
  }

  /** Two letters followed by a variation selector are two characters long for `isLength`. */
  lemma VariationSelectorNotCounted()
    ensures !MinLength(Some("ab\U{FE0F}"), 3)
    ensures MinLength(Some("abc"), 3)
  {
    assert "ab\U{FE0F}"[1..] == "b\U{FE0F}";
    assert "b\U{FE0F}"[1..] == "\U{FE0F}";
    assert "\U{FE0F}"[1..] == "";
    assert "abc"[1..] == "bc";
    assert "bc"[1..] == "c";
    assert "c"[1..] == "";
  }

  /** The message express-validator reports for a validator without `.withMessage`. */
  const DefaultMessage := "Invalid value"

  /** One validator of a chain: no error when its check holds, otherwise one error
      naming the field. */
  function Check(field: string, holds: bool, msg: string): seq<FieldError>
  {
    if holds then [] else [FieldError(field, msg)]
  }

  /** A validator after `.optional()`: a field that is absent is not checked. */
  function CheckIfPresent(field: string, v: Option<string>, test: string -> bool, msg: string): seq<FieldError>
  {
    if v.None? then [] else Check(field, test(v.value), msg)
  }
}
