/** Required-field validation shared by both POST operations:
    `requiredFields.filter(field => !body[field])`. */
module Validation {
  import opened Json
  import opened Seqs

  /** `!body[field]`: the property is undefined or falsy. */
  function Absent(body: Body): string -> bool {
    field => !Given(body, field)
  }

  /** Every field of `fields` is given. */
  predicate GivesAll(body: Body, fields: seq<string>) {
    forall i :: 0 <= i < |fields| ==> Given(body, fields[i])
  }

  /** The required fields the body leaves out, in the order of `required`. */
  function MissingRequired(required: seq<string>, body: Body): (missing: seq<string>)
    ensures forall i :: 0 <= i < |missing| ==> missing[i] in required && !Given(body, missing[i])
  {
    FilterMembers(required, Absent(body));
    Filter(required, Absent(body))
  }

  /** A required field is reported exactly when the body does not give it, and
      only required fields are reported. */
  lemma MissingFieldsExact(required: seq<string>, body: Body)
    ensures forall i :: 0 <= i < |required| ==>
              (required[i] in MissingRequired(required, body) <==> !Given(body, required[i]))
    ensures forall i :: 0 <= i < |MissingRequired(required, body)| ==>
              MissingRequired(required, body)[i] in required
              && !Given(body, MissingRequired(required, body)[i])
  {
    FilterMembers(required, Absent(body));
  }

  /** The missing fields are listed in the order of the required list. */
  lemma MissingFieldsInOrder(required: seq<string>, body: Body)
    ensures IsSubsequence(MissingRequired(required, body), required)
  {
    FilterIsSubsequence(required, Absent(body));
  }

  /** Validation passes, with nothing to report, exactly when every required field
      is given. */
  lemma {:induction false} NoneMissing(required: seq<string>, body: Body)
    ensures MissingRequired(required, body) == [] <==> GivesAll(body, required)
  {
    MissingFieldsExact(required, body);
    if GivesAll(body, required) {
      FilterDropsAll(required, Absent(body));
    }
  }
}
