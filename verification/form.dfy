/**
 The generation-request form: editing one field, and the required-field check
 the submit handler runs before anything else.
 */
module Form {
  import opened Types
  import Text

  const EmptyRequest := Request("", "", "", "")

  /** The value of a named field (`formData[field]`). */
  function FieldValue(r: Request, f: Field): string {
    match f
    case StoryTitle => r.storyTitle
    case AcceptanceCriteria => r.acceptanceCriteria
    case Description => r.description
    case AdditionalInfo => r.additionalInfo
  }

  /** Two requests that agree on every field are the same request. */
  lemma FieldsDetermineRequest(a: Request, b: Request)
    requires forall f :: FieldValue(a, f) == FieldValue(b, f)
    ensures a == b
  {
    assert FieldValue(a, StoryTitle) == FieldValue(b, StoryTitle);
    assert FieldValue(a, AcceptanceCriteria) == FieldValue(b, AcceptanceCriteria);
    assert FieldValue(a, Description) == FieldValue(b, Description);
    assert FieldValue(a, AdditionalInfo) == FieldValue(b, AdditionalInfo);
  }

  /** `handleInputChange(field, value)`: overwrite one field, keep the others. */
  function EditField(r: Request, f: Field, v: string): (r': Request)
    ensures FieldValue(r', f) == v
    ensures forall g :: g != f ==> FieldValue(r', g) == FieldValue(r, g)
  {
    match f
    case StoryTitle => r.(storyTitle := v)
    case AcceptanceCriteria => r.(acceptanceCriteria := v)
    case Description => r.(description := v)
    case AdditionalInfo => r.(additionalInfo := v)
  }

  /** The contract of `EditField` leaves no freedom: any request that holds
      `v` in field `f` and agrees with `r` elsewhere is the edited request. */
  lemma EditFieldDetermined(r: Request, f: Field, v: string, r': Request)
    requires FieldValue(r', f) == v
    requires forall g :: g != f ==> FieldValue(r', g) == FieldValue(r, g)
    ensures r' == EditField(r, f, v)
  {
    FieldsDetermineRequest(r', EditField(r, f, v));
  }

  /** Editing a field twice keeps only the second value. */
  lemma EditFieldLastWins(r: Request, f: Field, v: string, w: string)
    ensures EditField(EditField(r, f, v), f, w) == EditField(r, f, w)
  {
  }

  /** Writing back a field's current value changes nothing. */
  lemma EditFieldSameValue(r: Request, f: Field)
    ensures EditField(r, f, FieldValue(r, f)) == r
  {
  }

  /** Edits to two different fields do not interfere. */
  lemma EditFieldsCommute(r: Request, f: Field, v: string, g: Field, w: string)
    requires f != g
    ensures EditField(EditField(r, f, v), g, w) == EditField(EditField(r, g, w), f, v)
  {
  }

  /** The submit handler's guard: the title or the acceptance criteria trims
      to the empty string. */
  predicate MissingRequired(r: Request) {
    Text.Trim(r.storyTitle) == [] || Text.Trim(r.acceptanceCriteria) == []
  }

  /** The guard rejects exactly the requests whose title or acceptance
      criteria consist of whitespace only (or nothing); the other two fields
      play no part. */
  lemma MissingRequiredIffBlank(r: Request)
    ensures MissingRequired(r) <==> Text.IsBlank(r.storyTitle) || Text.IsBlank(r.acceptanceCriteria)
  {
  }
}
