/**
 * The conditional setters the services' update operations share: a text
 * field is replaced only by a non-blank input, trimmed; any other field only
 * by a given value.
 */
module Setters {
  import opened Wrappers
  import opened ValidationUtils

  /** `if (isNotEmpty(input)) set(sanitize(input))`. */
  function TextUpdate(current: Option<string>, input: Option<string>): (r: Option<string>)
    ensures r != current ==> IsNotEmpty(input) && r == Sanitize(input)
    ensures IsNotEmpty(input) ==> r.Some? && r.value == Trim(input.value) && r.value != []
  {
    if IsNotEmpty(input) then Sanitize(input) else current
  }

  /** `if (input != null) set(input)`. */
  function ValueUpdate<T>(current: Option<T>, input: Option<T>): (r: Option<T>)
    ensures r != current ==> input.Some? && r == input
    ensures input.Some? ==> r == input
  {
    if input.Some? then input else current
  }

  /** Setting a field twice with the same input is setting it once. */
  lemma TextUpdateIdempotent(current: Option<string>, input: Option<string>)
    ensures TextUpdate(TextUpdate(current, input), input) == TextUpdate(current, input)
  {
  }
}
