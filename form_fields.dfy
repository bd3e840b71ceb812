/**
 * What the Landing wizards share: form data as an object from field names to
 * values, JavaScript truthiness of those values, and the `step<n>` key that
 * marks a step whose Next was refused.
 */
module FormFields {
  import opened Text

  /** A form value: the text of an input or the state of a checkbox. */
  datatype Value = Text(text: string) | Flag(checked: bool)

  /** JavaScript truthiness: a non-empty string or `true`; a missing key is `undefined`, which is falsy. */
  predicate Truthy(form: map<string, Value>, key: string) {
    key in form && match form[key] case Text(t) => t != [] case Flag(b) => b
  }

  /** The key `step${step}` recorded in `touched`. */
  function StepKey(step: nat): (k: string)
    ensures |k| > 4 && k[..4] == "step"
  {
    "step" + NatText(step)
  }
}
