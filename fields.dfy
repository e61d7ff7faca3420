/**
 * The form controls the plugin tracks (the tags `input`, `select` and
 * `textarea`) and the effective value of each.
 */
module Fields {
  import opened LooseEquality

  /**
   * One form control. An `input` keeps its `type` attribute, its value and
   * its checked state; a `select` keeps the values of its options and the
   * index of the selected one; a `textarea` keeps its value.
   */
  datatype Field =
    | Input(inputType: string, value: string, checked: bool)
    | Select(options: seq<string>, selectedIndex: int)
    | TextArea(value: string)

  /** An input whose value counts only while it is checked. */
  predicate IsCheckable(f: Field) {
    f.Input? && (f.inputType == "radio" || f.inputType == "checkbox")
  }

  /**
   * A control whose effective value can be read: a select list must have an
   * option selected, or reading the option's value throws.
   */
  predicate WellFormed(f: Field) {
    f.Select? ==> 0 <= f.selectedIndex < |f.options|
  }

  predicate AllWellFormed(fs: seq<Field>) {
    forall i | 0 <= i < |fs| :: WellFormed(fs[i])
  }

  /**
   * getValueByType: the value of a text-like input or a textarea, the value
   * of a checked radio button or checkbox and `false` for an unchecked one,
   * the value of the selected option of a select list.
   */
  function ValueByType(f: Field): (r: Value)
    requires WellFormed(f)
    ensures r == NoValue <==> IsCheckable(f) && !f.checked
    ensures r.Str? && !f.Select? ==> r.s == f.value
    ensures r.Str? && f.Select? ==> r.s == f.options[f.selectedIndex]
  {
    match f
    case Input(t, v, c) =>
      if t == "radio" || t == "checkbox" then (if c then Str(v) else NoValue) else Str(v)
    case Select(opts, k) => Str(opts[k])
    case TextArea(v) => Str(v)
  }
}
