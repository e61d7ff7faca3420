/**
 * Dirtiness as pure functions of the controls and their stored baselines:
 * the baseline of every control, whether one control is dirty, and the
 * scan over a whole form in document order.
 */
module Dirtiness {
  import opened Wrappers
  import opened LooseEquality
  import opened Fields

  /** isElementDirty: the control's effective value loosely differs from its baseline. */
  predicate ElementDirty(f: Field, baseline: Value)
    requires WellFormed(f)
    ensures ValueByType(f) == baseline ==> !ElementDirty(f, baseline)
  {
    LooselyDiffersIrreflexive(baseline);
    LooselyDiffers(ValueByType(f), baseline)
  }

  /** The baselines the attach loop stores: the effective value of each control, in order. */
  function Baselines(fs: seq<Field>): (bs: seq<Value>)
    requires AllWellFormed(fs)
    ensures |bs| == |fs|
    ensures forall i | 0 <= i < |fs| :: bs[i] == ValueByType(fs[i])
  {
    if |fs| == 0 then [] else Baselines(fs[..|fs| - 1]) + [ValueByType(fs[|fs| - 1])]
  }

  /** Controls and baselines that belong together: one baseline per readable control. */
  predicate Tracked(fs: seq<Field>, bs: seq<Value>) {
    |fs| == |bs| && AllWellFormed(fs)
  }

  /** Some control of the form is dirty. */
  predicate AnyDirty(fs: seq<Field>, bs: seq<Value>)
    requires Tracked(fs, bs)
  {
    exists i | 0 <= i < |fs| :: ElementDirty(fs[i], bs[i])
  }

  /** The first dirty control at or after position `from`, in document order. */
  function FirstDirtyFrom(fs: seq<Field>, bs: seq<Value>, from: nat): (r: Option<nat>)
    requires Tracked(fs, bs) && from <= |fs|
    ensures r.Some? ==> from <= r.value < |fs| && ElementDirty(fs[r.value], bs[r.value])
    ensures r.Some? ==> forall j | from <= j < r.value :: !ElementDirty(fs[j], bs[j])
    ensures r.None? ==> forall j | from <= j < |fs| :: !ElementDirty(fs[j], bs[j])
    decreases |fs| - from
  {
    if from == |fs| then None
    else if ElementDirty(fs[from], bs[from]) then Some(from)
    else FirstDirtyFrom(fs, bs, from + 1)
  }

  /** The first dirty control of the whole form, if any. */
  function FirstDirty(fs: seq<Field>, bs: seq<Value>): (r: Option<nat>)
    requires Tracked(fs, bs)
    ensures r.Some? <==> AnyDirty(fs, bs)
    ensures r.Some? ==> r.value < |fs| && ElementDirty(fs[r.value], bs[r.value])
    ensures r.Some? ==> forall j | 0 <= j < r.value :: !ElementDirty(fs[j], bs[j])
  {
    FirstDirtyFrom(fs, bs, 0)
  }

  /**
   * isFormDirty's answer: true at once while the cached flag is set,
   * otherwise whether some control is dirty.
   */
  predicate FormDirtyAnswer(flag: bool, fs: seq<Field>, bs: seq<Value>)
    requires Tracked(fs, bs)
    ensures FormDirtyAnswer(flag, fs, bs) <==> flag || FirstDirty(fs, bs).Some?
  {
    flag || AnyDirty(fs, bs)
  }

  /** Right after attaching, no control differs from its baseline and the form is clean. */
  lemma AttachedFormIsClean(fs: seq<Field>)
    requires AllWellFormed(fs)
    ensures Tracked(fs, Baselines(fs))
    ensures forall i | 0 <= i < |fs| :: !ElementDirty(fs[i], Baselines(fs)[i])
    ensures !AnyDirty(fs, Baselines(fs))
  {
    var bs := Baselines(fs);
    forall i | 0 <= i < |fs| ensures !ElementDirty(fs[i], bs[i]) {
      LooselyDiffersIrreflexive(bs[i]);
    }
  }

  /** A text-like input or a textarea: text that is not a radio button or a checkbox. */
  predicate IsTextLike(f: Field) {
    f.TextArea? || (f.Input? && !IsCheckable(f))
  }

  /** A text control is dirty exactly when its text differs from the text at attach time. */
  lemma TextDirtyIff(before: Field, now: Field)
    requires IsTextLike(before) && IsTextLike(now)
    ensures ElementDirty(now, ValueByType(before)) <==> now.value != before.value
  {
  }

  /** A select list is dirty exactly when the selected option's value differs from the one selected at attach time. */
  lemma SelectDirtyIff(before: Field, now: Field)
    requires before.Select? && now.Select? && WellFormed(before) && WellFormed(now)
    ensures ElementDirty(now, ValueByType(before)) <==>
            now.options[now.selectedIndex] != before.options[before.selectedIndex]
  {
  }

  /**
   * A radio button or checkbox: two checked states are dirty when the values
   * differ, two unchecked states never are, and a change of checked state is
   * dirty only when the value of the checked side is not zero-like.
   */
  lemma BoxDirtyIff(before: Field, now: Field)
    requires IsCheckable(before) && IsCheckable(now)
    ensures before.checked && now.checked ==>
              (ElementDirty(now, ValueByType(before)) <==> now.value != before.value)
    ensures !before.checked && !now.checked ==> !ElementDirty(now, ValueByType(before))
    ensures !before.checked && now.checked ==>
              (ElementDirty(now, ValueByType(before)) <==> !ZeroLike(now.value))
    ensures before.checked && !now.checked ==>
              (ElementDirty(now, ValueByType(before)) <==> !ZeroLike(before.value))
  {
  }

  /** Checking a checkbox whose value is "0", or whose value is empty, does not make it dirty. */
  lemma CheckingZeroValuedBoxIsClean(v: string)
    requires v == "0" || v == ""
    ensures !ElementDirty(Input("checkbox", v, true), ValueByType(Input("checkbox", v, false)))
  {
    ZeroLikeEmptyAndZero();
  }

  /** A checkbox with an ordinary value such as "1" is dirty once its checked state changes. */
  lemma TogglingOrdinaryBoxIsDirty(checkedBefore: bool)
    ensures ElementDirty(Input("checkbox", "1", !checkedBefore), ValueByType(Input("checkbox", "1", checkedBefore)))
  {
    NotZeroLikeOne();
  }
}
