/**
 * The plugin attached to one form: the baselines stored at attach time,
 * the shared dirty flag, the keyup/change handler, the form-wide scan and
 * the page-unload handler.
 */
module ConfirmDirtyForm {
  import opened Wrappers
  import opened LooseEquality
  import opened Fields
  import opened Dirtiness

  /** The text the unload handler hands to the browser's confirmation prompt. */
  const UnsavedMessage: string := "There is unsaved data on the page."

  class Tracker {
    /** The form's controls in document order, as the user has left them. */
    var fields: seq<Field>
    /** The effective value of each control when the plugin attached; never written again. */
    const baseline: seq<Value>
    /** The shared dirty flag. */
    var flag: bool

    ghost predicate Valid()
      reads this
    {
      Tracked(fields, baseline)
    }

    /** The flag claims no more than the form shows. */
    ghost predicate CacheSound()
      reads this
      requires Valid()
    {
      flag ==> AnyDirty(fields, baseline)
    }

    /** Attaching: store every control's effective value as its baseline; the flag starts false. */
    constructor (form: seq<Field>)
      requires AllWellFormed(form)
      ensures Valid() && CacheSound()
      ensures fields == form && baseline == Baselines(form) && !flag
    {
      var bs: seq<Value> := [];
      var i := 0;
      while i < |form|
        invariant 0 <= i <= |form|
        invariant |bs| == i
        invariant forall j | 0 <= j < i :: bs[j] == ValueByType(form[j])
      {
        bs := bs + [ValueByType(form[i])];
        i := i + 1;
      }
      fields := form;
      baseline := bs;
      flag := false;
    }

    /** The user types into a text control, or a script sets a control's value. */
    method SetValue(i: nat, v: string)
      requires Valid() && i < |fields| && !fields[i].Select?
      modifies this`fields
      ensures Valid()
      ensures fields == old(fields)[i := old(fields)[i].(value := v)]
    {
      fields := fields[i := fields[i].(value := v)];
    }

    /** The user checks or unchecks an input. */
    method SetChecked(i: nat, c: bool)
      requires Valid() && i < |fields| && fields[i].Input?
      modifies this`fields
      ensures Valid()
      ensures fields == old(fields)[i := old(fields)[i].(checked := c)]
    {
      fields := fields[i := fields[i].(checked := c)];
    }

    /** The user picks option `k` of a select list. */
    method SelectIndex(i: nat, k: int)
      requires Valid() && i < |fields| && fields[i].Select? && 0 <= k < |fields[i].options|
      modifies this`fields
      ensures Valid()
      ensures fields == old(fields)[i := old(fields)[i].(selectedIndex := k)]
    {
      fields := fields[i := fields[i].(selectedIndex := k)];
    }

    /**
     * The keyup/change handler of control `i`: the flag becomes exactly that
     * control's dirtiness, true or false, and nothing else changes.
     */
    method OnEvent(i: nat)
      requires Valid() && i < |fields|
      modifies this`flag
      ensures flag == ElementDirty(fields[i], baseline[i])
      ensures Valid() && CacheSound()
    {
      flag := ElementDirty(fields[i], baseline[i]);
    }

    /**
     * isFormDirty: true at once while the flag is set; otherwise scan the
     * controls in document order, stop at the first dirty one and set the
     * flag. `scanned` is the number of controls examined.
     */
    method IsFormDirty() returns (dirty: bool, ghost scanned: nat)
      requires Valid()
      modifies this`flag
      ensures dirty == FormDirtyAnswer(old(flag), fields, baseline)
      ensures flag == dirty
      ensures old(flag) ==> scanned == 0
      ensures !old(flag) ==> scanned == match FirstDirty(fields, baseline)
                                        case Some(k) => k + 1
                                        case None => |fields|
      ensures Valid() && (old(CacheSound()) ==> CacheSound())
      ensures old(CacheSound()) ==> dirty == AnyDirty(fields, baseline)
    {
      if flag {
        return true, 0;
      }
      dirty := false;
      var i := 0;
      while i < |fields|
        invariant 0 <= i <= |fields|
        invariant !flag && !dirty
        invariant forall j | 0 <= j < i :: !ElementDirty(fields[j], baseline[j])
      {
        dirty := ElementDirty(fields[i], baseline[i]);
        if dirty {
          flag := true;
          scanned := i + 1;
          return;
        }
        i := i + 1;
      }
      scanned := |fields|;
    }

    /**
     * The beforeunload handler: the warning text when isFormDirty answers
     * true, nothing otherwise.
     */
    method BeforeUnload() returns (r: Option<string>)
      requires Valid()
      modifies this`flag
      ensures r == if FormDirtyAnswer(old(flag), fields, baseline) then Some(UnsavedMessage) else None
      ensures flag == r.Some?
      ensures Valid() && (old(CacheSound()) ==> CacheSound())
      ensures old(CacheSound()) ==> (r.Some? <==> AnyDirty(fields, baseline))
    {
      ghost var scanned;
      var dirty;
      dirty, scanned := IsFormDirty();
      if dirty == true {
        r := Some(UnsavedMessage);
      } else {
        r := None;
      }
    }
  }

  /** Two checks with nothing in between give the same answer. */
  method CheckTwice(t: Tracker) returns (first: bool, second: bool)
    requires t.Valid()
    modifies t`flag
    ensures first == second == FormDirtyAnswer(old(t.flag), t.fields, t.baseline)
  {
    ghost var n;
    first, n := t.IsFormDirty();
    second, n := t.IsFormDirty();
  }

  /** A form checked right after attaching is clean, whatever it holds. */
  method AttachThenCheck(form: seq<Field>) returns (dirty: bool)
    requires AllWellFormed(form)
    ensures !dirty
  {
    var t := new Tracker(form);
    AttachedFormIsClean(form);
    ghost var n;
    dirty, n := t.IsFormDirty();
  }

  /** One text input holding "abc", left alone: no warning. */
  method UntouchedTextScenario() returns (r: Option<string>)
    ensures r == None
  {
    var t := new Tracker([Input("text", "abc", false)]);
    r := t.BeforeUnload();
  }

  /** The text input changed to "abcd", then a change event: the warning. */
  method EditedTextScenario() returns (r: Option<string>)
    ensures r == Some(UnsavedMessage)
  {
    var t := new Tracker([Input("text", "abc", false)]);
    t.SetValue(0, "abcd");
    t.OnEvent(0);
    r := t.BeforeUnload();
  }

  /** An unchecked checkbox with the default value "on" checked by the user: the warning. */
  method CheckedBoxScenario() returns (r: Option<string>)
    ensures r == Some(UnsavedMessage)
  {
    var t := new Tracker([Input("checkbox", "on", false)]);
    t.SetChecked(0, true);
    NotZeroLikeOn();
    t.OnEvent(0);
    r := t.BeforeUnload();
  }

  /** An unchecked checkbox with value "0" checked by the user: no warning, since `false != "0"` is false. */
  method CheckedZeroBoxScenario() returns (r: Option<string>)
    ensures r == None
  {
    var t := new Tracker([Input("checkbox", "0", false)]);
    t.SetChecked(0, true);
    ZeroLikeEmptyAndZero();
    t.OnEvent(0);
    r := t.BeforeUnload();
  }

  /** A select list whose selected option "A" is selected again: no warning. */
  method ReselectScenario() returns (r: Option<string>)
    ensures r == None
  {
    var t := new Tracker([Select(["A", "B"], 0)]);
    t.SelectIndex(0, 0);
    t.OnEvent(0);
    r := t.BeforeUnload();
  }

  /** Edited, event, edited back, event: the second event clears the flag and there is no warning. */
  method EditThenRevertScenario() returns (r: Option<string>)
    ensures r == None
  {
    var t := new Tracker([Input("text", "abc", false)]);
    t.SetValue(0, "abcd");
    t.OnEvent(0);
    t.SetValue(0, "abc");
    t.OnEvent(0);
    r := t.BeforeUnload();
  }

  /**
   * Once a check has set the flag, reverting the control without an event
   * leaves a warning although no control is dirty any more.
   */
  method StaleFlagScenario() returns (first: Option<string>, second: Option<string>, ghost dirtyNow: bool)
    ensures first == second == Some(UnsavedMessage)
    ensures !dirtyNow
  {
    var t := new Tracker([Input("text", "abc", false)]);
    t.SetValue(0, "abcd");
    first := t.BeforeUnload();
    t.SetValue(0, "abc");
    second := t.BeforeUnload();
    dirtyNow := AnyDirty(t.fields, t.baseline);
  }
}
