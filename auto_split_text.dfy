/** The two-field text-splitting control: a primary field (field 1) whose length is capped
    by a configurable limit, and an overflow field (field 2) with a fixed ceiling of 4000
    characters that receives the tail of field 1 each time field 1 reaches its limit.

    The pure part of the module gives the behaviour as functions on a `Snapshot` of the
    control's state and proves its properties; the class `AutoSplitTextControl` holds that
    state in fields and its methods are specified by those functions. */
module AutoSplitText {
  import opened JsStrings

  /** The absolute ceiling of field 1's limit. */
  const MaxLengthCeiling: nat := 4000

  /** The fixed limit of field 2 (`_field2MaxLength`). */
  const Field2MaxLength: nat := 4000

  // ---------------------------------------------------------------------------
  // Length policy
  // ---------------------------------------------------------------------------

  /** Effective limit of field 1 from the host's optional `maxLength`: the default 4000
      when the value is missing, NaN (both `None`), zero or negative; otherwise the value
      capped at 4000. */
  function ResolveMaxLength(raw: Option<int>): (m: nat)
    ensures 1 <= m <= MaxLengthCeiling
    ensures raw.None? || raw.value <= 0 ==> m == MaxLengthCeiling
    ensures raw.Some? && 0 < raw.value ==> m == Min(raw.value, MaxLengthCeiling)
  {
    if raw.Some? && raw.value > 0 then Min(raw.value, MaxLengthCeiling) else MaxLengthCeiling
  }

  /** A configured limit is taken as it is exactly when it lies in 1..4000. */
  lemma ResolveMaxLengthKeeps(raw: Option<int>)
    ensures ResolveMaxLength(raw) == (if raw.Some? then raw.value else 0)
        <==> raw.Some? && 1 <= raw.value <= MaxLengthCeiling
  {
  }

  // ---------------------------------------------------------------------------
  // Split engine: the branch of `onInput` on the two displayed texts
  // ---------------------------------------------------------------------------

  datatype SplitResult = SplitResult(field1: string, field2: string, overflowed: bool)

  /** What `onInput` does to the two displayed texts under the limit `maxLength`. A field 1
      of `maxLength` characters or more overflows (the test is `>=`, so a field 1 of exactly
      `maxLength` characters overflows with an empty excess): the characters past the limit
      are put in front of field 2 and the result is cut to field 2's ceiling. */
  function Split(field1: string, field2: string, maxLength: nat): (r: SplitResult)
    ensures r.overflowed <==> |field1| >= maxLength
    ensures |r.field1| <= maxLength && r.field1 <= field1
    ensures r.overflowed ==> |r.field2| <= Field2MaxLength
    ensures !r.overflowed ==> r.field1 == field1 && r.field2 == field2
  {
    if |field1| >= maxLength then
      var excess := Drop(field1, maxLength);
      SplitResult(Take(field1, maxLength), Take(excess + field2, Field2MaxLength), true)
    else
      SplitResult(field1, field2, false)
  }

  /** In both branches field 1 ends up as its first `maxLength` characters; field 2 gains
      the excess in front exactly when field 1 overflowed. */
  lemma SplitMovesTail(field1: string, field2: string, maxLength: nat)
    ensures var r := Split(field1, field2, maxLength);
      r.field1 == Take(field1, maxLength) &&
      r.field2 == (if r.overflowed
                   then Take(Drop(field1, maxLength) + field2, Field2MaxLength)
                   else field2)
  {
    if |field1| <= maxLength {
      TakeFits(field1, maxLength);
    }
  }

  /** Text is moved, never reordered: the new field 1 followed by the new field 2 is a
      prefix of the old field 1 followed by the old field 2, and the whole of it exactly
      when nothing is cut from field 2, that is when there was no overflow or the excess
      and the old field 2 together fit in 4000 characters. */
  lemma SplitConserves(field1: string, field2: string, maxLength: nat)
    ensures var r := Split(field1, field2, maxLength);
      r.field1 + r.field2 <= field1 + field2 &&
      ((r.field1 + r.field2 == field1 + field2)
         <==> (!r.overflowed || |Drop(field1, maxLength)| + |field2| <= Field2MaxLength))
  {
    var r := Split(field1, field2, maxLength);
    if r.overflowed {
      var excess := Drop(field1, maxLength);
      var moved := Take(excess + field2, Field2MaxLength);
      assert r.field1 + excess == field1;
      PrefixExtend(r.field1, moved, excess + field2);
      assert r.field1 + (excess + field2) == field1 + field2;
      if |Drop(field1, maxLength)| + |field2| <= Field2MaxLength {
        TakeFits(excess + field2, Field2MaxLength);
      } else {
        assert |r.field1 + r.field2| < |field1 + field2|;
      }
    }
  }

  /** A prefix stays a prefix when the same text is put in front of both sides. */
  lemma PrefixExtend(a: string, b: string, c: string)
    requires b <= c
    ensures a + b <= a + c
  {
    assert (a + c)[..|a + b|] == a + c[..|b|];
  }

  /** Running the split again on its own result changes neither text, and takes the same
      branch: after an overflow field 1 holds exactly `maxLength` characters, so the
      overflow branch runs again, with an empty excess and a field 2 that already fits. */
  lemma SplitFixedPoint(field1: string, field2: string, maxLength: nat)
    ensures var r := Split(field1, field2, maxLength);
      var r2 := Split(r.field1, r.field2, maxLength);
      r2 == r
  {
    var r := Split(field1, field2, maxLength);
    if r.overflowed {
      assert |r.field1| == maxLength;
      assert Drop(r.field1, maxLength) == "";
      assert "" + r.field2 == r.field2;
      TakeFits(r.field2, Field2MaxLength);
      TakeFits(r.field1, maxLength);
    }
  }

  // ---------------------------------------------------------------------------
  // The control's state and its transitions
  // ---------------------------------------------------------------------------

  /** The control's state without the DOM: the displayed texts of the two textareas, the
      stored values reported to the host, the effective limit of field 1, the
      "limit reached" marker on field 1 and the number of change notifications sent. */
  datatype Snapshot = Snapshot(
    field1Text: string,
    field2Text: string,
    field1Value: string,
    field2Value: string,
    field1MaxLength: nat,
    limitReached: bool,
    notifyCount: nat)

  /** What every transition keeps: a limit in 1..4000 and stored values within 4000
      characters. (The stored field 1 is not kept within the current limit: see
      `RefreshLeavesStaleValue`.) */
  ghost predicate Invariant(s: Snapshot) {
    1 <= s.field1MaxLength <= MaxLengthCeiling &&
    |s.field1Value| <= MaxLengthCeiling &&
    |s.field2Value| <= Field2MaxLength
  }

  /** `init`, without the DOM: the limit is resolved, each textarea is seeded with its host
      value (or "") cut to its limit, and the stored values are copied from the textareas.
      This is the specification of the constructor `AutoSplitTextControl.Init`. */
  function InitState(rawMaxLength: Option<int>, host1: Option<string>, host2: Option<string>): (s': Snapshot)
  {
    var m := ResolveMaxLength(rawMaxLength);
    var t1 := Take(OrEmpty(host1), m);
    var t2 := Take(OrEmpty(host2), Field2MaxLength);
    Snapshot(t1, t2, t1, t2, m, false, 0)
  }

  lemma InitStateSeeds(rawMaxLength: Option<int>, host1: Option<string>, host2: Option<string>)
    ensures var s := InitState(rawMaxLength, host1, host2);
      Invariant(s) &&
      s.field1MaxLength == ResolveMaxLength(rawMaxLength) &&
      s.field1Text <= OrEmpty(host1) && |s.field1Text| == Min(|OrEmpty(host1)|, s.field1MaxLength) &&
      s.field2Text <= OrEmpty(host2) && |s.field2Text| == Min(|OrEmpty(host2)|, Field2MaxLength) &&
      s.field1Value == s.field1Text && s.field2Value == s.field2Text &&
      !s.limitReached && s.notifyCount == 0
  {
  }

  /** `onInput`, the handler of both textareas: split the current texts, copy the (cut)
      texts into the stored values and notify the host once. This is the specification of
      the method `AutoSplitTextControl.OnInput`. */
  function InputStep(s: Snapshot): (s': Snapshot)
  {
    var m := s.field1MaxLength;
    var r := Split(s.field1Text, s.field2Text, m);
    Snapshot(r.field1, r.field2, Take(r.field1, m), Take(r.field2, Field2MaxLength),
             m, r.overflowed, s.notifyCount + 1)
  }

  /** After `onInput` field 1 (displayed and stored) is within the limit, the stored field 2
      within 4000, and the displayed field 2 too when it overflowed or already fitted; the
      stored field 1 equals the displayed one; the limit is unchanged and the host is
      notified exactly once. */
  lemma InputStepBounds(s: Snapshot)
    ensures var t := InputStep(s);
      |t.field1Text| <= t.field1MaxLength && |t.field1Value| <= t.field1MaxLength &&
      |t.field2Value| <= Field2MaxLength &&
      (t.limitReached || |s.field2Text| <= Field2MaxLength ==> |t.field2Text| <= Field2MaxLength) &&
      t.field1Value == t.field1Text &&
      (|t.field2Text| <= Field2MaxLength ==> t.field2Value == t.field2Text) &&
      t.field1MaxLength == s.field1MaxLength && t.notifyCount == s.notifyCount + 1
  {
    var t := InputStep(s);
    TakeFits(t.field1Text, t.field1MaxLength);
    if |t.field2Text| <= Field2MaxLength {
      TakeFits(t.field2Text, Field2MaxLength);
    }
  }

  /** The marker is set exactly when field 1 reached its limit; otherwise it is cleared and
      field 1 is left as it was. */
  lemma InputStepMarker(s: Snapshot)
    ensures var t := InputStep(s);
      (t.limitReached <==> |s.field1Text| >= s.field1MaxLength) &&
      (!t.limitReached ==> t.field1Text == s.field1Text && t.field2Text == s.field2Text)
  {
  }

  /** The stored values after `onInput` are a prefix of the old displayed texts joined, and
      all of them exactly when the excess and the old field 2 together fit in 4000
      characters; in that case no character is lost or gained. */
  lemma InputStepConserves(s: Snapshot)
    ensures var t := InputStep(s);
      var before := s.field1Text + s.field2Text;
      t.field1Value + t.field2Value <= before &&
      ((t.field1Value + t.field2Value == before)
         <==> |Drop(s.field1Text, s.field1MaxLength)| + |s.field2Text| <= Field2MaxLength) &&
      (t.field1Value + t.field2Value == before ==>
        multiset(t.field1Value + t.field2Value) == multiset(before))
  {
    var m := s.field1MaxLength;
    var t := InputStep(s);
    var r := Split(s.field1Text, s.field2Text, m);
    SplitConserves(s.field1Text, s.field2Text, m);
    TakeFits(r.field1, m);
    assert t.field1Value == r.field1;
    var cut := Take(r.field2, Field2MaxLength);
    PrefixExtend(r.field1, cut, r.field2);
    if r.overflowed {
      TakeFits(r.field2, Field2MaxLength);
    } else if |s.field2Text| > Field2MaxLength {
      assert |t.field1Value + t.field2Value| < |s.field1Text + s.field2Text|;
    } else {
      TakeFits(r.field2, Field2MaxLength);
    }
  }

  /** A second `onInput` on the result of the first changes neither the texts, nor the
      stored values, nor the marker (it only notifies the host again). */
  lemma InputStepFixedPoint(s: Snapshot)
    ensures var t := InputStep(s);
      InputStep(t) == t.(notifyCount := t.notifyCount + 1)
  {
    var t := InputStep(s);
    SplitFixedPoint(s.field1Text, s.field2Text, s.field1MaxLength);
    InputStepBounds(s);
    var r := Split(t.field1Text, t.field2Text, t.field1MaxLength);
    assert r.field1 == t.field1Text && r.field2 == t.field2Text;
    TakeFits(t.field1Text, t.field1MaxLength);
    if r.overflowed {
      TakeFits(t.field2Text, Field2MaxLength);
    } else {
      assert t.field2Value == Take(t.field2Text, Field2MaxLength);
      TakeTwice(s.field2Text, Field2MaxLength);
    }
  }

  /** An input that leaves field 1 exactly at its limit keeps the marker set on the next
      input: re-applying the split to a settled pair takes the overflow branch again. */
  lemma InputStepSettledStillOverflows(s: Snapshot)
    requires InputStep(s).limitReached
    ensures InputStep(InputStep(s)).limitReached
    ensures |InputStep(s).field1Text| == s.field1MaxLength
  {
  }

  /** `updateView`: resolve the limit again and, when it changed, cut the displayed field 1
      to it (the stored field 1 is left alone); then, for each field whose host value
      differs from the stored value, overwrite both the displayed text and the stored value
      with the host value (or "") cut to the field's limit. No notification is sent. This is
      the specification of the method `AutoSplitTextControl.UpdateView`. */
  function RefreshStep(s: Snapshot, rawMaxLength: Option<int>, host1: Option<string>, host2: Option<string>): (s': Snapshot)
  {
    var m := ResolveMaxLength(rawMaxLength);
    var t1 := if m != s.field1MaxLength then Take(s.field1Text, m) else s.field1Text;
    var diverged1 := host1 != Some(s.field1Value);
    var diverged2 := host2 != Some(s.field2Value);
    var t1' := if diverged1 then Take(OrEmpty(host1), m) else t1;
    var t2' := if diverged2 then Take(OrEmpty(host2), Field2MaxLength) else s.field2Text;
    Snapshot(t1', t2',
             if diverged1 then t1' else s.field1Value,
             if diverged2 then t2' else s.field2Value,
             m, s.limitReached, s.notifyCount)
  }

  /** Host wins on divergence: a host value that differs from the stored one replaces the
      displayed text and the stored value, cut to the field's limit; a host value equal to
      the stored one leaves the stored value alone. The marker and the notification count
      never change, and the invariant is kept. */
  lemma RefreshHostWins(s: Snapshot, rawMaxLength: Option<int>, host1: Option<string>, host2: Option<string>)
    requires Invariant(s)
    ensures var t := RefreshStep(s, rawMaxLength, host1, host2);
      Invariant(t) &&
      t.field1MaxLength == ResolveMaxLength(rawMaxLength) &&
      (host1 != Some(s.field1Value) ==>
        t.field1Value == t.field1Text && t.field1Text <= OrEmpty(host1) &&
        |t.field1Text| == Min(|OrEmpty(host1)|, t.field1MaxLength)) &&
      (host1 == Some(s.field1Value) ==> t.field1Value == s.field1Value) &&
      (host2 != Some(s.field2Value) ==>
        t.field2Value == t.field2Text && t.field2Text <= OrEmpty(host2) &&
        |t.field2Text| == Min(|OrEmpty(host2)|, Field2MaxLength)) &&
      (host2 == Some(s.field2Value) ==> t.field2Value == s.field2Value && t.field2Text == s.field2Text) &&
      (host1 == Some(s.field1Value) ==>
        t.field1Text == if t.field1MaxLength != s.field1MaxLength
                        then Take(s.field1Text, t.field1MaxLength) else s.field1Text) &&
      t.limitReached == s.limitReached && t.notifyCount == s.notifyCount
  {
  }

  /** A refresh that brings the same limit and the stored values changes nothing. */
  lemma RefreshUnchanged(s: Snapshot, rawMaxLength: Option<int>)
    requires ResolveMaxLength(rawMaxLength) == s.field1MaxLength
    ensures RefreshStep(s, rawMaxLength, Some(s.field1Value), Some(s.field2Value)) == s
  {
  }

  /** A second refresh with the same host values changes nothing more. */
  lemma RefreshIdempotent(s: Snapshot, rawMaxLength: Option<int>, host1: Option<string>, host2: Option<string>)
    ensures var t := RefreshStep(s, rawMaxLength, host1, host2);
      RefreshStep(t, rawMaxLength, host1, host2) == t
  {
    var t := RefreshStep(s, rawMaxLength, host1, host2);
    var m := t.field1MaxLength;
    if host1 != Some(s.field1Value) {
      TakeTwice(OrEmpty(host1), m);
    }
    if host2 != Some(s.field2Value) {
      TakeTwice(OrEmpty(host2), Field2MaxLength);
    }
  }

  /** After the limit shrinks, a refresh whose host value equals the stored field 1 keeps
      that stored value even though it is longer than the new limit and no longer matches
      the displayed text. */
  lemma RefreshLeavesStaleValue()
    ensures var s := InitState(Some(10), Some("abcdef"), None);
      var t := RefreshStep(s, Some(3), Some("abcdef"), Some(""));
      t.field1MaxLength == 3 && t.field1Text == "abc" && t.field1Value == "abcdef" &&
      |t.field1Value| > t.field1MaxLength
  {
  }

  /** Every step keeps the invariant, so it holds in every reachable state (the user's
      typing changes only the displayed texts, which the invariant does not constrain). */
  lemma InputStepKeepsInvariant(s: Snapshot)
    requires Invariant(s)
    ensures Invariant(InputStep(s))
  {
  }

  // ---------------------------------------------------------------------------
  // Sessions: any sequence of user edits, input events and host refreshes
  // ---------------------------------------------------------------------------

  /** What can happen to a control after `init`: the browser changes the textarea texts
      (the user types into either field), the input handler runs, or the host refreshes. */
  datatype Event =
    | Edit(text1: string, text2: string)
    | Input
    | Refresh(rawMaxLength: Option<int>, host1: Option<string>, host2: Option<string>)

  function Apply(s: Snapshot, e: Event): (s': Snapshot) {
    match e
    case Edit(text1, text2) => s.(field1Text := text1, field2Text := text2)
    case Input => InputStep(s)
    case Refresh(rawMaxLength, host1, host2) => RefreshStep(s, rawMaxLength, host1, host2)
  }

  function Run(s: Snapshot, events: seq<Event>): (s': Snapshot)
    decreases |events|
  {
    if events == [] then s else Run(Apply(s, events[0]), events[1..])
  }

  function InputCount(events: seq<Event>): (n: nat)
    decreases |events|
  {
    if events == [] then 0 else (if events[0].Input? then 1 else 0) + InputCount(events[1..])
  }

  function RefreshCount(events: seq<Event>): (n: nat)
    decreases |events|
  {
    if events == [] then 0 else (if events[0].Refresh? then 1 else 0) + RefreshCount(events[1..])
  }

  /** In every state a session reaches the limit lies in 1..4000 and the stored values in
      4000 characters, whatever the user types; the host is notified once per input event
      and for nothing else. */
  lemma {:induction false} RunKeepsInvariant(s: Snapshot, events: seq<Event>)
    requires Invariant(s)
    ensures Invariant(Run(s, events))
    ensures Run(s, events).notifyCount == s.notifyCount + InputCount(events)
    decreases |events|
  {
    if events != [] {
      var e := events[0];
      match e {
        case Edit(_, _) =>
        case Input => InputStepKeepsInvariant(s);
        case Refresh(rawMaxLength, host1, host2) => RefreshHostWins(s, rawMaxLength, host1, host2);
      }
      RunKeepsInvariant(Apply(s, e), events[1..]);
    }
  }

  /** A stored field 1 longer than the limit can only come from a host refresh: in a
      session without refreshes the stored field 1 stays within the limit, and the limit
      does not change. */
  lemma {:induction false} RunWithoutRefreshKeepsValueInLimit(s: Snapshot, events: seq<Event>)
    requires |s.field1Value| <= s.field1MaxLength
    requires RefreshCount(events) == 0
    ensures Run(s, events).field1MaxLength == s.field1MaxLength
    ensures |Run(s, events).field1Value| <= s.field1MaxLength
    decreases |events|
  {
    if events != [] {
      var e := events[0];
      if e.Input? {
        InputStepBounds(s);
      }
      RunWithoutRefreshKeepsValueInLimit(Apply(s, e), events[1..]);
    }
  }

  // ---------------------------------------------------------------------------
  // The control
  // ---------------------------------------------------------------------------

  /** Mirrors the `AutoSplitTextControl` class: `field1Text` and `field2Text` are the
      textarea values (the user's typing assigns them directly, after which the input
      handler `OnInput` runs), `field1Value` and `field2Value` the stored values,
      `limitReached` the CSS marker on field 1, `notifyCount` the number of
      `notifyOutputChanged` calls, and `targetFieldLogicalName` the target name as held by
      the context captured at initialisation. */
  class AutoSplitTextControl {
    var field1Text: string
    var field2Text: string
    var field1Value: string
    var field2Value: string
    var field1MaxLength: nat
    var limitReached: bool
    var notifyCount: nat
    var targetFieldLogicalName: Option<string>

    function State(): (s: Snapshot)
      reads this
    {
      Snapshot(field1Text, field2Text, field1Value, field2Value, field1MaxLength, limitReached, notifyCount)
    }

    ghost predicate Valid()
      reads this
    {
      Invariant(State())
    }

    /** `init`: seed both fields from the host values. */
    constructor Init(rawMaxLength: Option<int>, host1: Option<string>, host2: Option<string>,
                     targetName: Option<string>)
      ensures Valid()
      ensures State() == InitState(rawMaxLength, host1, host2)
      ensures field1Value == field1Text && field2Value == field2Text
      ensures targetFieldLogicalName == targetName
    {
      var m := ResolveMaxLength(rawMaxLength);
      field1MaxLength := m;
      field1Text := Take(OrEmpty(host1), m);
      field2Text := Take(OrEmpty(host2), Field2MaxLength);
      field1Value := field1Text;
      field2Value := field2Text;
      limitReached := false;
      notifyCount := 0;
      targetFieldLogicalName := targetName;
    }

    /** `onInput`, run after an edit of either textarea. */
    method OnInput()
      requires Valid()
      modifies this
      ensures Valid()
      ensures State() == InputStep(old(State()))
      ensures limitReached <==> |old(field1Text)| >= field1MaxLength
      ensures |field1Text| <= field1MaxLength && field1Value == field1Text
      ensures |field2Value| <= Field2MaxLength
      ensures notifyCount == old(notifyCount) + 1
      ensures targetFieldLogicalName == old(targetFieldLogicalName)
    {
      var length1 := |field1Text|;
      if length1 >= field1MaxLength {
        limitReached := true;
        var excessText := Drop(field1Text, field1MaxLength);
        field1Text := Take(field1Text, field1MaxLength);
        field2Text := Take(excessText + field2Text, Field2MaxLength);
      } else {
        limitReached := false;
      }
      field1Value := Take(field1Text, field1MaxLength);
      field2Value := Take(field2Text, Field2MaxLength);
      notifyCount := notifyCount + 1;
      InputStepBounds(old(State()));
    }

    /** `updateView`: reconcile with a host refresh. */
    method UpdateView(rawMaxLength: Option<int>, host1: Option<string>, host2: Option<string>)
      requires Valid()
      modifies this
      ensures Valid()
      ensures State() == RefreshStep(old(State()), rawMaxLength, host1, host2)
      ensures notifyCount == old(notifyCount) && limitReached == old(limitReached)
      ensures targetFieldLogicalName == old(targetFieldLogicalName)
    {
      var newMaxLength := ResolveMaxLength(rawMaxLength);
      if newMaxLength != field1MaxLength {
        field1MaxLength := newMaxLength;
        field1Text := Take(field1Text, field1MaxLength);
      }
      if Some(field1Value) != host1 {
        field1Text := Take(OrEmpty(host1), field1MaxLength);
        field1Value := field1Text;
      }
      if Some(field2Value) != host2 {
        field2Text := Take(OrEmpty(host2), Field2MaxLength);
        field2Value := field2Text;
      }
    }

    /** `getOutputs`: the keys `field1` and `field2` map to the stored values; a non-empty
        target name is one more key, mapped to the stored field 2, and it wins over a fixed
        key of the same name. */
    function GetOutputs(): (outputs: map<string, string>)
      reads this
      ensures var named := targetFieldLogicalName.Some? && targetFieldLogicalName.value != "";
        outputs.Keys == {"field1", "field2"} + (if named then {targetFieldLogicalName.value} else {}) &&
        outputs["field2"] == field2Value &&
        outputs["field1"] == (if named && targetFieldLogicalName.value == "field1" then field2Value else field1Value) &&
        (named ==> outputs[targetFieldLogicalName.value] == field2Value)
    {
      var outputs := map["field1" := field1Value, "field2" := field2Value];
      if targetFieldLogicalName.Some? && targetFieldLogicalName.value != "" then
        outputs[targetFieldLogicalName.value := field2Value]
      else
        outputs
    }
  }

  /** Scenarios driven through the class: an overflow moving the tail of field 1, an edit
      exactly at the limit, an unchanged refresh and the dynamically named output. */
  method Scenarios()
  {
    var c := new AutoSplitTextControl.Init(Some(5), Some("hello"), None, Some("fieldX"));
    assert c.field1Text == "hello" && c.field2Text == "";

    c.field1Text := "hello world";
    c.field2Text := "X";
    c.OnInput();
    assert Drop("hello world", 5) == " world";
    assert c.field1Text == "hello" && c.field2Text == " worldX" && c.limitReached;

    c.OnInput();
    assert c.field1Text == "hello" && c.field2Text == " worldX" && c.limitReached;
    assert c.notifyCount == 2;

    c.UpdateView(Some(5), Some("hello"), Some(" worldX"));
    assert c.field1Text == "hello" && c.field2Text == " worldX" && c.notifyCount == 2;

    var outputs := c.GetOutputs();
    assert outputs["fieldX"] == " worldX" && outputs["field2"] == " worldX";
    assert outputs["field1"] == "hello";
  }
}
