/** The browser side of the plugin (assets/js/47b-cf-url-validator.js): the
    detector as a JavaScript regular expression with the global flag, and one
    form's validation state, recomputed on every input and submit event. */
module ClientValidator {
  import opened UrlPattern

  // ---------------------------------------------------------------------------
  // The detector as a global regular expression

  /** A regular-expression object for the pattern with the `g` and `i` flags.
      With `g`, `test` starts searching at `lastIndex`, moves it past a match
      and resets it to 0 when it finds none. */
  class GlobalUrlRegex {
    var lastIndex: nat

    /** Evaluating the regular-expression literal creates a fresh object. */
    constructor ()
      ensures lastIndex == 0
    {
      lastIndex := 0;
    }

    method Test(s: string) returns (found: bool)
      modifies this
      ensures found == (old(lastIndex) <= |s| && MatchFrom(s, old(lastIndex)))
      ensures !found ==> lastIndex == 0
      ensures found ==> (exists i :: old(lastIndex) <= i < lastIndex <= |s|
                           && MatchAt(s, i) && (forall j :: old(lastIndex) <= j < i ==> !MatchAt(s, j))
                           && (forall k :: i <= k < lastIndex ==> !IsWhitespace(s[k]))
                           && (lastIndex < |s| ==> IsWhitespace(s[lastIndex])))
    {
      if lastIndex > |s| {
        lastIndex := 0;
        return false;
      }
      var at;
      found, at := Scan(s, lastIndex);
      if found {
        MatchStartsWithLetter(s, at);
        lastIndex := RunEnd(s, at);
      } else {
        lastIndex := 0;
      }
    }
  }

  /** Every match begins on a letter, so the greedy run of a match is never empty. */
  lemma MatchStartsWithLetter(s: string, i: nat)
    requires i < |s| && MatchAt(s, i)
    ensures !IsWhitespace(s[i])
  {
    assert Http[0] == Https[0] == 'h' && Www[0] == 'w';
    assert LowerAscii(s[i + 0]) == 'h' || LowerAscii(s[i + 0]) == 'w';
  }

  /** `containsURL`: builds the regular expression afresh and tests `text`
      once, so no earlier call can influence the answer. */
  method ContainsUrl(text: string) returns (b: bool)
    ensures b == HasUrl(text)
  {
    var urlRegex := new GlobalUrlRegex();
    b := urlRegex.Test(text);
  }

  /** Why the fresh object matters: one shared global regular expression,
      asked twice about the same text, answers yes and then no. */
  method SharedRegexAnswersDiffer() returns (first: bool, second: bool)
    ensures first && !second
  {
    var s := "www.a";
    var shared := new GlobalUrlRegex();
    first := shared.Test(s);
    NoWhitespaceIn(s);
    second := shared.Test(s);
  }

  lemma NoWhitespaceIn(s: string)
    requires s == "www.a"
    ensures HasUrl(s)
    ensures forall k :: 0 <= k < |s| ==> !IsWhitespace(s[k])
  {
    assert PrefixAt(s, 0, Www);
    assert HeadMatchAt(s, 0, Www);
    assert MatchAt(s, 0);
    forall k | 0 <= k < |s| ensures !IsWhitespace(s[k]) {
      assert s[k] in s;
    }
  }

  // ---------------------------------------------------------------------------
  // One form's state

  /** The controls of a form: the three kinds the validator watches, and
      every other kind (url, tel, number, select, checkbox, hidden, ...). */
  datatype ControlKind = TextInput | EmailInput | TextArea | OtherControl

  /** The validator's selector: `input[type="text"]`, `input[type="email"]`, `textarea`. */
  predicate Watched(k: ControlKind) {
    k != OtherControl
  }

  datatype Control = Control(kind: ControlKind, value: string)

  /** `inputValue && containsURL(inputValue)`: the empty value is skipped. */
  predicate FieldHasUrl(v: string) {
    v != "" && HasUrl(v)
  }

  /** Some watched control holds a URL. */
  predicate AnyUrl(kinds: seq<ControlKind>, values: seq<string>)
    requires |values| == |kinds|
  {
    exists i :: 0 <= i < |kinds| && Watched(kinds[i]) && FieldHasUrl(values[i])
  }

  /** The observable state of a form: its controls' kinds and values, the error
      class on each control, the submit button's `disabled` property, the
      banner's visibility, how many error banners the form holds, and how many
      response-output elements it has (where a new banner is inserted). */
  datatype FormView = FormView(
    kinds: seq<ControlKind>,
    values: seq<string>,
    flags: seq<bool>,
    submitDisabled: bool,
    bannerVisible: bool,
    errorDivCount: nat,
    responseOutputs: nat)

  predicate WellFormed(v: FormView) {
    |v.values| == |v.kinds| && |v.flags| == |v.kinds|
  }

  /** `getErrorDiv`: looks for a banner in the form and creates one only when
      there is none; `before` inserts a copy in front of every response-output
      element, and none when the form has no such element. */
  function ErrorDivsAfterLookup(count: nat, responseOutputs: nat): nat {
    if count == 0 then responseOutputs else count
  }

  /** The state `validateFields` leaves behind: every watched control's error
      class recomputed from its value alone, the others untouched, the submit
      button disabled and the banner shown exactly when some watched control
      holds a URL. */
  function AfterValidate(v: FormView): (w: FormView)
    requires WellFormed(v)
    ensures WellFormed(w)
  {
    var hasUrl := AnyUrl(v.kinds, v.values);
    v.(flags := seq(|v.kinds|, i requires 0 <= i < |v.kinds| =>
                     if Watched(v.kinds[i]) then FieldHasUrl(v.values[i]) else v.flags[i]),
       submitDisabled := hasUrl,
       bannerVisible := hasUrl,
       errorDivCount := ErrorDivsAfterLookup(v.errorDivCount, v.responseOutputs))
  }

  /** `n` successive calls of `validateFields` on unchanged values. */
  function ValidateTimes(v: FormView, n: nat): (w: FormView)
    requires WellFormed(v)
    ensures WellFormed(w)
    decreases n
  {
    if n == 0 then v else ValidateTimes(AfterValidate(v), n - 1)
  }

  /** The result of a submit handler: whether it cancelled the event's default
      action and whether it stopped the event's propagation. */
  datatype EventOutcome = EventOutcome(defaultPrevented: bool, propagationStopped: bool)

  /** One form on the page with the validator attached. */
  class Form {
    const kinds: seq<ControlKind>
    const responseOutputs: nat
    var values: array<string>
    var errorFlags: array<bool>
    var submitDisabled: bool
    var bannerVisible: bool
    var errorDivCount: nat

    /** The form's invariant: one flag per control, only watched controls ever
        flagged, the submit button disabled exactly when some control is
        flagged, the banner shown exactly when the button is disabled, and no
        banner or one per response-output element. */
    ghost predicate Valid()
      reads this, values, errorFlags
    {
      && values.Length == |kinds|
      && errorFlags.Length == |kinds|
      && (forall i :: 0 <= i < |kinds| && !Watched(kinds[i]) ==> !errorFlags[i])
      && (submitDisabled <==> exists i :: 0 <= i < |kinds| && errorFlags[i])
      && bannerVisible == submitDisabled
      && (errorDivCount == 0 || errorDivCount == responseOutputs)
    }

    ghost function View(): (v: FormView)
      reads this, values, errorFlags
    {
      FormView(kinds, values[..], errorFlags[..], submitDisabled, bannerVisible,
               errorDivCount, responseOutputs)
    }

    /** A freshly rendered form: nothing flagged, the button enabled, no banner. */
    constructor (controls: seq<Control>, responseOutputs: nat)
      ensures Valid() && fresh(values) && fresh(errorFlags)
      ensures kinds == seq(|controls|, i requires 0 <= i < |controls| => controls[i].kind)
      ensures values[..] == seq(|controls|, i requires 0 <= i < |controls| => controls[i].value)
      ensures forall i :: 0 <= i < |controls| ==> !errorFlags[i]
      ensures !submitDisabled && !bannerVisible && errorDivCount == 0
      ensures this.responseOutputs == responseOutputs
    {
      kinds := seq(|controls|, i requires 0 <= i < |controls| => controls[i].kind);
      this.responseOutputs := responseOutputs;
      values := new string[|controls|](i requires 0 <= i < |controls| => controls[i].value);
      errorFlags := new bool[|controls|](i => false);
      submitDisabled := false;
      bannerVisible := false;
      errorDivCount := 0;
    }

    /** `getErrorDiv` */
    method GetErrorDiv()
      requires Valid()
      modifies this
      ensures Valid()
      ensures errorDivCount == ErrorDivsAfterLookup(old(errorDivCount), responseOutputs)
      ensures submitDisabled == old(submitDisabled) && bannerVisible == old(bannerVisible)
      ensures values == old(values) && errorFlags == old(errorFlags)
    {
      if errorDivCount == 0 {
        errorDivCount := responseOutputs;
      }
    }

    /** `removeClass` on the watched controls: clears their error class. */
    method ClearErrorClasses()
      requires errorFlags.Length == |kinds|
      modifies errorFlags
      ensures forall j :: 0 <= j < |kinds| ==> errorFlags[j] == (!Watched(kinds[j]) && old(errorFlags[j]))
    {
      var i := 0;
      while i < errorFlags.Length
        invariant 0 <= i <= errorFlags.Length
        invariant forall j :: 0 <= j < i ==> errorFlags[j] == (!Watched(kinds[j]) && old(errorFlags[j]))
        invariant forall j :: i <= j < errorFlags.Length ==> errorFlags[j] == old(errorFlags[j])
      {
        if Watched(kinds[i]) {
          errorFlags[i] := false;
        }
        i := i + 1;
      }
    }

    /** The `each` loop: visits every watched control, sets the error class of
        each one whose value holds a URL, and reports whether any did. */
    method MarkUrlFields() returns (hasUrl: bool)
      requires values.Length == |kinds| && errorFlags.Length == |kinds|
      modifies errorFlags
      ensures forall j :: 0 <= j < |kinds| ==>
        errorFlags[j] == (if Watched(kinds[j]) then FieldHasUrl(values[j]) else old(errorFlags[j]))
      ensures hasUrl == AnyUrl(kinds, values[..])
    {
      hasUrl := false;
      var i := 0;
      while i < values.Length
        invariant 0 <= i <= values.Length
        invariant forall j :: 0 <= j < i ==>
          errorFlags[j] == (if Watched(kinds[j]) then FieldHasUrl(values[j]) else old(errorFlags[j]))
        invariant forall j :: i <= j < errorFlags.Length ==> errorFlags[j] == old(errorFlags[j])
        invariant hasUrl <==> exists j :: 0 <= j < i && Watched(kinds[j]) && FieldHasUrl(values[j])
      {
        if Watched(kinds[i]) {
          var inputValue := values[i];
          var found := false;
          if inputValue != "" {
            found := ContainsUrl(inputValue);
          }
          if found {
            hasUrl := true;
          }
          errorFlags[i] := found;
        }
        i := i + 1;
      }
    }

    /** `validateFields`: clears the error class of every watched control, sets
        it again on each one whose value holds a URL, then disables or enables
        the submit button and shows or hides the banner. Returns whether the
        form is free of URLs. */
    method ValidateFields() returns (ok: bool)
      requires Valid()
      modifies this, errorFlags
      ensures Valid()
      ensures values == old(values) && errorFlags == old(errorFlags)
      ensures View() == AfterValidate(old(View()))
      ensures ok == !AnyUrl(kinds, values[..])
    {
      ghost var before := View();
      GetErrorDiv();
      ClearErrorClasses();
      var hasUrl := MarkUrlFields();
      if hasUrl {
        submitDisabled := true;
        bannerVisible := true;
      } else {
        submitDisabled := false;
        bannerVisible := false;
      }
      ok := !hasUrl;

      ghost var after := AfterValidate(before);
      assert errorFlags[..] == after.flags;
      assert View() == after;
      assert forall i :: 0 <= i < |kinds| && !Watched(kinds[i]) ==> !errorFlags[i];
      if hasUrl {
        var j :| 0 <= j < |kinds| && Watched(kinds[j]) && FieldHasUrl(values[j]);
        assert errorFlags[j];
      }
    }

    /** The input handler: the user changes control `i` to `v`; when the control
        is a watched one, the form is validated again. */
    method OnInput(i: nat, v: string)
      requires Valid() && i < |kinds|
      modifies this, values, errorFlags
      ensures Valid()
      ensures values == old(values) && errorFlags == old(errorFlags)
      ensures Watched(kinds[i]) ==> View() == AfterValidate(old(View()).(values := old(values[..])[i := v]))
      ensures !Watched(kinds[i]) ==> View() == old(View()).(values := old(values[..])[i := v])
    {
      values[i] := v;
      if Watched(kinds[i]) {
        var _ := ValidateFields();
      }
    }

    /** The form's submit handler: validates, and when a URL is present cancels
        the submission and stops the event from propagating. */
    method OnSubmit() returns (outcome: EventOutcome)
      requires Valid()
      modifies this, errorFlags
      ensures Valid()
      ensures values == old(values) && errorFlags == old(errorFlags)
      ensures View() == AfterValidate(old(View()))
      ensures outcome.defaultPrevented == AnyUrl(kinds, values[..])
      ensures outcome.propagationStopped == AnyUrl(kinds, values[..])
    {
      var ok := ValidateFields();
      outcome := EventOutcome(!ok, !ok);
    }

    /** The handler of the form plugin's own submit event: validates, and when a
        URL is present cancels the event's default action only. */
    method OnPluginSubmit() returns (outcome: EventOutcome)
      requires Valid()
      modifies this, errorFlags
      ensures Valid()
      ensures values == old(values) && errorFlags == old(errorFlags)
      ensures View() == AfterValidate(old(View()))
      ensures outcome.defaultPrevented == AnyUrl(kinds, values[..])
      ensures !outcome.propagationStopped
    {
      var ok := ValidateFields();
      outcome := EventOutcome(!ok, false);
    }
  }

  // ---------------------------------------------------------------------------
  // Properties of the recomputed state

  /** The `inputValue &&` guard changes nothing: the empty text holds no URL. */
  lemma FieldHasUrlIsHasUrl(v: string)
    ensures FieldHasUrl(v) == HasUrl(v)
  {
    NoUrlInBareHeads();
  }

  /** After validation each watched control is flagged exactly when its value
      is non-empty and holds a URL, whatever its flag was before. */
  lemma {:induction false} AfterValidateFlags(v: FormView, i: nat)
    requires WellFormed(v) && i < |v.kinds|
    ensures Watched(v.kinds[i]) ==>
      (AfterValidate(v).flags[i] <==> v.values[i] != "" && HasUrl(v.values[i]))
    ensures !Watched(v.kinds[i]) ==> AfterValidate(v).flags[i] == v.flags[i]
  {
  }

  /** After validation the button is disabled exactly when some watched control
      is flagged, and the banner is shown exactly when the button is disabled. */
  lemma {:induction false} AfterValidateSubmit(v: FormView)
    requires WellFormed(v)
    ensures AfterValidate(v).submitDisabled <==>
      exists i :: 0 <= i < |v.kinds| && Watched(v.kinds[i]) && AfterValidate(v).flags[i]
    ensures AfterValidate(v).bannerVisible == AfterValidate(v).submitDisabled
  {
    var w := AfterValidate(v);
    if w.submitDisabled {
      var i :| 0 <= i < |v.kinds| && Watched(v.kinds[i]) && FieldHasUrl(v.values[i]);
      assert w.flags[i];
    }
  }

  /** Everything is recomputed, so validating twice is validating once. */
  lemma {:induction false} AfterValidateIdempotent(v: FormView)
    requires WellFormed(v)
    ensures AfterValidate(AfterValidate(v)) == AfterValidate(v)
  {
    var w := AfterValidate(v);
    assert AfterValidate(w).flags == w.flags;
  }

  /** Any number of validations of unchanged values leaves the state of the
      first. */
  lemma {:induction false} ValidateTimesIsOnce(v: FormView, n: nat)
    requires WellFormed(v) && n >= 1
    ensures ValidateTimes(v, n) == AfterValidate(v)
    decreases n
  {
    if n > 1 {
      AfterValidateIdempotent(v);
      ValidateTimesIsOnce(AfterValidate(v), n - 1);
    }
  }

  /** A form with one response-output element holds exactly one banner after
      any number of validations. */
  lemma {:induction false} OneErrorDivPerForm(v: FormView, n: nat)
    requires WellFormed(v) && n >= 1
    requires v.responseOutputs == 1 && v.errorDivCount <= 1
    ensures ValidateTimes(v, n).errorDivCount == 1
  {
    ValidateTimesIsOnce(v, n);
  }
}
