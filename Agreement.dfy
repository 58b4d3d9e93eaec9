/** How the browser's verdict on a form relates to the server's verdict on the
    same form once posted. Both sides run the same detector (`HasUrl`), but the
    browser looks only at text, email and textarea controls while the server
    looks at every string-valued field. */
module Agreement {
  import opened UrlPattern
  import opened ServerValidator
  import opened ClientValidator

  /** What the form posts: each control's name with its string value. */
  function Posted(names: seq<string>, v: FormView): (data: seq<PostedField>)
    requires |names| == |v.values|
    ensures |data| == |names|
    ensures forall i :: 0 <= i < |data| ==> data[i] == PostedField(names[i], Str(v.values[i]))
  {
    seq(|names|, i requires 0 <= i < |names| => PostedField(names[i], Str(v.values[i])))
  }

  /** Whenever the browser disables submission, the server rejects the same
      values: the browser never blocks what the server would accept. */
  lemma {:induction false} ClientBlockImpliesServerReject(names: seq<string>, v: FormView)
    requires WellFormed(v) && |names| == |v.kinds|
    requires AfterValidate(v).submitDisabled
    ensures Invalidations(Posted(names, v)) != []
  {
    var i :| 0 <= i < |v.kinds| && Watched(v.kinds[i]) && FieldHasUrl(v.values[i]);
    var data := Posted(names, v);
    assert Offending(data[i].value);
    NoInvalidationsIffClean(data);
  }

  /** On a form made only of watched controls the two sides agree exactly. */
  lemma {:induction false} AgreeOnWatchedForms(names: seq<string>, v: FormView)
    requires WellFormed(v) && |names| == |v.kinds|
    requires forall i :: 0 <= i < |v.kinds| ==> Watched(v.kinds[i])
    ensures AfterValidate(v).submitDisabled <==> Invalidations(Posted(names, v)) != []
  {
    var data := Posted(names, v);
    NoInvalidationsIffClean(data);
    if Invalidations(data) != [] {
      var i :| 0 <= i < |data| && Offending(data[i].value);
      FieldHasUrlIsHasUrl(v.values[i]);
      assert Watched(v.kinds[i]) && FieldHasUrl(v.values[i]);
    } else if AfterValidate(v).submitDisabled {
      ClientBlockImpliesServerReject(names, v);
    }
  }

  /** A URL typed into a control the browser does not watch (a url-type input,
      say) passes the browser and is rejected by the server. */
  lemma UnwatchedControlOnlyServerRejects()
    ensures var v := FormView([OtherControl], ["WWW.EXAMPLE.COM"], [false], false, false, 0, 1);
      !AfterValidate(v).submitDisabled
      && Invalidations(Posted(["website"], v)) == [Invalidation("website", UrlNotAllowed)]
  {
    UrlExamples();
  }
}
