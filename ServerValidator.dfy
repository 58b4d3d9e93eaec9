/** The server side of the plugin (anti-spam-url-blocker.php): the detector as
    `preg_match` runs it, the Contact Form 7 validation filter that
    invalidates every string field containing a URL, the remote-check
    request handler, and the settings link added to the plugin's action links. */
module ServerValidator {
  import opened Wrappers
  import opened UrlPattern

  /** The fixed message attached to every invalidated field. */
  const UrlNotAllowed: string := "URLs are not allowed in this field."

  /** The error message of a remote check that carries no text. */
  const NoTextProvided: string := "No text provided."

  /** `contains_url`: `preg_match` of the pattern, which yields 1 when the text
      holds a match and 0 otherwise. */
  method ContainsUrl(text: string) returns (n: int)
    ensures n == 0 || n == 1
    ensures n == 1 <==> HasUrl(text)
  {
    var found, _ := Scan(text, 0);
    n := if found then 1 else 0;
  }

  // ---------------------------------------------------------------------------
  // The validation filter

  /** A posted value: a string, or anything else the host parsed (an array of
      checkbox choices, a file, ...), which the filter skips. */
  datatype PostedValue = Str(s: string) | NonStr

  datatype PostedField = PostedField(key: string, value: PostedValue)

  /** One entry of the host's validation result: a field marked invalid. */
  datatype Invalidation = Invalidation(field: string, message: string)

  /** A posted value the filter rejects: a string that contains a URL. */
  predicate Offending(v: PostedValue) {
    v.Str? && HasUrl(v.s)
  }

  /** The invalidations the filter adds for `data`, one per offending field, in
      posted order. */
  function Invalidations(data: seq<PostedField>): seq<Invalidation> {
    if data == [] then []
    else FieldInvalidation(data[0]) + Invalidations(data[1..])
  }

  /** What the filter records for one posted field. */
  function FieldInvalidation(field: PostedField): seq<Invalidation> {
    if Offending(field.value) then [Invalidation(field.key, UrlNotAllowed)] else []
  }

  /** The host's validation result object, which the filter updates. */
  class ValidationResult {
    var invalid: seq<Invalidation>

    constructor (initial: seq<Invalidation>)
      ensures invalid == initial
    {
      invalid := initial;
    }

    /** Marks field `key` invalid with `message`. */
    method Invalidate(key: string, message: string)
      modifies this
      ensures invalid == old(invalid) + [Invalidation(key, message)]
    {
      invalid := invalid + [Invalidation(key, message)];
    }
  }

  /** `validate_url`: with a current submission, visits every posted field
      in order and invalidates each string field that contains a URL; without
      one, leaves the result alone. It returns the object it was given. */
  method ValidateUrl(result: ValidationResult, submission: Option<seq<PostedField>>)
    returns (r: ValidationResult)
    modifies result
    ensures r == result
    ensures submission.None? ==> result.invalid == old(result.invalid)
    ensures submission.Some? ==> result.invalid == old(result.invalid) + Invalidations(submission.value)
  {
    if submission.Some? {
      var data := submission.value;
      var i := 0;
      while i < |data|
        invariant 0 <= i <= |data|
        invariant result.invalid == old(result.invalid) + Invalidations(data[..i])
      {
        var field := data[i];
        ValidateField(result, field);
        assert Invalidations([field]) == FieldInvalidation(field) + Invalidations([]);
        assert data[..i + 1] == data[..i] + [field];
        InvalidationsAppend(data[..i], [field]);
        i := i + 1;
      }
      assert data[..|data|] == data;
    }
    r := result;
  }

  /** One iteration of the filter's loop: a string value with a URL marks its key. */
  method ValidateField(result: ValidationResult, field: PostedField)
    modifies result
    ensures result.invalid == old(result.invalid) + FieldInvalidation(field)
  {
    if field.value.Str? {
      var n := ContainsUrl(field.value.s);
      if n != 0 {
        result.Invalidate(field.key, UrlNotAllowed);
      }
    }
  }

  /** Filtering distributes over concatenation: the invalidations of a longer
      submission extend those of its first part, in order. */
  lemma {:induction false} InvalidationsAppend(a: seq<PostedField>, b: seq<PostedField>)
    ensures Invalidations(a + b) == Invalidations(a) + Invalidations(b)
  {
    if a == [] {
      assert a + b == b;
    } else {
      assert (a + b)[0] == a[0];
      assert (a + b)[1..] == a[1..] + b;
      InvalidationsAppend(a[1..], b);
      assert FieldInvalidation(a[0]) + (Invalidations(a[1..]) + Invalidations(b))
          == (FieldInvalidation(a[0]) + Invalidations(a[1..])) + Invalidations(b);
    }
  }

  /** An invalidation is added exactly for each offending field, always with
      the fixed message. */
  lemma {:induction false} InvalidationsExactly(data: seq<PostedField>, key: string, message: string)
    ensures Invalidation(key, message) in Invalidations(data) <==>
      message == UrlNotAllowed &&
      exists i :: 0 <= i < |data| && data[i].key == key && Offending(data[i].value)
  {
    if data != [] {
      InvalidationsExactly(data[1..], key, message);
      if exists i :: 0 <= i < |data[1..]| && data[1..][i].key == key && Offending(data[1..][i].value) {
        var i :| 0 <= i < |data[1..]| && data[1..][i].key == key && Offending(data[1..][i].value);
        assert data[i + 1] == data[1..][i];
      }
      if exists i :: 0 <= i < |data| && data[i].key == key && Offending(data[i].value) {
        var i :| 0 <= i < |data| && data[i].key == key && Offending(data[i].value);
        if i > 0 {
          assert data[1..][i - 1] == data[i];
        }
      }
    }
  }

  /** No field is rejected exactly when no string field contains a URL. */
  lemma {:induction false} NoInvalidationsIffClean(data: seq<PostedField>)
    ensures Invalidations(data) == [] <==> forall i :: 0 <= i < |data| ==> !Offending(data[i].value)
  {
    if data != [] {
      NoInvalidationsIffClean(data[1..]);
      assert forall i :: 1 <= i < |data| ==> data[i] == data[1..][i - 1];
    }
  }

  /** The number of invalidations is the number of offending fields: the loop
      never stops at the first one. */
  function CountOffending(data: seq<PostedField>): nat {
    if data == [] then 0 else (if Offending(data[0].value) then 1 else 0) + CountOffending(data[1..])
  }

  lemma {:induction false} InvalidationsCount(data: seq<PostedField>)
    ensures |Invalidations(data)| == CountOffending(data)
  {
    if data != [] {
      InvalidationsCount(data[1..]);
    }
  }

  /** A name field and a message field with a link: only the message is
      invalidated. */
  lemma AliceWithLink()
    ensures Invalidations([PostedField("name", Str("Alice")), PostedField("message", Str("check http://spam.example"))])
      == [Invalidation("message", UrlNotAllowed)]
  {
    PlainTextExamples();
    UrlExamples();
  }

  /** The same two fields without a link: nothing is invalidated. */
  lemma AliceWithoutLink()
    ensures Invalidations([PostedField("name", Str("Alice")), PostedField("message", Str("hello"))]) == []
  {
    PlainTextExamples();
  }

  // ---------------------------------------------------------------------------
  // The remote check

  /** What the request handler sends back: a JSON success carrying
      `containsUrl` (the integer `preg_match` returned), a JSON error carrying a
      message, or the refusal the host sends when the request token is bad. */
  datatype AjaxResponse =
    | JsonSuccess(containsUrl: int)
    | JsonError(message: string)
    | TokenRefused

  /** `ajax_validate_url`. `tokenValid` is the host's verdict on the request
      token; `sanitise` stands for the host's unslashing and sanitising of the
      posted text. */
  method AjaxValidateUrl(post: map<string, string>, tokenValid: bool, sanitise: string -> string)
    returns (response: AjaxResponse)
    ensures !tokenValid ==> response == TokenRefused
    ensures tokenValid && "text" !in post ==> response == JsonError(NoTextProvided)
    ensures tokenValid && "text" in post ==>
      response.JsonSuccess? && (response.containsUrl == 1 <==> HasUrl(sanitise(post["text"])))
      && (response.containsUrl == 0 <==> !HasUrl(sanitise(post["text"])))
  {
    if !tokenValid {
      return TokenRefused;
    }
    if "text" in post {
      var text := sanitise(post["text"]);
      var n := ContainsUrl(text);
      response := JsonSuccess(n);
    } else {
      response := JsonError(NoTextProvided);
    }
  }

  // ---------------------------------------------------------------------------
  // The settings link

  /** The anchor that points at the settings page `settingsUrl`. */
  function SettingsLink(settingsUrl: string): string {
    "<a href=\"" + settingsUrl + "\">Settings</a>"
  }

  /** `add_settings_link`: the settings link goes in front of the existing
      links, which keep their order. */
  function AddSettingsLink(links: seq<string>, settingsUrl: string): (r: seq<string>)
    ensures |r| == |links| + 1
    ensures r[0] == SettingsLink(settingsUrl)
    ensures forall i :: 0 <= i < |links| ==> r[i + 1] == links[i]
  {
    [SettingsLink(settingsUrl)] + links
  }
}
