# Anti-Spam URL Blocker for Contact Form — a verified model

The plugin stops Contact Form 7 submissions that contain URLs. One rule decides
what a URL is: the case-insensitive pattern `(https?:\/\/[^\s]+)|(www\.[^\s]+)`,
searched anywhere in a text. The rule is applied in two places:

- **On the server** (`anti-spam-url-blocker.php`). The validation filter checks every
  string-valued posted field. Each field that matches is marked invalid with the
  message "URLs are not allowed in this field.". A remote-check request handler
  answers whether a posted text matches. A settings link is put first among the
  plugin's action links.
- **In the browser** (`assets/js/47b-cf-url-validator.js`). On every input and submit,
  each text, email and textarea control of the form is checked. Each one that
  holds a URL gets an error class. The submit button is disabled and an error
  banner is shown exactly when at least one does. A submit is cancelled exactly
  when validation fails.

Modules:

- `UrlPattern` (UrlPattern.dfy): the rule. `HasUrl` is the declarative
  predicate. It holds when, at some index, the text starts with `http://`,
  `https://` or `www.` (ASCII case ignored) and a non-whitespace character
  follows. `Scan` is a left-to-right matcher proved equal to it. Lemmas cover
  case-insensitivity, the unanchored search and the concrete edge cases.
- `ServerValidator` (ServerValidator.dfy): `contains_url`, the `validate_url`
  loop over a `ValidationResult` object that it updates, the remote-check
  handler, and `add_settings_link`.
- `ClientValidator` (ClientValidator.dfy): the browser detector. It is a
  global-flag regular-expression object with its `lastIndex`, built afresh on
  each call. A `Form` class holds one form's control values, error flags,
  submit-button state, banner visibility and banner count. Each method is tied
  to the pure function `AfterValidate`, and lemmas about that function give
  the promised properties.
- `Agreement` (Agreement.dfy): how the browser's verdict relates to the
  server's on the same values.
- `Wrappers` (Wrappers.dfy): `Option`.

Where the two sides differ, the model follows the code:

- The remote check returns `containsUrl` as the integer `preg_match` yields
  (1 or 0), not as a JSON boolean.
- The browser looks only at text, email and textarea controls. The server
  looks at every string field. So a URL in, say, a `type="url"` input passes
  the browser and is rejected by the server
  (`Agreement.UnwatchedControlOnlyServerRejects`).
- The banner is inserted by jQuery's `before`, which adds one copy per
  `.wpcf7-response-output` element and none when the form has no such element.
  So the form holds exactly one banner only when it has exactly one response
  output (`ClientValidator.OneErrorDivPerForm`).

Whitespace (`\s`) is taken to be the ASCII set: space, tab, line feed, vertical
tab, form feed and carriage return. Case folding is ASCII. The detectors of
`ServerValidator.ContainsUrl` and `ClientValidator.ContainsUrl` are proved
equal to the same predicate `UrlPattern.HasUrl` only under that reading.

## Model

| member | source | states |
|---|---|---|
| `UrlPattern.Scan` | anti-spam-url-blocker.php:115 | the left-to-right search finds a match from `start` iff `MatchFrom` holds, and returns the leftmost index where one begins |
| `UrlPattern.ScanAt` | anti-spam-url-blocker.php:115 | trying `http://`, `https://` and `www.` at one index succeeds iff one of them occurs there (ASCII case ignored) with a non-whitespace character right after it |
| `UrlPattern.RunEnd` | assets/js/47b-cf-url-validator.js:21-22 | the greedy `[^\s]+` stops at the first whitespace character or at the end of the text |
| `UrlPattern.NoUrlInBareHeads` | anti-spam-url-blocker.php:115 | `""`, `"www."`, `"http://"` and `"https://"` contain no URL: `[^\s]+` needs at least one character |
| `UrlPattern.NoUrlAfterSpacedHead` | anti-spam-url-blocker.php:115 | `"www. example"` contains no URL: the non-whitespace character must come straight after the head |
| `UrlPattern.PlainTextExamples` | anti-spam-url-blocker.php:115 | `"plain text"`, `"hello"`, `"Alice"` and `"contact me at www."` contain no URL |
| `UrlPattern.UrlExamples` | anti-spam-url-blocker.php:115 | `"visit https://example.com today"`, `"WWW.EXAMPLE.COM"` and `"check http://spam.example"` contain a URL |
| `UrlPattern.HasUrlUnanchored` | anti-spam-url-blocker.php:115 | if `s` contains a URL, so does `a + s + b` for any `a` and `b` |
| `UrlPattern.HasUrlIgnoresCase` | anti-spam-url-blocker.php:115 | two texts that differ only in ASCII letter case get the same verdict (the `i` flag) |
| `UrlPattern.HasUrlOfUpperCase` | assets/js/47b-cf-url-validator.js:21 | upper-casing a text never changes the verdict |
| `ServerValidator.ContainsUrl` | anti-spam-url-blocker.php:113-116 | `preg_match` yields 1 when the text contains a URL and 0 otherwise |
| `ServerValidator.ValidationResult.Invalidate` | anti-spam-url-blocker.php:102 | marking a field appends exactly that field and message to the result |
| `ServerValidator.ValidateUrl` | anti-spam-url-blocker.php:93-108 | without a submission the result is unchanged; with one, exactly `Invalidations(data)` is appended; the same object is returned |
| `ServerValidator.ValidateField` | anti-spam-url-blocker.php:101-103 | one posted field: a string value containing a URL appends `(key, "URLs are not allowed in this field.")`; any other field leaves the result as it was |
| `ServerValidator.InvalidationsAppend` | anti-spam-url-blocker.php:100-104 | the invalidations of `a + b` are those of `a` followed by those of `b`, so they appear in posted order |
| `ServerValidator.InvalidationsExactly` | anti-spam-url-blocker.php:100-103 | `(key, message)` is added iff the message is the fixed one and some posted field with that key is a string containing a URL |
| `ServerValidator.NoInvalidationsIffClean` | anti-spam-url-blocker.php:100-104 | nothing is invalidated iff no posted value is a string containing a URL |
| `ServerValidator.InvalidationsCount` | anti-spam-url-blocker.php:100-104 | one invalidation per offending field: the loop never stops early |
| `ServerValidator.AliceWithLink` | anti-spam-url-blocker.php:100-104 | name "Alice" plus message "check http://spam.example": only the message is invalidated |
| `ServerValidator.AliceWithoutLink` | anti-spam-url-blocker.php:100-104 | name "Alice" plus message "hello": nothing is invalidated |
| `ServerValidator.AjaxValidateUrl` | anti-spam-url-blocker.php:121-135 | a bad token is refused; absent `text` gives the error "No text provided."; present `text` gives success with 1 iff the sanitised text contains a URL, else 0 |
| `ServerValidator.AddSettingsLink` | anti-spam-url-blocker.php:186-191 | one element longer; the settings link comes first and the original links follow in their order |
| `ClientValidator.GlobalUrlRegex.Test` | assets/js/47b-cf-url-validator.js:21-22 | a global-flag `test` searches from `lastIndex`; it moves `lastIndex` to the end of the leftmost match, or resets it to 0 when nothing matches |
| `ClientValidator.ContainsUrl` | assets/js/47b-cf-url-validator.js:20-23 | `containsURL` is exactly `HasUrl`, the predicate the server uses, and depends on nothing but its argument |
| `ClientValidator.SharedRegexAnswersDiffer` | assets/js/47b-cf-url-validator.js:21-22 | one reused global regular expression answers yes and then no for the same text; building it afresh in each call is what prevents this |
| `ClientValidator.Form.GetErrorDiv` | assets/js/47b-cf-url-validator.js:28-38 | a banner is created only when the form has none; then there is one per response-output element |
| `ClientValidator.Form.ClearErrorClasses` | assets/js/47b-cf-url-validator.js:51 | every watched control's error flag is cleared; the others keep theirs |
| `ClientValidator.Form.MarkUrlFields` | assets/js/47b-cf-url-validator.js:53-61 | each watched control is flagged iff its value is non-empty and contains a URL; the flag returned says whether any was |
| `ClientValidator.Form.ValidateFields` | assets/js/47b-cf-url-validator.js:43-72 | the new form state is `AfterValidate` of the old one; returns true iff no watched control holds a URL; keeps the form invariant |
| `ClientValidator.Form.OnInput` | assets/js/47b-cf-url-validator.js:91-93 | an edit of a watched control re-validates the form; an edit of any other control changes only its value |
| `ClientValidator.Form.OnSubmit` | assets/js/47b-cf-url-validator.js:96-101 | the submit is cancelled and stopped iff a watched control holds a URL, i.e. iff `validateFields` returned false |
| `ClientValidator.Form.OnPluginSubmit` | assets/js/47b-cf-url-validator.js:80-85 | the form plugin's submit event has its default prevented iff validation fails; it is never stopped |
| `ClientValidator.FieldHasUrlIsHasUrl` | assets/js/47b-cf-url-validator.js:57 | the `inputValue &&` guard changes nothing, because the empty text holds no URL |
| `ClientValidator.AfterValidateFlags` | assets/js/47b-cf-url-validator.js:51-60 | after validation a watched control is flagged iff its value is non-empty and contains a URL, whatever its flag was; other controls keep theirs |
| `ClientValidator.AfterValidateSubmit` | assets/js/47b-cf-url-validator.js:63-69 | after validation submit is disabled iff some watched control is flagged, and the banner is visible iff submit is disabled |
| `ClientValidator.AfterValidateIdempotent` | assets/js/47b-cf-url-validator.js:51-69 | validating twice on unchanged values gives the state of validating once |
| `ClientValidator.ValidateTimesIsOnce` | assets/js/47b-cf-url-validator.js:43-72 | any number of validations of unchanged values leaves the state of the first |
| `ClientValidator.OneErrorDivPerForm` | assets/js/47b-cf-url-validator.js:29-37 | a form with one response-output element holds exactly one banner after any number of validations |
| `Agreement.ClientBlockImpliesServerReject` | assets/js/47b-cf-url-validator.js:57 | whenever the browser disables submit, the server invalidates at least one field of the same values |
| `Agreement.AgreeOnWatchedForms` | assets/js/47b-cf-url-validator.js:46 | on a form of text, email and textarea controls only, the browser blocks iff the server rejects |
| `Agreement.UnwatchedControlOnlyServerRejects` | assets/js/47b-cf-url-validator.js:46 | a URL in a control the browser does not watch passes the browser and is invalidated by the server |

## Left out

- Hook and filter registration, the singleton, script and style enqueueing, localization loading and the missing-plugin admin notice are host-framework wiring with no decision in them. Messages are kept in their English form.
- `WPCF7_Submission::get_instance` and `get_posted_data` are foreign calls. The submission is an `Option` of posted `(key, value)` pairs passed in. The filter's unused `$tags` argument is left out.
- `WPCF7_Validation::invalidate` belongs to the host. It is modelled as appending: how the host drops names that are not form tags, or a second invalidation of one field, is not captured.
- `check_ajax_referer`, `wp_unslash` and `sanitize_textarea_field` are foreign. The token check is a boolean parameter, and unslashing plus sanitising is a function parameter. The JSON encoding of the responses and the host's exit after sending them are not modelled.
- `admin_url` and `esc_html__` are foreign. The settings-page URL is a parameter, and the link label is the untranslated "Settings". PHP array keys of `$links` (`array_unshift` renumbers integer keys and keeps string keys) are not modelled; the links are a sequence.
- `preg_match` returning `false` on an internal error is not modelled.
- Non-ASCII whitespace: JavaScript's `\s` also matches Unicode spaces, and PCRE's depends on its character tables. Both sides are modelled with the ASCII set only.
- JavaScript strings count UTF-16 code units, and the model counts characters. `lastIndex` positions differ for text outside the Basic Multilingual Plane.
- jQuery selection, event binding and `document.ready` are UI glue. So are the `slideDown`/`slideUp` animations, reduced to the final visibility, and the `try`/`catch` logging. Host events are methods of `Form`. The submit button's `disabled` property is one boolean, even for a form with no submit button or several.
- `ClientValidator.Form.GetErrorDiv`: with several response-output elements, jQuery's `before` inserts clones, and only the original element is the one shown on the first call. The model keeps one visibility flag for all banners.
- The check of the form's initial values on page load is not modelled: no code of the validator runs before the first event.
