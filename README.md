# Email sign-up endpoint

A Dafny model of the `POST /api/subscribe` handler of the site's Cloudflare
Pages functions (`functions/api/subscribe.ts`), with proofs of what it does to
the `EMAIL_SUBSCRIBERS` key-value namespace and what it answers.

The handler works in five steps, and the model keeps them apart:

1. **Extraction** (`Subscribe.ReadEmail`, specified by `Subscribe.Candidate`).
   The `content-type` header chooses the decoder. A header that contains
   `application/json` sends the body to `request.json()`. Anything else sends it
   to `request.formData()`. The email is taken from a JSON object's string
   `email` member, or from the first `email` form field when that field is text.
   A decoder that throws, or any other shape, leaves the email as `""`. A
   request carries what each decoder would produce (`Decoded(value)` or
   `Threw`).
2. **Normalisation** (`EmailAddress.Normalize`). This is `trim()` and then
   `toLowerCase()`. Trimming removes the ECMAScript white-space and
   line-terminator characters: U+0009–U+000D, U+0020, U+00A0, U+1680,
   U+2000–U+200A, U+2028, U+2029, U+202F, U+205F, U+3000, U+FEFF.
3. **Validation** (`EmailAddress.IsValidEmail`). This is a character-level
   test proved equivalent to the regular expression
   `^[^\s@]+@[^\s@]+\.[^\s@]+$`. Its language is `EmailAddress.MatchesEmailPattern`.
4. **Key** (`EmailAddress.StorageKey`). The key is `email:` followed by the
   normalised address.
5. **Conditional write and response** (`Subscribe.OnRequestPost`).
   - The namespace is read at the key.
   - When the value read is falsy (missing or `""`), the record
     `{email, submittedAt, userAgent}` is written, serialised as
     `JSON.stringify` would serialise it (`Json.Stringify`).
   - The answer is `{"success":true}` with status 200, or
     `{"success":false,"error":"invalid_email"}` with status 400.
   - Every answer carries `content-type: application/json` and
     `cache-control: no-store`.

The namespace is the class `Subscribe.KvNamespace`. Its field `entries` is the
map that `get` and `put` read and update. A ghost `log` records every call made
on it. The imperative method `OnRequestPost` is proved equal, in its response,
its new entries and its calls, to the function `Subscribe.PostOutcome`. The
properties of the handler are lemmas about `PostOutcome`.

Modules:
- `Wrappers`: `Option`.
- `Json`: the flat-object `JSON.stringify`, with an inverse parser used to
  state what the serialised text contains.
- `EmailAddress`: trimming, lower-casing, the pattern and the key.
- `Subscribe`: requests, responses, records, the namespace, the handler and
  its properties.

## Model

| member | source | states |
|---|---|---|
| EmailAddress.IsSpace | functions/api/subscribe.ts:36 | the white-space set of `trim`, which the `\s` of the pattern on line 13 shares; what it means for the two callers is stated by `TrimIgnoresSurroundingSpace`, `TrimIsInfix` and `SpaceIsInvalid` |
| EmailAddress.Trim | functions/api/subscribe.ts:36 | the trimmed string is no longer than its input and neither starts nor ends with white space |
| EmailAddress.TrimIsInfix | functions/api/subscribe.ts:36 | `trim` keeps the contiguous part of its input that starts right after the leading white space, and everything it drops on either side is white space |
| EmailAddress.TrimIgnoresSurroundingSpace | functions/api/subscribe.ts:36 | adding white space before or after a string does not change what `trim` returns |
| EmailAddress.TrimIgnoresTrailingSpace | functions/api/subscribe.ts:36 | adding white space after a string does not change what `trim` returns |
| EmailAddress.Lower | functions/api/subscribe.ts:36 | lower-casing keeps the length; `LowerAt` states what each character becomes |
| EmailAddress.LowerAt | functions/api/subscribe.ts:36 | each character of the lower-cased string is the character at the same position of the input, lower-cased |
| EmailAddress.LowerChar | functions/api/subscribe.ts:36 | a lower-cased character is never A–Z and is white space exactly when the original was |
| EmailAddress.LowerCharMapsOnlyCapitals | functions/api/subscribe.ts:36 | A–Z move up by 32 code points to a–z, and every other character is kept |
| EmailAddress.TrimLower | functions/api/subscribe.ts:36 | trimming and lower-casing commute |
| EmailAddress.Normalize | functions/api/subscribe.ts:36 | the normalised address has no white space at its ends and no upper-case letter, and is no longer than the candidate |
| EmailAddress.NormalFormIsFixed | functions/api/subscribe.ts:36 | a string without surrounding white space and without upper-case letters normalises to itself |
| EmailAddress.NormalizeIdempotent | functions/api/subscribe.ts:36 | normalising twice gives the same result as normalising once |
| EmailAddress.SameAddressUpToCaseAndSpace | functions/api/subscribe.ts:36 | candidates that differ only in letter case and surrounding white space normalise to the same address |
| EmailAddress.NormalizeExample | functions/api/subscribe.ts:36 | `"  User@Example.COM "` normalises to `"user@example.com"` |
| EmailAddress.IsValidEmail | functions/api/subscribe.ts:37 | `emailPattern.test` with the pattern of line 13, as a character-level test; `ValidEmailIffPattern` proves it accepts exactly the language of the regular expression |
| EmailAddress.IndexOf | functions/api/subscribe.ts:13 | the position found is the first occurrence of the character; there is none exactly when the character does not occur |
| EmailAddress.ValidEmailIffPattern | functions/api/subscribe.ts:13 | the validation test accepts a string if and only if it is in the language of `^[^\s@]+@[^\s@]+\.[^\s@]+$`: three non-empty runs of non-space, non-`@` characters joined by `@` and `.` |
| EmailAddress.PatternHasOnlyOneAt | functions/api/subscribe.ts:13 | the `@` at which a string splits as the pattern demands is the string's first `@`, and the string passes the test |
| EmailAddress.EmptyIsInvalid | functions/api/subscribe.ts:37 | the empty string is rejected |
| EmailAddress.NoDotAfterAtIsInvalid | functions/api/subscribe.ts:37 | a string with an `@` that has no `.` after it is rejected |
| EmailAddress.NoAtIsInvalid | functions/api/subscribe.ts:37 | a string without `@` is rejected |
| EmailAddress.SpaceIsInvalid | functions/api/subscribe.ts:37 | a string that contains white space anywhere is rejected |
| EmailAddress.ValidExample | functions/api/subscribe.ts:37 | `test@example.com` is accepted |
| EmailAddress.ShortAddressSample | functions/api/subscribe.ts:36-37 | `a@b.com` is already in normal form and is accepted |
| EmailAddress.NoAddressSample | functions/api/subscribe.ts:36-37 | `not-an-email` is already in normal form and is rejected |
| EmailAddress.StorageKey | functions/api/subscribe.ts:41 | the key is `email:` followed by exactly the address |
| EmailAddress.StorageKeyInjective | functions/api/subscribe.ts:41 | different addresses never share a key |
| Json.Stringify | functions/api/subscribe.ts:51 | the serialised object text is delimited by `{` and `}` |
| Json.StringifyRoundTrip | functions/api/subscribe.ts:51 | parsing the text `JSON.stringify` writes recovers every member, name and value, in order |
| Subscribe.Includes | functions/api/subscribe.ts:20 | `contentType.includes(...)`; `IncludesIffOccurs` proves it true exactly when the text occurs somewhere in the string |
| Subscribe.OccurrenceIsIncluded | functions/api/subscribe.ts:20 | an occurrence at any position makes `includes` true |
| Subscribe.IncludedOccurs | functions/api/subscribe.ts:20 | `includes` is true only when there is an occurrence |
| Subscribe.IncludesIffOccurs | functions/api/subscribe.ts:20 | `includes` is true if and only if the text occurs at some position |
| Subscribe.ShorterExcludes | functions/api/subscribe.ts:20 | a string shorter than the text never includes it |
| Subscribe.CaseSensitiveContentType | functions/api/subscribe.ts:17-20 | a content type spelled `Application/JSON` does not select the JSON decoder |
| Subscribe.IsJsonRequest | functions/api/subscribe.ts:17-20 | the JSON decoder is chosen when the `content-type` header, `""` when absent, includes `application/json`; `IncludesIffOccurs` and `CaseSensitiveContentType` state what that means |
| Subscribe.FormGet | functions/api/subscribe.ts:27 | `formData.get`; `FormGetFindsFirst` characterises it |
| Subscribe.FormGetFindsFirst | functions/api/subscribe.ts:27 | `formData.get` finds nothing exactly when no field has the name, and otherwise returns the value of the first field with that name |
| Subscribe.CandidateExtraction | functions/api/subscribe.ts:16-34 | the JSON path yields a candidate exactly when the body is an object with a string `email` member, and yields that string; the form path exactly when the first `email` field is text; a throwing decoder yields none |
| Subscribe.Candidate | functions/api/subscribe.ts:16-34 | the address the decoding step yields, if any; `CandidateExtraction` characterises it branch by branch |
| Subscribe.ReadEmail | functions/api/subscribe.ts:16-34 | the `email` variable after the `try` block of lines 19-34, whichever decoder branch it takes, is the candidate, or `""` when there is none |
| Subscribe.NormalizedEmail | functions/api/subscribe.ts:36 | the candidate, or `""`, after `trim().toLowerCase()`; `Normalize`, `NormalizeIdempotent` and `SameKeyUpToCaseAndSpace` state its properties |
| Subscribe.JsonResponse | functions/api/subscribe.ts:57-64 | `jsonResponse`; `JsonResponseShape` and `ResponseHeaders` characterise it |
| Subscribe.RejectResponse | functions/api/subscribe.ts:38 | the 400 answer; `JsonResponseShape` gives its status and body, `RejectionLeavesStoreAlone` says when it is sent |
| Subscribe.AcceptResponse | functions/api/subscribe.ts:54 | the 200 answer; `JsonResponseShape` gives its status and body, `ValidAddressAccepted` says when it is sent |
| Subscribe.JsonResponseShape | functions/api/subscribe.ts:57-64 | a response has the status it was given, the JSON and no-store headers, and a body that parses back to its reply |
| Subscribe.EncodeRecord | functions/api/subscribe.ts:51 | a stored record is never empty, so it is truthy when read back |
| Subscribe.RecordRoundTrip | functions/api/subscribe.ts:46-51 | the stored text parses back to exactly the record written: address, time and user agent |
| Subscribe.Lookup | functions/api/subscribe.ts:42 | what `get` answers on a given set of entries; `KvNamespace.Get` is proved to return it |
| Subscribe.Truthy | functions/api/subscribe.ts:44 | the negation of `!existing`: a value is present and not `""`; `EncodeRecord` makes every stored record truthy, `FirstWriteWins` and `InsertWhenAbsent` state the two branches |
| Subscribe.KvNamespace.constructor | functions/api/subscribe.ts:2-5 | a namespace starts with the given entries and no recorded calls |
| Subscribe.KvNamespace.Get | functions/api/subscribe.ts:3 | `get` returns the value stored under the key, or nothing, changes no entry and records the read |
| Subscribe.KvNamespace.Put | functions/api/subscribe.ts:4 | `put` sets exactly that key to that value and records the write |
| Subscribe.PostOutcome | functions/api/subscribe.ts:15-55 | the handler as a function of the entries, the request and the time; `OnRequestPost` is proved equal to it, and the lemmas below state its behaviour |
| Subscribe.OnRequestPost | functions/api/subscribe.ts:15-55 | the handler's response, the namespace's new entries and the calls it makes are those of `PostOutcome` on the entries it started from |
| Subscribe.RejectionLeavesStoreAlone | functions/api/subscribe.ts:37-39 | a normalised address is invalid if and only if the answer is 400 with `{"success":false,"error":"invalid_email"}`, the entries are unchanged and the namespace is never called |
| Subscribe.ValidAddressAccepted | functions/api/subscribe.ts:54 | a normalised address is valid if and only if the answer is 200 with `{"success":true}`, whether or not anything was written |
| Subscribe.ResponseHeaders | functions/api/subscribe.ts:57-64 | every answer carries `content-type: application/json` and `cache-control: no-store` |
| Subscribe.InsertWhenAbsent | functions/api/subscribe.ts:41-52 | for a valid address whose key holds nothing truthy, the handler reads the key once and then writes it once; the value written parses back to the record of the address, `now` and the user agent (or `""`); no other key changes |
| Subscribe.FirstWriteWins | functions/api/subscribe.ts:42-44 | when the key already holds a truthy value, the entries are unchanged and the only call is the read |
| Subscribe.AccessesOnlyTheKey | functions/api/subscribe.ts:41-52 | the handler makes no call, or reads the key once, or reads it once and then writes it once with the value it leaves there; the key is `email:<normalised candidate>` |
| Subscribe.OnlyTheKeyChanges | functions/api/subscribe.ts:41-52 | no key other than `email:<normalised candidate>` changes |
| Subscribe.NoCandidateIsRejected | functions/api/subscribe.ts:16-39 | a request with no candidate, for whatever reason, is rejected and leaves the namespace untouched |
| Subscribe.ParseErrorLikeMissingField | functions/api/subscribe.ts:19-34 | a JSON body the decoder throws on is answered like an object without `email` |
| Subscribe.ResubmissionIsNoOp | functions/api/subscribe.ts:41-52 | a second request whose candidate normalises to the same address leaves the entries as the first request left them, and gets the same answer |
| Subscribe.FirstTimestampKept | functions/api/subscribe.ts:44-50 | when the first request for a valid address finds nothing truthy under its key, the record stored after it and a resubmission still carries the time of the first request |
| Subscribe.SameKeyUpToCaseAndSpace | functions/api/subscribe.ts:36-41 | requests whose candidates differ only in letter case and surrounding white space address the same key |
| Subscribe.PostKeepsRecordsMatchingKeys | functions/api/subscribe.ts:41-51 | the handler keeps this invariant: every truthy value under an `email:` key is the record of a valid, normalised address stored under that address's own key |
| Subscribe.UpdateKeepsRecordsMatchingKeys | functions/api/subscribe.ts:51 | writing a matching record under its own key keeps the invariant |
| Subscribe.OneRecordPerAddress | functions/api/subscribe.ts:41 | under the invariant, two records for the same address are stored under the same key |
| Subscribe.SampleNormalForm | functions/api/subscribe.ts:36 | `Test@Example.com` normalises to `test@example.com` |
| Subscribe.JsonSample | functions/api/subscribe.ts:15-55 | a JSON request with `{"email":"Test@Example.com"}` and no existing entry is accepted and writes the record under `email:test@example.com` |
| Subscribe.FormSample | functions/api/subscribe.ts:26-39 | a form request with `email=not-an-email` is rejected and leaves the namespace untouched |
| Subscribe.FormAcceptSample | functions/api/subscribe.ts:15-55 | a form request with `email=a@b.com` and no entry under `email:a@b.com` is accepted and writes the record of `a@b.com`, `now` and an empty user agent there |

Two notes on where the model follows the code:
- A JSON body that parses to an array, a number, `null` or a string yields no
  candidate. Such values are not objects with an own `email` field.
- `includes('application/json')` is case-sensitive. A content type spelled
  `Application/JSON` takes the form path; `Subscribe.CaseSensitiveContentType`
  proves the model does the same.

## Left out

- Body decoding: `request.json()` and `request.formData()` are not modelled. The request carries their outcome, a value or `Threw`.
- JSON decoding: numbers in decoded JSON are `real`s, and duplicate member names are already merged into a map.
- The clock: `new Date().toISOString()` becomes the `now` parameter. Its format is not modelled.
- Header lookup: `headers.get` is case-insensitive and joins repeated headers. Both are taken as done; the request carries the resulting `content-type` and `user-agent` values, or `None` for `null`.
- EmailAddress.Lower: maps only A–Z to a–z. The Unicode case mappings of `toLowerCase` (such as `Ä` to `ä`, or `İ` to two code points) are not modelled.
- EmailAddress.IsSpace: covers the white-space set ECMAScript uses for `trim` and `\s`, on Unicode scalar values. JavaScript strings are sequences of UTF-16 code units; lone surrogates and UTF-16 lengths are not modelled.
- Json.Stringify: covers only objects whose members are booleans or strings, the shapes the handler serialises.
- Concurrency: the read at line 42 and the write at line 51 are not atomic. Two concurrent requests for a new address can both write it. The model runs one request at a time.
- Failures: `get` and `put` on the namespace are assumed not to fail or reject.
- The `Response` object and HTTP transport: the response is the datatype `(status, body, headers)`.
- jsonResponse's default `status = 200`: not modelled. Both calls in the handler pass a status explicitly.
- `src/App.tsx`, `tailwind.config.js` and `vite.config.ts`: these are user interface, styling and build configuration, outside this model.
