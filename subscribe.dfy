/**
 * The sign-up endpoint `onRequestPost` of functions/api/subscribe.ts: it
 * extracts an email candidate from a JSON or form body, normalises and
 * validates it, and records a subscriber under `email:<address>` in a
 * key-value namespace unless a truthy value is already stored there.
 *
 * The outside world is reduced to values: the request carries what the body
 * decoders would return (or that they threw), the clock is the `now`
 * argument, and the key-value namespace is an object whose `Get` and `Put`
 * keep a log of the keys they touched.
 */
module Subscribe {
  import opened Wrappers
  import opened Json
  import opened EmailAddress

  // ---------------------------------------------------------------------------
  // Requests

  /** A parsed JSON value, as `request.json()` resolves it. */
  datatype JsonValue =
    | JNull
    | JBool(b: bool)
    | JNumber(n: real)
    | JString(s: string)
    | JArray(items: seq<JsonValue>)
    | JObject(members: map<string, JsonValue>)

  /** A value of `FormData`: text, or an uploaded file (kept by name only). */
  datatype FormEntry = FormText(text: string) | FormFile(fileName: string)

  /** The outcome of a body decoder: its value, or the exception it threw. */
  datatype Decoded<T> = Threw | Decoded(value: T)

  /**
   * The parts of a request the handler looks at: the `content-type` and
   * `user-agent` headers (absent when `headers.get` returns null) and what
   * `request.json()` and `request.formData()` would produce on its body.
   * Form data is the ordered list of its name/value pairs.
   */
  datatype Request = Request(
    contentType: Option<string>,
    userAgent: Option<string>,
    json: Decoded<JsonValue>,
    form: Decoded<seq<(string, FormEntry)>>)

  /** `s.includes(sub)`: `sub` occurs somewhere in `s`. */
  predicate Includes(s: string, sub: string)
    decreases |s|
  {
    (|sub| <= |s| && s[..|sub|] == sub) || (s != [] && Includes(s[1..], sub))
  }

  /** `sub` occurs in `s` starting at position `i`. */
  predicate OccursAt(s: string, sub: string, i: nat) {
    i + |sub| <= |s| && s[i..i + |sub|] == sub
  }

  /** An occurrence anywhere makes `includes` true. */
  lemma {:induction false} OccurrenceIsIncluded(s: string, sub: string, i: nat)
    requires OccursAt(s, sub, i)
    ensures Includes(s, sub)
    decreases i
  {
    if i > 0 {
      assert s[1..][i - 1..i - 1 + |sub|] == s[i..i + |sub|];
      OccurrenceIsIncluded(s[1..], sub, i - 1);
    }
  }

  /** `includes` is true only when there is an occurrence. */
  lemma {:induction false} IncludedOccurs(s: string, sub: string)
    requires Includes(s, sub)
    ensures exists i: nat :: OccursAt(s, sub, i)
    decreases |s|
  {
    if |sub| <= |s| && s[..|sub|] == sub {
      assert OccursAt(s, sub, 0);
    } else {
      IncludedOccurs(s[1..], sub);
      var i: nat :| OccursAt(s[1..], sub, i);
      assert s[i + 1..i + 1 + |sub|] == s[1..][i..i + |sub|];
      assert OccursAt(s, sub, i + 1);
    }
  }

  /** `includes` is true exactly when `sub` occurs somewhere in `s`. */
  lemma IncludesIffOccurs(s: string, sub: string)
    ensures Includes(s, sub) <==> exists i: nat :: OccursAt(s, sub, i)
  {
    if Includes(s, sub) {
      IncludedOccurs(s, sub);
    }
    if exists i: nat :: OccursAt(s, sub, i) {
      var i: nat :| OccursAt(s, sub, i);
      OccurrenceIsIncluded(s, sub, i);
    }
  }

  /** A string shorter than `sub` never includes it. */
  lemma {:induction false} ShorterExcludes(s: string, sub: string)
    requires |s| < |sub|
    ensures !Includes(s, sub)
    decreases |s|
  {
    if s != [] {
      ShorterExcludes(s[1..], sub);
    }
  }

  /** `includes` is case-sensitive: `Application/JSON` does not select the JSON decoder. */
  lemma CaseSensitiveContentType(req: Request)
    requires req.contentType == Some("Application/JSON")
    ensures !IsJsonRequest(req)
  {
    var s := req.contentType.value;
    assert s[0] != "application/json"[0];
    ShorterExcludes(s[1..], "application/json");
  }

  /** The body is read as JSON exactly when the content type mentions `application/json`. */
  predicate IsJsonRequest(req: Request) {
    Includes(req.contentType.GetOr(""), "application/json")
  }

  /** `FormData.get(name)`: the first value stored under `name`. */
  function FormGet(entries: seq<(string, FormEntry)>, name: string): Option<FormEntry> {
    if entries == [] then None
    else if entries[0].0 == name then Some(entries[0].1)
    else FormGet(entries[1..], name)
  }

  /** `FormGet` finds the first entry under `name`, and nothing when there is none. */
  lemma {:induction false} FormGetFindsFirst(entries: seq<(string, FormEntry)>, name: string)
    ensures FormGet(entries, name).None? <==> forall k | 0 <= k < |entries| :: entries[k].0 != name
    ensures FormGet(entries, name).Some? ==> exists k | 0 <= k < |entries| ::
      entries[k] == (name, FormGet(entries, name).value) && forall m | 0 <= m < k :: entries[m].0 != name
  {
    if entries != [] && entries[0].0 != name {
      FormGetFindsFirst(entries[1..], name);
      assert forall k | 1 <= k < |entries| :: entries[k] == entries[1..][k - 1];
      if FormGet(entries, name).Some? {
        var k :| 0 <= k < |entries[1..]| && entries[1..][k] == (name, FormGet(entries, name).value)
          && forall m | 0 <= m < k :: entries[1..][m].0 != name;
        assert entries[k + 1] == (name, FormGet(entries, name).value);
      }
    }
  }

  /**
   * The email candidate of a request, `None` where the source leaves `email`
   * as the empty string.
   */
  function Candidate(req: Request): Option<string> {
    if IsJsonRequest(req) then
      match req.json
      case Decoded(JObject(m)) =>
        if "email" in m && m["email"].JString? then Some(m["email"].s) else None
      case _ => None
    else
      match req.form
      case Threw => None
      case Decoded(entries) =>
        match FormGet(entries, "email")
        case Some(FormText(t)) => Some(t)
        case _ => None
  }

  /**
   * The JSON path yields a candidate exactly when the body decodes to an
   * object whose `email` member is a string, and then yields that string; the
   * form path exactly when the first `email` field is text. A decoder that
   * throws yields nothing.
   */
  lemma CandidateExtraction(req: Request)
    ensures IsJsonRequest(req) ==>
      (Candidate(req).Some? <==>
        (req.json.Decoded? && req.json.value.JObject? &&
         "email" in req.json.value.members && req.json.value.members["email"].JString?))
    ensures IsJsonRequest(req) && Candidate(req).Some? ==>
      req.json.value.members["email"] == JString(Candidate(req).value)
    ensures !IsJsonRequest(req) ==>
      (Candidate(req).Some? <==>
        (req.form.Decoded? && FormGet(req.form.value, "email").Some? &&
         FormGet(req.form.value, "email").value.FormText?))
    ensures !IsJsonRequest(req) && Candidate(req).Some? ==>
      FormGet(req.form.value, "email") == Some(FormText(Candidate(req).value))
    ensures (IsJsonRequest(req) && req.json.Threw?) || (!IsJsonRequest(req) && req.form.Threw?) ==>
      Candidate(req).None?
  {
  }

  /** The candidate after `email.trim().toLowerCase()`, the empty string when there was none. */
  function NormalizedEmail(req: Request): string {
    Normalize(Candidate(req).GetOr(""))
  }

  // ---------------------------------------------------------------------------
  // Responses

  /** The two JSON bodies the endpoint answers with. */
  datatype Reply = Accepted | Rejected(error: string)

  /** `{ success: true }` or `{ success: false, error }`, members in that order. */
  function ReplyFields(reply: Reply): seq<Field> {
    match reply
    case Accepted => [("success", Bool(true))]
    case Rejected(e) => [("success", Bool(false)), ("error", Str(e))]
  }

  datatype Response = Response(status: int, body: string, headers: seq<(string, string)>)

  const JsonHeaders: seq<(string, string)> :=
    [("content-type", "application/json"), ("cache-control", "no-store")]

  /** `jsonResponse(body, status)`: the JSON text of `reply` with the JSON, no-store headers. */
  function JsonResponse(reply: Reply, status: int): Response {
    Response(status, Stringify(ReplyFields(reply)), JsonHeaders)
  }

  /** A response carries the status it was given, both headers, and a body that reads back as its reply. */
  lemma JsonResponseShape(reply: Reply, status: int)
    ensures JsonResponse(reply, status).status == status
    ensures JsonResponse(reply, status).headers ==
      [("content-type", "application/json"), ("cache-control", "no-store")]
    ensures ParseObject(JsonResponse(reply, status).body) == Some(ReplyFields(reply))
  {
    StringifyRoundTrip(ReplyFields(reply));
  }

  const InvalidEmail: string := "invalid_email"

  function RejectResponse(): Response {
    JsonResponse(Rejected(InvalidEmail), 400)
  }

  function AcceptResponse(): Response {
    JsonResponse(Accepted, 200)
  }

  // ---------------------------------------------------------------------------
  // Subscriber records

  /** The stored entry `{ email, submittedAt, userAgent }`. */
  datatype SubscriberRecord = SubscriberRecord(email: string, submittedAt: string, userAgent: string)

  function RecordFields(r: SubscriberRecord): seq<Field> {
    [("email", Str(r.email)), ("submittedAt", Str(r.submittedAt)), ("userAgent", Str(r.userAgent))]
  }

  /** `JSON.stringify(entry)`: never the empty string, so a stored record is always truthy. */
  function EncodeRecord(r: SubscriberRecord): (text: string)
    ensures |text| >= 2
  {
    Stringify(RecordFields(r))
  }

  /** Reads a stored value back as a record, if it has exactly the record's shape. */
  function DecodeRecord(text: string): Option<SubscriberRecord> {
    match ParseObject(text)
    case None => None
    case Some(fs) =>
      if |fs| == 3 && fs[0].0 == "email" && fs[1].0 == "submittedAt" && fs[2].0 == "userAgent"
         && fs[0].1.Str? && fs[1].1.Str? && fs[2].1.Str?
      then Some(SubscriberRecord(fs[0].1.s, fs[1].1.s, fs[2].1.s))
      else None
  }

  /** A stored record reads back as exactly the record that was written. */
  lemma RecordRoundTrip(r: SubscriberRecord)
    ensures DecodeRecord(EncodeRecord(r)) == Some(r)
  {
    StringifyRoundTrip(RecordFields(r));
  }

  // ---------------------------------------------------------------------------
  // The key-value namespace

  /** One call on the namespace. */
  datatype Access = GetKey(key: string) | PutKey(key: string, value: string)

  /** `Get`'s answer: the stored value, or `None` for the namespace's `null`. */
  function Lookup(store: map<string, string>, key: string): Option<string> {
    if key in store then Some(store[key]) else None
  }

  /** JavaScript truthiness of the looked-up value: `null` and `""` are falsy. */
  predicate Truthy(v: Option<string>) {
    v.Some? && v.value != ""
  }

  /** The `EMAIL_SUBSCRIBERS` namespace: its entries, and a log of every call made on it. */
  class KvNamespace {
    var entries: map<string, string>
    ghost var log: seq<Access>

    constructor (initial: map<string, string>)
      ensures entries == initial && log == []
    {
      entries := initial;
      log := [];
    }

    method Get(key: string) returns (v: Option<string>)
      modifies this`log
      ensures v == Lookup(entries, key)
      ensures log == old(log) + [GetKey(key)]
    {
      v := if key in entries then Some(entries[key]) else None;
      log := log + [GetKey(key)];
    }

    method Put(key: string, value: string)
      modifies this
      ensures entries == old(entries)[key := value]
      ensures log == old(log) + [PutKey(key, value)]
    {
      entries := entries[key := value];
      log := log + [PutKey(key, value)];
    }
  }

  // ---------------------------------------------------------------------------
  // The handler

  /** What one request does: its response, the namespace afterwards, and the calls it made. */
  datatype Outcome = Outcome(response: Response, store: map<string, string>, accesses: seq<Access>)

  /**
   * One run of `onRequestPost` on `store` (lines 15-55): reject an invalid
   * address before touching the store; otherwise read the key, write a new
   * record only when the value read is falsy, and acknowledge.
   */
  function PostOutcome(store: map<string, string>, req: Request, now: string): Outcome {
    var email := NormalizedEmail(req);
    if !IsValidEmail(email) then
      Outcome(RejectResponse(), store, [])
    else
      var key := StorageKey(email);
      if Truthy(Lookup(store, key)) then
        Outcome(AcceptResponse(), store, [GetKey(key)])
      else
        var value := EncodeRecord(SubscriberRecord(email, now, req.userAgent.GetOr("")));
        Outcome(AcceptResponse(), store[key := value], [GetKey(key), PutKey(key, value)])
  }

  /** The three paths of `PostOutcome`, one lemma each. */
  lemma PostRejects(store: map<string, string>, req: Request, now: string)
    requires !IsValidEmail(NormalizedEmail(req))
    ensures PostOutcome(store, req, now) == Outcome(RejectResponse(), store, [])
  {
  }

  lemma PostKeeps(store: map<string, string>, req: Request, now: string)
    requires IsValidEmail(NormalizedEmail(req))
    requires Truthy(Lookup(store, StorageKey(NormalizedEmail(req))))
    ensures PostOutcome(store, req, now) ==
      Outcome(AcceptResponse(), store, [GetKey(StorageKey(NormalizedEmail(req)))])
  {
  }

  lemma PostInserts(store: map<string, string>, req: Request, now: string)
    requires IsValidEmail(NormalizedEmail(req))
    requires !Truthy(Lookup(store, StorageKey(NormalizedEmail(req))))
    ensures var key := StorageKey(NormalizedEmail(req));
      var value := EncodeRecord(SubscriberRecord(NormalizedEmail(req), now, req.userAgent.GetOr("")));
      PostOutcome(store, req, now) ==
        Outcome(AcceptResponse(), store[key := value], [GetKey(key), PutKey(key, value)])
  {
  }

  lemma AppendTwo<T>(s: seq<T>, a: T, b: T)
    ensures s + [a] + [b] == s + [a, b]
  {
  }

  /**
   * The `email` variable after the `try` block of lines 19-34, whichever
   * decoder branch it takes: the empty string unless the decoder chosen by the
   * content type succeeds and yields a string (JSON) or a text field (form)
   * under `email`.
   */
  method ReadEmail(req: Request) returns (email: string)
    ensures email == Candidate(req).GetOr("")
  {
    email := "";
    var contentType := req.contentType.GetOr("");
    if Includes(contentType, "application/json") {
      match req.json {
        case Decoded(data) =>
          if data.JObject? && "email" in data.members && data.members["email"].JString? {
            email := data.members["email"].s;
          }
        case Threw =>
      }
    } else {
      match req.form {
        case Decoded(formData) =>
          var field := FormGet(formData, "email");
          if field.Some? && field.value.FormText? {
            email := field.value.text;
          }
        case Threw =>
      }
    }
  }

  /** `onRequestPost`: handles one request against the namespace `env`, at time `now`. */
  method OnRequestPost(req: Request, env: KvNamespace, now: string) returns (resp: Response)
    modifies env
    ensures resp == PostOutcome(old(env.entries), req, now).response
    ensures env.entries == PostOutcome(old(env.entries), req, now).store
    ensures env.log == old(env.log) + PostOutcome(old(env.entries), req, now).accesses
  {
    var email := ReadEmail(req);
    email := Normalize(email);
    if !IsValidEmail(email) {
      PostRejects(env.entries, req, now);
      return RejectResponse();
    }

    ghost var log0 := env.log;
    var key := StorageKey(email);
    var existing := env.Get(key);
    if !Truthy(existing) {
      PostInserts(env.entries, req, now);
      var userAgent := req.userAgent.GetOr("");
      var entry := SubscriberRecord(email, now, userAgent);
      env.Put(key, EncodeRecord(entry));
      AppendTwo(log0, GetKey(key), PutKey(key, EncodeRecord(entry)));
    } else {
      PostKeeps(env.entries, req, now);
    }
    return AcceptResponse();
  }

  // ---------------------------------------------------------------------------
  // Properties of one request

  /** An address that fails the pattern gets 400 `invalid_email`, and the store is neither read nor written. */
  lemma RejectionLeavesStoreAlone(store: map<string, string>, req: Request, now: string)
    ensures var o := PostOutcome(store, req, now);
      !IsValidEmail(NormalizedEmail(req)) <==>
        (o.response.status == 400 && o.store == store && o.accesses == [] &&
         ParseObject(o.response.body) == Some([("success", Bool(false)), ("error", Str("invalid_email"))]))
  {
    JsonResponseShape(Rejected(InvalidEmail), 400);
    JsonResponseShape(Accepted, 200);
    var key := StorageKey(NormalizedEmail(req));
    if !IsValidEmail(NormalizedEmail(req)) {
      PostRejects(store, req, now);
    } else if Truthy(Lookup(store, key)) {
      PostKeeps(store, req, now);
    } else {
      PostInserts(store, req, now);
    }
  }

  /** A valid address always gets 200 `{ success: true }`, written or not. */
  lemma ValidAddressAccepted(store: map<string, string>, req: Request, now: string)
    ensures var o := PostOutcome(store, req, now);
      IsValidEmail(NormalizedEmail(req)) <==>
        (o.response.status == 200 && ParseObject(o.response.body) == Some([("success", Bool(true))]))
  {
    JsonResponseShape(Rejected(InvalidEmail), 400);
    JsonResponseShape(Accepted, 200);
  }

  /** Every response is JSON and must not be cached. */
  lemma ResponseHeaders(store: map<string, string>, req: Request, now: string)
    ensures PostOutcome(store, req, now).response.headers ==
      [("content-type", "application/json"), ("cache-control", "no-store")]
  {
  }

  /**
   * A valid address whose key holds nothing truthy is written exactly once,
   * under `email:<address>`, as the record of the address, the time and the
   * user agent (or `""`).
   */
  lemma InsertWhenAbsent(store: map<string, string>, req: Request, now: string)
    requires IsValidEmail(NormalizedEmail(req))
    requires !Truthy(Lookup(store, StorageKey(NormalizedEmail(req))))
    ensures var o := PostOutcome(store, req, now);
      var email := NormalizedEmail(req);
      var key := StorageKey(email);
      && key in o.store
      && DecodeRecord(o.store[key]) == Some(SubscriberRecord(email, now, req.userAgent.GetOr("")))
      && o.store == store[key := o.store[key]]
      && o.accesses == [GetKey(key), PutKey(key, o.store[key])]
  {
    RecordRoundTrip(SubscriberRecord(NormalizedEmail(req), now, req.userAgent.GetOr("")));
  }

  /** An existing truthy value is kept as it is: the first submission's record, with its time, wins. */
  lemma FirstWriteWins(store: map<string, string>, req: Request, now: string)
    requires IsValidEmail(NormalizedEmail(req))
    requires Truthy(Lookup(store, StorageKey(NormalizedEmail(req))))
    ensures PostOutcome(store, req, now).store == store
    ensures PostOutcome(store, req, now).accesses == [GetKey(StorageKey(NormalizedEmail(req)))]
  {
  }

  /**
   * The handler reads `email:<normalised candidate>` at most once, and writes
   * it at most once, only after reading it, with the value it leaves there.
   */
  lemma AccessesOnlyTheKey(store: map<string, string>, req: Request, now: string)
    ensures var o := PostOutcome(store, req, now);
      var key := StorageKey(NormalizedEmail(req));
      || o.accesses == []
      || o.accesses == [GetKey(key)]
      || (key in o.store && o.accesses == [GetKey(key), PutKey(key, o.store[key])])
  {
    var key := StorageKey(NormalizedEmail(req));
    if !IsValidEmail(NormalizedEmail(req)) {
      PostRejects(store, req, now);
    } else if Truthy(Lookup(store, key)) {
      PostKeeps(store, req, now);
    } else {
      PostInserts(store, req, now);
    }
  }

  /** No key other than `email:<normalised candidate>` changes. */
  lemma OnlyTheKeyChanges(store: map<string, string>, req: Request, now: string)
    ensures var o := PostOutcome(store, req, now);
      forall k | k != StorageKey(NormalizedEmail(req)) :: Lookup(o.store, k) == Lookup(store, k)
  {
    var key := StorageKey(NormalizedEmail(req));
    if !IsValidEmail(NormalizedEmail(req)) {
      PostRejects(store, req, now);
    } else if Truthy(Lookup(store, key)) {
      PostKeeps(store, req, now);
    } else {
      PostInserts(store, req, now);
    }
  }

  /** When nothing could be extracted, whatever the reason, the request is rejected untouched. */
  lemma NoCandidateIsRejected(store: map<string, string>, req: Request, now: string)
    requires Candidate(req).None?
    ensures PostOutcome(store, req, now) == Outcome(RejectResponse(), store, [])
  {
    assert Normalize("") == "";
    EmptyIsInvalid();
  }

  /**
   * A body the JSON decoder throws on is answered exactly like a body
   * without an email field: decoding errors are not told apart.
   */
  lemma ParseErrorLikeMissingField(store: map<string, string>, req: Request, now: string)
    requires IsJsonRequest(req)
    ensures var thrown := req.(json := Threw);
      var empty := req.(json := Decoded(JObject(map[])));
      PostOutcome(store, thrown, now) == PostOutcome(store, empty, now) == Outcome(RejectResponse(), store, [])
  {
    NoCandidateIsRejected(store, req.(json := Threw), now);
    NoCandidateIsRejected(store, req.(json := Decoded(JObject(map[]))), now);
  }

  // ---------------------------------------------------------------------------
  // Properties of several requests

  /**
   * Submitting an address again, however it is cased or padded, changes
   * nothing: the store and the response are those of the first submission.
   */
  lemma ResubmissionIsNoOp(store: map<string, string>, first: Request, t1: string, again: Request, t2: string)
    requires NormalizedEmail(again) == NormalizedEmail(first)
    ensures var o1 := PostOutcome(store, first, t1);
      var o2 := PostOutcome(o1.store, again, t2);
      o2.store == o1.store && o2.response == o1.response
  {
    var email := NormalizedEmail(first);
    var key := StorageKey(email);
    var o1 := PostOutcome(store, first, t1);
    if IsValidEmail(email) {
      assert Truthy(Lookup(o1.store, key)) by {
        if !Truthy(Lookup(store, key)) {
          var value := EncodeRecord(SubscriberRecord(email, t1, first.userAgent.GetOr("")));
          assert o1.store == store[key := value];
        }
      }
      assert o1.response == AcceptResponse();
    }
  }

  /** A second submission keeps the time of the first one, which created the record. */
  lemma FirstTimestampKept(store: map<string, string>, first: Request, t1: string, again: Request, t2: string)
    requires IsValidEmail(NormalizedEmail(first))
    requires !Truthy(Lookup(store, StorageKey(NormalizedEmail(first))))
    requires NormalizedEmail(again) == NormalizedEmail(first)
    ensures var o2 := PostOutcome(PostOutcome(store, first, t1).store, again, t2);
      var key := StorageKey(NormalizedEmail(first));
      key in o2.store && DecodeRecord(o2.store[key]).Some? && DecodeRecord(o2.store[key]).value.submittedAt == t1
  {
    ResubmissionIsNoOp(store, first, t1, again, t2);
    InsertWhenAbsent(store, first, t1);
  }

  /** Two submissions whose candidates differ only in case and padding address the same record. */
  lemma SameKeyUpToCaseAndSpace(r1: Request, r2: Request, w1: string, a: string, w2: string, w3: string, b: string, w4: string)
    requires Candidate(r1) == Some(w1 + a + w2) && Candidate(r2) == Some(w3 + b + w4)
    requires AllSpace(w1) && AllSpace(w2) && AllSpace(w3) && AllSpace(w4)
    requires Lower(a) == Lower(b)
    ensures StorageKey(NormalizedEmail(r1)) == StorageKey(NormalizedEmail(r2))
  {
    SameAddressUpToCaseAndSpace(w1, a, w2, w3, b, w4);
  }

  // ---------------------------------------------------------------------------
  // The store invariant

  /**
   * Every truthy value under an `email:` key is the record of a valid,
   * normalised address whose key it is stored under.
   */
  ghost predicate RecordsMatchKeys(store: map<string, string>) {
    forall k | k in store && IsSubscriberKey(k) && store[k] != "" :: RecordMatchesKey(k, store[k])
  }

  /** A key in the subscribers' part of the namespace. */
  predicate IsSubscriberKey(k: string) {
    |k| >= |KeyPrefix| && k[..|KeyPrefix|] == KeyPrefix
  }

  /** `value` is the record of a valid, normalised address whose key is `k`. */
  ghost predicate RecordMatchesKey(k: string, value: string) {
    match DecodeRecord(value)
    case None => false
    case Some(r) => k == StorageKey(r.email) && IsValidEmail(r.email) && Normalize(r.email) == r.email
  }

  /** The handler keeps the store invariant. */
  lemma PostKeepsRecordsMatchingKeys(store: map<string, string>, req: Request, now: string)
    requires RecordsMatchKeys(store)
    ensures RecordsMatchKeys(PostOutcome(store, req, now).store)
  {
    var email := NormalizedEmail(req);
    var key := StorageKey(email);
    if !IsValidEmail(email) {
      PostRejects(store, req, now);
    } else if Truthy(Lookup(store, key)) {
      PostKeeps(store, req, now);
    } else {
      var r := SubscriberRecord(email, now, req.userAgent.GetOr(""));
      PostInserts(store, req, now);
      RecordRoundTrip(r);
      NormalizeIdempotent(Candidate(req).GetOr(""));
      assert RecordMatchesKey(key, EncodeRecord(r));
      UpdateKeepsRecordsMatchingKeys(store, key, EncodeRecord(r));
    }
  }

  /** Storing a matching record keeps the invariant. */
  lemma UpdateKeepsRecordsMatchingKeys(store: map<string, string>, key: string, value: string)
    requires RecordsMatchKeys(store) && RecordMatchesKey(key, value)
    ensures RecordsMatchKeys(store[key := value])
  {
  }

  /** Under the invariant, two stored records for the same address are one and the same entry. */
  lemma OneRecordPerAddress(store: map<string, string>, k1: string, k2: string)
    requires RecordsMatchKeys(store)
    requires k1 in store && k2 in store && store[k1] != "" && store[k2] != ""
    requires IsSubscriberKey(k1) && IsSubscriberKey(k2)
    requires DecodeRecord(store[k1]).Some? && DecodeRecord(store[k2]).Some?
    requires DecodeRecord(store[k1]).value.email == DecodeRecord(store[k2]).value.email
    ensures k1 == k2
  {
  }

  // ---------------------------------------------------------------------------
  // The two sample requests

  /** POST JSON `{"email":"Test@Example.com"}`: 200, and the record lands under `email:test@example.com`. */
  lemma JsonSample(store: map<string, string>, ua: Option<string>, now: string, sent: string, stored: string)
    requires sent == "Test@Example.com" && stored == "test@example.com"
    requires "email:test@example.com" !in store
    ensures var req := Request(Some("application/json"), ua, Decoded(JObject(map["email" := JString(sent)])), Threw);
      var o := PostOutcome(store, req, now);
      && o.response == AcceptResponse()
      && o.store == store["email:test@example.com" := EncodeRecord(SubscriberRecord(stored, now, ua.GetOr("")))]
  {
    var req := Request(Some("application/json"), ua, Decoded(JObject(map["email" := JString(sent)])), Threw);
    assert IsJsonRequest(req);
    assert Candidate(req) == Some(sent);
    SampleNormalForm(sent, stored);
    assert NormalizedEmail(req) == stored;
    ValidExample();
    SampleKey(stored, "email:test@example.com");
    PostInserts(store, req, now);
  }

  lemma SampleKey(stored: string, key: string)
    requires stored == "test@example.com" && key == "email:test@example.com"
    ensures StorageKey(stored) == key
  {
    assert key[..|KeyPrefix|] == KeyPrefix;
    assert key[|KeyPrefix|..] == stored;
    assert key == key[..|KeyPrefix|] + key[|KeyPrefix|..];
  }

  lemma SampleNormalForm(sent: string, stored: string)
    requires sent == "Test@Example.com" && stored == "test@example.com"
    ensures Normalize(sent) == stored
  {
    assert !IsSpace(sent[0]) && !IsSpace(sent[|sent| - 1]);
    TrimmedIsFixed(sent);
    forall k | 0 <= k < |sent| ensures Lower(sent)[k] == stored[k] {
      LowerAt(sent, k);
    }
  }

  /** POST form `email=a@b.com`: 200, and the record lands under `email:a@b.com`. */
  lemma FormAcceptSample(store: map<string, string>, now: string, sent: string)
    requires sent == "a@b.com"
    requires "email:a@b.com" !in store
    ensures var req := Request(None, None, Threw, Decoded([("email", FormText(sent))]));
      var o := PostOutcome(store, req, now);
      && o.response == AcceptResponse()
      && o.store == store["email:a@b.com" := EncodeRecord(SubscriberRecord(sent, now, ""))]
  {
    var req := Request(None, None, Threw, Decoded([("email", FormText(sent))]));
    assert !IsJsonRequest(req);
    assert Candidate(req) == Some(sent);
    ShortAddressSample(sent);
    assert NormalizedEmail(req) == sent;
    FormSampleKey(sent, "email:a@b.com");
    PostInserts(store, req, now);
  }

  lemma FormSampleKey(sent: string, key: string)
    requires sent == "a@b.com" && key == "email:a@b.com"
    ensures StorageKey(sent) == key
  {
    assert key[..|KeyPrefix|] == KeyPrefix;
    assert key[|KeyPrefix|..] == sent;
    assert key == key[..|KeyPrefix|] + key[|KeyPrefix|..];
  }

  /** POST form `email=not-an-email`: 400 `invalid_email`, and nothing is written. */
  lemma FormSample(store: map<string, string>, now: string, sent: string)
    requires sent == "not-an-email"
    ensures var req := Request(None, None, Threw, Decoded([("email", FormText(sent))]));
      PostOutcome(store, req, now) == Outcome(RejectResponse(), store, [])
  {
    var req := Request(None, None, Threw, Decoded([("email", FormText(sent))]));
    assert !IsJsonRequest(req);
    assert Candidate(req) == Some(sent);
    NoAddressSample(sent);
    assert NormalizedEmail(req) == sent;
    PostRejects(store, req, now);
  }
}
