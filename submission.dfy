/** The Save Event handler of the entry form, as functions of the form's contents
    and of the data service's replies: reading the optional JSON text, assembling
    the event record, the upsert with its insert fallback, the success test, and
    the classification of a failure into the message shown to the user. */
module Submission {
  import opened Values
  import opened Remote
  import opened Text

  /** The two markers of a uniqueness violation in a lowered error text. */
  const DuplicateKey := "duplicate key"
  const UniqueViolation := "violates unique constraint"

  /** `str(e)` for the `KeyError` raised by `result.data[0]['id']` on a row without `id`. */
  const MissingIdMessage := "'id'"

  /** What the confirmation panel shows for an empty comment or falsy JSON data. */
  const NotAvailable := "N/A"

  const InvalidJsonBanner := "Neispravni JSON format!"
  const NoReturnDataBanner := "Dogodila se greška pri spremanju - nema povratnih podataka."
  const DuplicateBanner := "Greška: Pokušaj duplikatnog unosa. Molimo pokušajte ponovno."
  const DuplicateHint := "Savjet: Ako se greška ponavlja, kontaktirajte administratora za ispravak baze."
  const GenericPrefix := "Greška pri spremanju: "

  /** The keys an event record may carry; there is never an `id`. */
  const EventKeys: set<Column> := {CategoryId, OccurredAt, Comment, Data}

  /** The form as it stands when Save Event is pressed. `parsed` is what `json.loads`
      makes of `jsonText` (`None` for a `JSONDecodeError`); it is consulted only when
      the text is not blank. `occurredAt` is the date's `isoformat()` text. */
  datatype Form = Form(comment: string, jsonText: string, parsed: Option<Json>, occurredAt: string)

  /** The two kinds of save failure the handler tells apart. */
  datatype SaveError = DuplicateEntry | OtherError(raw: string)

  /** The confirmation panel shown after a successful save. */
  datatype Echo = Echo(id: Value, area: string, category: string, comment: string, date: string, data: Value)

  /** How one press of Save Event ends. */
  datatype SubmitOutcome =
    | InvalidJsonFormat                                               // halted before any remote call
    | Saved(id: Value, echo: Echo)                                    // success banner with the new id
    | NoReturnData                                                    // the final result had no rows
    | SaveFailed(error: SaveError, attempted: Record, sessionId: string) // banner plus diagnostics

  /** The remote calls of the save and the result the handler goes on with. */
  datatype Persisted = Persisted(calls: seq<Call>, final: Reply)

  /** `json_data` after the JSON step: `None` when the submission halts on malformed
      text; otherwise `Some(j)`, with `j == JNull` standing for Python's `None` (blank
      text, or text that parses to `null`). */
  function JsonData(jsonText: string, parsed: Option<Json>): (r: Option<Json>)
    ensures r.None? <==> Strip(jsonText) != "" && parsed.None?
    ensures (r.Some? && r.value != JNull) <==> (Strip(jsonText) != "" && parsed.Some? && parsed.value != JNull)
    ensures r.Some? && r.value != JNull ==> r == parsed
  {
    if Strip(jsonText) == "" then Some(JNull) else parsed
  }

  /** The record sent to the service: always `category_id` and `occurred_at`, never `id`;
      `comment` holds the stripped comment and is there exactly when that is non-empty;
      `data` holds the decoded JSON and is there exactly when that is not `null`. */
  function EventRecord(categoryId: int, occurredAt: string, comment: string, jsonData: Json): (r: Record)
    ensures r.Keys <= EventKeys && Id !in r
    ensures CategoryId in r && r[CategoryId] == VInt(categoryId)
    ensures OccurredAt in r && r[OccurredAt] == VStr(occurredAt)
    ensures Comment in r <==> Strip(comment) != ""
    ensures Comment in r ==> r[Comment] == VStr(Strip(comment))
    ensures Data in r <==> jsonData != JNull
    ensures Data in r ==> r[Data] == VJson(jsonData)
  {
    var required := map[CategoryId := VInt(categoryId), OccurredAt := VStr(occurredAt)];
    var withComment := if comment != "" && Strip(comment) != "" then required[Comment := VStr(Strip(comment))] else required;
    if jsonData != JNull then withComment[Data := VJson(jsonData)] else withComment
  }

  /** The JSON step of the handler: halt on malformed text; otherwise `jsonData` is the
      decoded value, or `JNull` when the text is blank. */
  method ReadJson(jsonText: string, parsed: Option<Json>) returns (halt: bool, jsonData: Json)
    ensures halt <==> Strip(jsonText) != "" && parsed.None?
    ensures !halt ==> JsonData(jsonText, parsed) == Some(jsonData)
    ensures !halt && Strip(jsonText) == "" ==> jsonData == JNull
  {
    halt, jsonData := false, JNull;
    if Strip(jsonText) != "" {
      if parsed.None? {
        return true, JNull;
      }
      jsonData := parsed.value;
    }
  }

  /** `event_data` as the handler builds it: the two required keys, then `comment` and
      `data` inserted one at a time when they are present. */
  method BuildEventRecord(categoryId: int, occurredAt: string, comment: string, jsonData: Json)
    returns (eventData: Record)
    ensures eventData == EventRecord(categoryId, occurredAt, comment, jsonData)
  {
    eventData := map[CategoryId := VInt(categoryId), OccurredAt := VStr(occurredAt)];
    if comment != "" && Strip(comment) != "" {
      eventData := eventData[Comment := VStr(Strip(comment))];
    }
    if jsonData != JNull {
      eventData := eventData[Data := VJson(jsonData)];
    }
  }

  /** The number of insert calls in a call log. */
  function Inserts(calls: seq<Call>): nat
    decreases |calls|
  {
    if calls == [] then 0 else (if calls[0].InsertEvent? then 1 else 0) + Inserts(calls[1..])
  }

  /** Upsert first; insert once, only when the upsert returned no rows (an upsert that
      raises goes straight to the error handler). Every call carries the same record. */
  function Persist(record: Record, upsert: Reply, insert: Reply): (p: Persisted)
    ensures p.calls != [] && p.calls[0] == UpsertEvent(record)
    ensures Inserts(p.calls) == if upsert == Rows([]) then 1 else 0
    ensures forall c :: c in p.calls ==> c == UpsertEvent(record) || c == InsertEvent(record)
    ensures p.final == insert || p.final == upsert
    ensures upsert.Raises? || (upsert.Rows? && upsert.rows != []) ==> p.final == upsert
    ensures upsert == Rows([]) ==> p.final == insert && |p.calls| == 2
    ensures upsert != Rows([]) ==> p.calls == [UpsertEvent(record)]
  {
    if upsert == Rows([]) then
      var calls := [UpsertEvent(record), InsertEvent(record)];
      assert calls[1..] == [InsertEvent(record)] && calls[1..][1..] == [];
      assert Inserts(calls[1..]) == 1;
      Persisted(calls, insert)
    else Persisted([UpsertEvent(record)], upsert)
  }

  /** The test at the top of the exception handler, on `str(e).lower()`. */
  function Classify(message: string): (e: SaveError)
    ensures e == DuplicateEntry <==>
      Occurs(DuplicateKey, Lower(message)) || Occurs(UniqueViolation, Lower(message))
    ensures e.OtherError? ==> e.raw == message
  {
    var lowered := Lower(message);
    if Contains(lowered, DuplicateKey) || Contains(lowered, UniqueViolation) then DuplicateEntry
    else OtherError(message)
  }

  /** The banners shown for a save failure. */
  function ErrorBanners(e: SaveError): (r: seq<string>)
    ensures e == DuplicateEntry ==> r == [DuplicateBanner, DuplicateHint]
    ensures e.OtherError? ==>
      && |r| == 1 && |r[0]| == |GenericPrefix| + |e.raw|
      && r[0][..|GenericPrefix|] == GenericPrefix && r[0][|GenericPrefix|..] == e.raw
  {
    match e
    case DuplicateEntry => [DuplicateBanner, DuplicateHint]
    case OtherError(raw) => [GenericPrefix + raw]
  }

  /** One press of Save Event, given the id of the chosen category, the service's
      replies to the upsert and to the insert, and the current session id. */
  function Outcome(areaName: string, categoryName: string, categoryId: int, form: Form,
                   upsert: Reply, insert: Reply, sessionId: string): (r: SubmitOutcome)
    ensures r == InvalidJsonFormat <==> JsonData(form.jsonText, form.parsed).None?
    ensures r.SaveFailed? ==>
      && r.sessionId == sessionId
      && r.attempted == EventRecord(categoryId, form.occurredAt, form.comment, JsonData(form.jsonText, form.parsed).value)
    ensures r.Saved? ==>
      && r.echo.id == r.id && r.echo.area == areaName && r.echo.category == categoryName
      && r.echo.date == form.occurredAt
  {
    match JsonData(form.jsonText, form.parsed)
    case None => InvalidJsonFormat
    case Some(data) =>
      var record := EventRecord(categoryId, form.occurredAt, form.comment, data);
      match Persist(record, upsert, insert).final
      case Raises(message) => SaveFailed(Classify(message), record, sessionId)
      case Rows(rows) =>
        if rows == [] then NoReturnData
        else if Id !in rows[0] then SaveFailed(Classify(MissingIdMessage), record, sessionId)
        else
          var id := rows[0][Id];
          Saved(id, Echo(id, areaName, categoryName,
                         if form.comment == "" then NotAvailable else form.comment,
                         form.occurredAt,
                         if Truthy(data) then VJson(data) else VStr(NotAvailable)))
  }

  /** The remote calls one press of Save Event issues. */
  function SubmitCalls(categoryId: int, form: Form, upsert: Reply): (r: seq<Call>)
    ensures r == [] <==> JsonData(form.jsonText, form.parsed).None?
    ensures |r| <= 2
    ensures r != [] ==> r[0] == UpsertEvent(EventRecord(categoryId, form.occurredAt, form.comment, JsonData(form.jsonText, form.parsed).value))
    ensures forall c :: c in r ==> c.UpsertEvent? || c.InsertEvent?
  {
    match JsonData(form.jsonText, form.parsed)
    case None => []
    case Some(data) => Persist(EventRecord(categoryId, form.occurredAt, form.comment, data), upsert, Rows([])).calls
  }

  // ---------------------------------------------------------------------------
  // Properties of the handler

  /** Malformed JSON text, and nothing else, halts the submission, and then neither
      the upsert nor the insert is issued. */
  lemma InvalidJsonHaltsBeforeAnyCall(areaName: string, categoryName: string, categoryId: int, form: Form,
                                      upsert: Reply, insert: Reply, sessionId: string)
    ensures Outcome(areaName, categoryName, categoryId, form, upsert, insert, sessionId) == InvalidJsonFormat
        <==> Strip(form.jsonText) != "" && form.parsed.None?
    ensures SubmitCalls(categoryId, form, upsert) == [] <==> Strip(form.jsonText) != "" && form.parsed.None?
  {
  }

  /** Once the JSON step passed, the upsert comes first and the insert is issued exactly
      once when the upsert returned no rows, and never otherwise. */
  lemma InsertOnlyAfterEmptyUpsert(categoryId: int, form: Form, upsert: Reply)
    requires JsonData(form.jsonText, form.parsed).Some?
    ensures var calls := SubmitCalls(categoryId, form, upsert);
      && calls != [] && calls[0].UpsertEvent?
      && Inserts(calls) == if upsert == Rows([]) then 1 else 0
  {
  }

  /** The save succeeds exactly when the result the handler ends with (the upsert's, or
      the insert's after an empty upsert) has a first row with an `id`; the reported id
      is that row's `id`. */
  lemma SavedIff(areaName: string, categoryName: string, categoryId: int, form: Form,
                 upsert: Reply, insert: Reply, sessionId: string)
    ensures var o := Outcome(areaName, categoryName, categoryId, form, upsert, insert, sessionId);
      var final := if upsert == Rows([]) then insert else upsert;
      && (o.Saved? <==> JsonData(form.jsonText, form.parsed).Some? && final.Rows? && final.rows != [] && Id in final.rows[0])
      && (o.Saved? ==> o.id == final.rows[0][Id] && o.echo.id == o.id)
      && (o == NoReturnData <==> JsonData(form.jsonText, form.parsed).Some? && final == Rows([]))
  {
  }

  /** A save failure is reported with the classification of the raised message (or of
      the `KeyError` for a first row without `id`), the record that was attempted and
      the current session id. */
  lemma FailureReported(areaName: string, categoryName: string, categoryId: int, form: Form,
                        upsert: Reply, insert: Reply, sessionId: string)
    requires Outcome(areaName, categoryName, categoryId, form, upsert, insert, sessionId).SaveFailed?
    ensures var o := Outcome(areaName, categoryName, categoryId, form, upsert, insert, sessionId);
      var final := if upsert == Rows([]) then insert else upsert;
      && o.sessionId == sessionId
      && o.attempted == EventRecord(categoryId, form.occurredAt, form.comment, JsonData(form.jsonText, form.parsed).value)
      && (if final.Raises? then o.error == Classify(final.message) else o.error == OtherError(MissingIdMessage))
  {
  }

  /** The confirmation panel shows the comment as typed (not stripped), and the data only
      when it is truthy: a stored `0`, `false`, `""`, `[]` or `{}` is shown as N/A. */
  lemma EchoShowsTruthyData(areaName: string, categoryName: string, categoryId: int, form: Form,
                            upsert: Reply, insert: Reply, sessionId: string)
    requires Outcome(areaName, categoryName, categoryId, form, upsert, insert, sessionId).Saved?
    ensures var echo := Outcome(areaName, categoryName, categoryId, form, upsert, insert, sessionId).echo;
      var data := JsonData(form.jsonText, form.parsed).value;
      && echo.comment == (if form.comment == "" then NotAvailable else form.comment)
      && (echo.data.VJson? <==> Truthy(data))
      && (echo.data.VJson? ==> echo.data.j == data)
  {
  }

  /** The duplicate test ignores case: any stretch of the message that lowers to one of
      the two markers makes the failure a duplicate entry. */
  lemma {:induction false} DuplicateInAnyCase(message: string, i: nat, marker: string)
    requires marker == DuplicateKey || marker == UniqueViolation
    requires i + |marker| <= |message| && Lower(message[i..i + |marker|]) == marker
    ensures Classify(message) == DuplicateEntry
  {
    LowerSlice(message, i, i + |marker|);
    assert OccursAt(marker, Lower(message), i);
  }

  /** The generic failure banner carries the raw error text; the duplicate banners
      do not depend on it. */
  lemma {:induction false} GenericBannerShowsRaw(message: string)
    ensures Classify(message).OtherError? ==> Occurs(message, ErrorBanners(Classify(message))[0])
    ensures Classify(message) == DuplicateEntry ==> ErrorBanners(Classify(message)) == [DuplicateBanner, DuplicateHint]
  {
    var shown := GenericPrefix + message;
    assert shown[|GenericPrefix|..|GenericPrefix| + |message|] == message;
    assert OccursAt(message, shown, |GenericPrefix|);
  }

  /** The message Postgres raises for a primary-key clash on `event`,
      `duplicate key value violates unique constraint "event_pkey"` (written below
      with its first two words as `DuplicateKey`), is classified as a duplicate entry. */
  lemma PostgresDuplicateKey()
    ensures Classify(DuplicateKey + " value violates unique constraint \"event_pkey\"") == DuplicateEntry
  {
    var message := DuplicateKey + " value violates unique constraint \"event_pkey\"";
    assert message[0..13] == DuplicateKey;
    assert Lower(DuplicateKey) == DuplicateKey;
    DuplicateInAnyCase(message, 0, DuplicateKey);
  }

  /** Worked example: a comment and blank JSON text give a record with `category_id`,
      `occurred_at` and the comment, and no `data` key. */
  lemma ExampleSleepRecord()
    ensures var data := JsonData("", None);
      && data == Some(JNull)
      && EventRecord(10, "2024-01-01", "slept 8h", data.value)
         == map[CategoryId := VInt(10), OccurredAt := VStr("2024-01-01"), Comment := VStr("slept 8h")]
  {
    var comment := "slept 8h";
    StripRemovesPadding("", comment, "");
    assert "" + comment + "" == comment;
    var r := EventRecord(10, "2024-01-01", comment, JNull);
    assert r.Keys == {CategoryId, OccurredAt, Comment};
    assert r[Comment] == VStr(comment);
  }
}
