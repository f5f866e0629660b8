# Event entry for the Supabase diary — a Dafny model

This project models the core of `diary_general_streamlit.py`, a Streamlit page that
records diary events in a Supabase (Postgres) database. Each run of the script does
the following:

- It repairs the auto-increment sequences of the `event`, `category` and `area`
  tables, once per session.
- It gives the session a short id, which suffixes every widget key.
- It looks up the areas, and then the categories of the chosen area, as name-to-id
  dictionaries.
- When Save Event is pressed, it reads the optional JSON text and assembles an event
  record without an `id`. It upserts the record and falls back to a plain insert
  when the upsert returns no rows. It reports the new id, or classifies the failure
  as a duplicate entry or a generic error.

The data service is not part of the model. Its replies are parameters: the outcome
of each `get_max_id` probe, the rows the two selects return, and the reply to the
upsert and to the insert. A reply is either rows or an exception message. Every
remote call the script issues is appended to the call log of the `Session`
object. So statements such as "no call before the JSON check", "the insert is
issued exactly once, after an empty upsert" and "tables are probed in the order
event, category, area" are proved about that log.

Files:

- `values.dfy`: `Option`, JSON values (with Python truthiness), record values, and records. A record is a map from the `Column` datatype (`id`, `category_id`, `occurred_at`, `comment`, `data`, or any other column name) to values.
- `remote.dfy`: the remote calls and the shapes of their replies.
- `text.dfy`: Python's `str.strip`, `str.lower` and the `in` test on strings.
- `lookup.dfy`: the name-to-id dictionary comprehension.
- `repair.dfy`: `fix_sequences` as a function of the probe outcomes.
- `submission.dfy`: the Save Event handler as functions of the form and the replies,
  with its properties.
- `session.dfy`: class `Session`, holding the two session-state entries and the call
  log. Its methods are the repair loop, the two guards, the lookup pass and the
  handler. Each method is proved against the functions above.

Modelling choices:

- `json.loads` is the `parsed` field of the form. `None` stands for a
  `JSONDecodeError`, and the JSON value `JNull` stands for Python's `None`.
- `st.stop()` after malformed JSON raises Streamlit's stop exception. That exception
  derives from `BaseException`, so the handler's `except Exception` does not catch
  it. The model makes it a halt (`InvalidJsonFormat`) before any remote call.
- A first result row without `id` raises `KeyError`. The handler catches it, and
  `str(e)` is `'id'`. The model classifies that text like any other failure.
- `strip` removes the whole Python `str.isspace` character set.

## Model

| member | source | states |
|---|---|---|
| SequenceRepair.ProbesEveryTableInOrder | diary_general_streamlit.py:34-49 | every table of the list is probed exactly once, in list order, whatever each probe returns or raises |
| SequenceRepair.FixIssuedIff | diary_general_streamlit.py:39-46 | `fix_sequence(t, v)` is issued if and only if `t` is in the list, its probe returned a truthy maximum, and `v` is that maximum plus one |
| SequenceRepair.NoFixWithoutMax | diary_general_streamlit.py:40-49 | a probe that raises, returns nothing, or returns 0 leads to no `fix_sequence` for that table |
| SequenceRepair.ProbedAppend | diary_general_streamlit.py:36 | the tables probed by two stretches of calls are those of the first, then those of the second |
| SequenceRepair.RepairCallsSnoc | diary_general_streamlit.py:36-49 | visiting one more table appends exactly that table's calls |
| SequenceRepair.ScriptOrder | diary_general_streamlit.py:34 | the script's repair probes `event`, then `category`, then `area` |
| EntrySession.Session.FixSequences | diary_general_streamlit.py:30-52 | the loop over the tables appends exactly the calls of `RepairCalls` for the fixed table list |
| EntrySession.Session.EnsureSequencesFixed | diary_general_streamlit.py:55-57 | the repair runs only while `sequences_fixed` is absent, and the flag is set afterwards |
| EntrySession.Session.EnsureSessionId | diary_general_streamlit.py:60-61 | a session id is created only when there is none; an existing one is kept |
| EntrySession.Session.constructor | diary_general_streamlit.py:55-61 | a new session has neither session-state entry and has issued no call |
| EntrySession.TwoPasses | diary_general_streamlit.py:55-168 | two runs of the whole script in one new session, each with its own lookups, choices and press: the log is the repair calls, then the first run's lookup and form calls, then the second's; the three tables are probed once, in order; each run submits exactly when it has areas, categories and a press, and its outcome is the handler's under the session id of that run (the first id, or the first press's fresh id after a save in the first run); the first id survives unless a save succeeds, and the last save leaves its fresh id |
| EntrySession.FirstRun | diary_general_streamlit.py:55-168 | the first run in a new session sets both session-state entries; its log is the repair calls followed by the lookup and form calls; it submits exactly when there are areas, categories and a press, with the handler's outcome under `firstId`; the session id is `firstId` unless that run saves, and that press's fresh id if it does |
| EntrySession.Session.RenderAgain | diary_general_streamlit.py:55-168 | a run in a session already repaired appends only the lookup and form calls; it submits exactly when there are areas, categories and a press, with the handler's outcome under the current session id; the id is kept unless a save succeeds, and is the fresh id after one |
| EntrySession.FormCallsProbeNothing | diary_general_streamlit.py:65-130 | the lookups and the form issue no `get_max_id` probe |
| EntrySession.PressCallsProbeNothing | diary_general_streamlit.py:100-130 | the Save Event handler issues no `get_max_id` probe |
| EntrySession.RepairOnlyFirst | diary_general_streamlit.py:34-57 | repair calls followed by two stretches without probes probe `event`, `category`, `area`, once each and in that order |
| Lookup.NameToId | diary_general_streamlit.py:67 | every row's name is a key, and every key maps to the id of a row with that name |
| Lookup.LastRowWins | diary_general_streamlit.py:67 | for a duplicated name, the id kept is that of the last row with the name |
| Lookup.EmptyIff | diary_general_streamlit.py:69-71 | the dictionary is empty exactly when the row list is, so the `not areas` and `not categories` tests agree with the dictionaries |
| EntrySession.Session.ShowForm | diary_general_streamlit.py:65-100 | no areas → halt after one select; no categories → halt after the category select for the chosen area's id; the form is shown without a save exactly when both lists are non-empty and Save Event is not pressed; otherwise the handler runs with the chosen category's id; the calls appended are `FormCalls` |
| EntrySession.Session.ShowCategories | diary_general_streamlit.py:78-100 | once the area is chosen: halt exactly when there are no categories, the form alone exactly when Save Event is not pressed, otherwise the handler's outcome and calls; the session id changes only on a successful save |
| EntrySession.FormCalls | diary_general_streamlit.py:65-100 | the calls after the guards start with the area select; there is no other call exactly when there are no areas; the second call is the category select for the chosen area's id |
| EntrySession.PressCalls | diary_general_streamlit.py:82-130 | no call without categories or without a press; otherwise the handler's calls, which start with the upsert and number at most two |
| EntrySession.Session.RenderPass | diary_general_streamlit.py:55-100 | one run: the log grows by the repair calls (only while `sequences_fixed` is absent) and then by exactly `FormCalls`; both session-state entries are set; the session id is kept (or created) unless a save succeeds, and is the fresh id after one; no areas, no categories, the bare form, and a submission happen exactly on their conditions; a submission's outcome is the handler's |
| Text.Strip | diary_general_streamlit.py:104 | `strip` yields a piece that neither begins nor ends with whitespace and is no longer than the input |
| Text.StripBlankIff | diary_general_streamlit.py:104 | `s.strip()` is empty exactly when `s` is all whitespace |
| Text.StripRemovesPadding | diary_general_streamlit.py:118-119 | stripping a text that is empty, or neither begins nor ends with whitespace, after padding it with whitespace on both sides gives the text back |
| Text.StripIdempotent | diary_general_streamlit.py:118-119 | stripping twice is stripping once |
| Text.StripIsPiece | diary_general_streamlit.py:119 | the stripped comment is a contiguous piece of the comment |
| Text.SkipSpaceAt | diary_general_streamlit.py:104 | the first non-whitespace position at or after `i` is unique |
| Text.SkipSpaceBackAt | diary_general_streamlit.py:104 | the last non-whitespace position before `j` is unique |
| Text.Lower | diary_general_streamlit.py:158 | lowering keeps the length and lowers each character |
| Text.LowerSlice | diary_general_streamlit.py:158-159 | lowering a slice is slicing the lowered text |
| Text.Contains | diary_general_streamlit.py:159 | Python's `sub in s` holds exactly when `sub` occurs at some position of `s` |
| Submission.JsonData | diary_general_streamlit.py:103-109 | blank JSON text gives `None`; non-blank text halts exactly when it fails to parse, and otherwise gives the parsed value |
| Submission.ReadJson | diary_general_streamlit.py:103-109 | halts exactly on non-blank text that does not parse; otherwise returns `json_data` as `JsonData` defines it |
| Submission.EventRecord | diary_general_streamlit.py:111-122 | the record never has `id`; it always has `category_id` and `occurred_at`; it has `comment` (stripped) exactly when the stripped comment is non-empty, and `data` exactly when `json_data` is not `None` |
| Submission.BuildEventRecord | diary_general_streamlit.py:111-122 | the record built key by key is `EventRecord` |
| Submission.Persist | diary_general_streamlit.py:125-130 | the upsert comes first; the insert, with the same record, is issued exactly once when the upsert returned no rows; the result that goes on is the insert's after an empty upsert, and otherwise the upsert's |
| Submission.InvalidJsonHaltsBeforeAnyCall | diary_general_streamlit.py:104-109 | malformed JSON text, and nothing else, ends the press with the invalid-JSON halt, and then no remote call is issued |
| Submission.InsertOnlyAfterEmptyUpsert | diary_general_streamlit.py:125-130 | once the JSON step passed, the upsert is the first call, and the insert follows exactly when the upsert returned no rows |
| Submission.SavedIff | diary_general_streamlit.py:128-155 | the save succeeds exactly when the final result's first row has an `id`, and the reported id is that one; an empty final result gives the no-return-data error |
| Submission.FailureReported | diary_general_streamlit.py:133-168 | a failure carries the classified message (`'id'` for a row without `id`), the attempted record and the current session id |
| Submission.EchoShowsTruthyData | diary_general_streamlit.py:137-145 | the confirmation shows the comment as typed, or N/A when it is empty, and the data only when it is truthy |
| Submission.Classify | diary_general_streamlit.py:157-163 | a duplicate entry exactly when the lowered message contains "duplicate key" or "violates unique constraint"; otherwise the raw message is kept |
| Submission.DuplicateInAnyCase | diary_general_streamlit.py:158-159 | any stretch of the message that lowers to a marker makes the failure a duplicate, whatever its case |
| Submission.GenericBannerShowsRaw | diary_general_streamlit.py:159-163 | the generic banner contains the raw error text; a duplicate shows the fixed error and hint |
| Submission.PostgresDuplicateKey | diary_general_streamlit.py:159-161 | Postgres's own all-lowercase primary-key violation text, `duplicate key value violates unique constraint "event_pkey"`, is classified as a duplicate entry |
| Submission.ExampleSleepRecord | diary_general_streamlit.py:103-122 | a comment with blank JSON text gives a record of `category_id`, `occurred_at` and `comment`, with no `data` |
| Submission.Outcome | diary_general_streamlit.py:101-168 | the press halts on invalid JSON exactly when `JsonData` does; a failure carries the session id and the record `EventRecord` built; a save echoes the saved id, the area, the category and the date |
| Submission.SubmitCalls | diary_general_streamlit.py:125-130 | no call exactly when the JSON step halts; otherwise at most two calls, the first the upsert of `EventRecord`, each an upsert or an insert |
| Submission.ErrorBanners | diary_general_streamlit.py:159-163 | a duplicate shows the fixed error and the hint; any other failure shows one banner, the generic prefix followed by the raw text |
| SequenceRepair.RepairCalls | diary_general_streamlit.py:36-49 | the repair issues at least as many calls as there are tables and at most twice as many, and the first call is the probe of the first table |
| SequenceRepair.TableCalls | diary_general_streamlit.py:39-46 | one table's calls are its probe, followed by `fix_sequence` with the maximum plus one exactly when the probe returned a truthy maximum |
| SequenceRepair.HasMaxId | diary_general_streamlit.py:40 | a probe counts as a maximum exactly when it returned data that is not `None` and is truthy |
| SequenceRepair.NoProbes | diary_general_streamlit.py:36-49 | a stretch of calls with no `get_max_id` probes no table |
| Values.Truthy | diary_general_streamlit.py:144 | a JSON value is falsy exactly when it is `None`, `false`, `0`, `""`, `[]` or `{}` |
| EntrySession.Session.Submit | diary_general_streamlit.py:101-168 | the handler's outcome is `Outcome` and its calls are `SubmitCalls`; the session id is replaced by the fresh one exactly when the save succeeds |

## Left out

- The Streamlit widgets, banners, expanders and layout are left out. The model keeps what each pass ends with (`Pass`, `SubmitOutcome`), not how it is drawn. Banners are modelled only as text (`ErrorBanners`).
- The shutdown button (lines 21-27) and the loading of the environment and the client (lines 1-19) are left out. They involve process exit, sleeping and environment variables.
- The outer handler for connection failures (lines 172-188) is left out, and so are select calls that raise. The lookups are modelled only when they return rows.
- The `except Exception` around the whole of `fix_sequences` (lines 51-52) is left out. The bare `except` inside the loop already swallows every failure, so that warning is never shown.
- `json.loads` errors other than `JSONDecodeError` are left out. Examples are `RecursionError` on very deeply nested text and `ValueError` on an integer literal longer than Python's digit limit. `except json.JSONDecodeError` (line 107) does not catch them. The handler's `except Exception` (line 157) does, and shows the generic banner. Its debugging block (line 167) then reads `event_data`, which this run never assigned. The resulting `NameError` goes to the outer handler (line 172), and no remote call is issued. `Form.parsed` has only two cases, a value or a decoding error, so the model has no input for this path.
- Decoded JSON is simplified. Every number is one `real`, so `1` and `1.0` are the same value, and `NaN` and `Infinity` are absent. An object keeps duplicate keys, which a Python dict would collapse. No stated property depends on these distinctions.
- `json.loads`, `uuid.uuid4()[:8]`, `datetime.date.today()` and `isoformat()` sit outside the model, which takes their results as inputs (`Form.parsed`, `Press.freshId`, `Form.occurredAt`).
- Text.Lower: lowers ASCII letters only. Python's `str.lower` also lowers other Unicode letters, for example the KELVIN SIGN to `k`. An error text that reaches a marker only through such a letter is classified as a generic error in the model.
- The order of the dropdown options (`.order("name")`) is left out, and so is the widget state that keeps a selection across runs. The chosen area and category are inputs, and must be keys of the dictionaries.
- The "Unesi novi event" button and its `st.rerun()`, lines 151-152, are left out. A rerun is simply the next `RenderPass` on the same `Session`.
- EntrySession.Session.Submit: the model neither assumes nor proves that the new session id differs from the old one. `uuid4()[:8]` is random, and the code does not check that it differs.
- `01-crud-example.py` and `02-auth.py` are not part of this model.
