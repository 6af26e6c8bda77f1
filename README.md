# INFLXD transcription client — session and request model

The application is a single-page client for a remote transcription API. A user authenticates with
a bearer token, submits an audio file with metadata, checks a job's status and downloads finished
transcripts. Almost all of it is rendering and HTTP plumbing. This project models the logic inside
it that is stated precisely.

- **The session store.** It holds the API token, the user id derived from the token, the session's
  job list (newest first) and the archive of every user's jobs, kept per user id (newest first,
  at most 100 per user). The project models the operations that change it: authenticate, logout,
  reloading a user's history, recording a submitted job, and the status-update scans. The store is
  the class `Session.SessionStore`, with one field per session-state entry. Its methods state the
  whole new state.
- **The submit flow.** It validates the form (file, then title, then company), builds the form
  fields and picks the audio MIME type from the file name.
- **The status-check flow.** It updates both histories from a reply and decides whether
  auto-refresh repeats.
- **The export flow.** It builds the query string of removal flags and the endpoint, and picks
  the download file name and MIME type.
- **The status badge, and the recent-jobs labels of the sidebar.**

Modules: `Wrappers` (Option, Result, Min), `Strings` (Python's `split`, `join`, `lower`, `upper`),
`Jobs` (records, capped front insertion, the first-match scan, title shortening), `Responses` (how a
reply is reported), `Submission`, `Export`, `StatusBadge`, `Session`.

Interfaces to the world are parameters:
- `get_user_hash` is the store's constant `userHash`, any deterministic function whose results
  have 16 characters.
- Clock readings are `submittedAt` and `timestamp` strings.
- Parsing the speakers JSON is `speakersJson`, which is None when the text does not parse.
- An HTTP reply is its status code together with the fields the flow reads, or None when no reply
  arrived.

In these places the model follows what the code does:
- Authenticate rejects only the empty token. A token of blanks is accepted.
- Loading the history of a user who has no archive bucket leaves the session list as it was. It
  is not reset to empty.
- The session list is cut to 20 only when a job is recorded. Authenticating copies the whole
  bucket, up to 100 jobs. `SessionStore.Valid` therefore bounds the list by 100.

As written, the code reports replies with codes 400 to 599 as "Failed to connect"; this is
`Responses.ClassifyAsWritten`. The flows of this model use the corrected reading
`Responses.Classify`, which reports them as API errors with their code. See Left out and Findings.

## Model

| member | source | states |
|---|---|---|
| Session.Bucket | streamlit_app.py:120-121 | the user's archive bucket, and the empty list for a user without one, as `save_job_to_history` creates it |
| Session.SessionStore.constructor | streamlit_app.py:47-55 | the initial state has no token, no user id, an empty session list and an empty archive, and the store invariant holds |
| Session.SessionStore.HasUser | streamlit_app.py:119-119 | the truthiness test on the user id: a user id is set and is not empty; `HasUserIffAuthenticated` relates it to the token |
| Session.SessionStore.HasUserIffAuthenticated | streamlit_app.py:65-67 | since every user id has 16 characters, the truthiness test on the user id holds exactly while a token is set, and the id is then the token's hash |
| Session.SessionStore.Authenticate | streamlit_app.py:150-158 | succeeds exactly for a non-empty token; it then sets the token and the token's hash, and the session list becomes the user's bucket, or stays as it was when there is none; an empty token changes nothing; the archive never changes; from the logged-out state the token box is shown in (no token, empty session list) it establishes `InSync` |
| Session.SessionStore.Logout | streamlit_app.py:163-167 | token and user id become None and the session list empty; the archive is not in the frame, so it is untouched; `InSync` holds afterwards |
| Session.SessionStore.LoadUserHistory | streamlit_app.py:128-133 | the session list becomes the current user's bucket when there is a user id and a bucket for it, and is left unchanged otherwise; `InSync` is preserved |
| Session.SessionStore.SaveJobToHistory | streamlit_app.py:104-126 | the session list becomes the new record pushed at the front and capped at 20; with a user id, that user's bucket (empty if absent) gets the record at the front, capped at 100; every other bucket is unchanged; without a user id the archive is unchanged; `InSync` is preserved (`Jobs.PushFrontPrefix`) |
| Session.SessionStore.UpdateStatus | streamlit_app.py:369-380 | the session list becomes `WithStatus` of the old one; when the user has a bucket, so does that bucket and nothing else; without a bucket the archive is unchanged; with no matching id the session list is unchanged; `InSync` is preserved (`Jobs.WithStatusPrefix`) |
| Session.SessionStore.Submit | streamlit_app.py:258-332 | a form missing file, title or company is rejected with the first missing one (file, then title, then company) without touching state; a complete form ends with the corrected reading of the reply: success exactly for 200 and 201, an API error with the reply's code, "failed to connect" exactly when no reply arrived; success records the reply's job at the front of the session list and, with a user id, at the front of that user's bucket (created if missing, capped at 100), the archive otherwise unchanged; every other outcome leaves both histories unchanged; `InSync` is preserved |
| Session.SessionStore.CheckStatus | streamlit_app.py:356-417 | no request without a job id; otherwise the outcome is the corrected reading of the reply (success exactly for 200, an API error with the reply's code, "failed to connect" exactly when no reply arrived); a 200 reply gives the first matching record of the session list and of the user's bucket, when there is one, its reported status, and leaves the archive otherwise unchanged; the check repeats exactly when auto-refresh is on and the status is exactly "processing"; otherwise nothing changes; `InSync` is preserved |
| Session.Relogin | streamlit_app.py:128-167 | logging out and back in with the same token restores exactly that token's archive bucket (empty when absent) and leaves the archive unchanged, and the store is then `InSync` |
| Jobs.Entry | streamlit_app.py:106-112 | the record built from a job descriptor: its id, title, company and status, and the clock reading as the submission time |
| Jobs.PushFront | streamlit_app.py:115-116 | the record is at index 0, the length is min(old+1, cap), and the rest is the old list's prefix in its original order |
| Jobs.PushAllNewestFirst | streamlit_app.py:104-126 | after recording jobs one after another, the list is the newest `cap` of all jobs, newest first: the last one recorded leads and the oldest drop off |
| Jobs.FirstIndexOf | streamlit_app.py:369-372 | the index found holds the id and no earlier record does; None means no record holds it |
| Jobs.UpdateFirst | streamlit_app.py:369-372 | the `for … if … break` loop returns the list with only the first record holding the id given the new status (`WithStatus`) |
| Jobs.WithStatus | streamlit_app.py:369-380 | the list with the first record holding the id given the new status, and unchanged when none holds it; characterised by `WithStatusSpec` |
| Jobs.WithStatusSpec | streamlit_app.py:369-380 | same length; ids, titles, companies and times unchanged; only the first match's status replaced; with no match the list is unchanged |
| Jobs.FirstIndexOfSameIds | streamlit_app.py:369-372 | which record the scan hits depends only on the ids |
| Jobs.PushFrontPrefix | streamlit_app.py:115-123 | recording a job at the front of the session list (cap 20) and of a bucket it begins (cap 100) leaves the list a prefix of the bucket |
| Jobs.FirstIndexOfPrefix | streamlit_app.py:369-380 | the scans of the session list and of a bucket it begins hit the same position whenever the list holds the id, and otherwise the bucket's hit lies beyond the list |
| Jobs.WithStatusPrefix | streamlit_app.py:369-380 | after both status scans the session list is still a prefix of the bucket |
| Jobs.LastStatusWins | streamlit_app.py:369-380 | a second status update of the same job overrides the first, so repeating an update is idempotent |
| Jobs.ShortTitle | streamlit_app.py:176-176 | the first 25 characters followed by "..." for titles longer than 25, otherwise the title; characterised by `ShortTitleSpec` |
| Jobs.ShortTitleSpec | streamlit_app.py:176 | a shown title has at most 28 characters and starts with the title's first 25; titles of at most 25 characters are shown as they are; longer ones are cut to 25 and end in "..." |
| Jobs.RecentJobLabels | streamlit_app.py:175-176 | one label for each of the first five jobs, in session-list order, each the bullet plus the shortened title |
| Strings.Split | streamlit_app.py:71 | `split` yields at least one piece, and exactly one when the separator does not occur |
| Strings.Join | streamlit_app.py:474-474 | Python's `sep.join(pieces)`: the pieces with the separator between each neighbouring pair; `JoinSplit` and `SplitJoin` make it the inverse of `Split` |
| Strings.JoinSplit | streamlit_app.py:71 | joining the pieces of a split with the separator restores the string |
| Strings.SplitJoin | streamlit_app.py:474 | splitting a join of separator-free pieces restores the pieces, in order |
| Strings.AfterLast | streamlit_app.py:71-71 | `filename.split('.')[-1]`: the last piece of the split; characterised by `AfterLastSpec` |
| Strings.AfterLastSpec | streamlit_app.py:71 | `split('.')[-1]` is a dot-free suffix; it is the whole name when there is no dot, and otherwise the text after the last dot |
| Strings.ToLower | streamlit_app.py:71-71 | `lower()`: same length, each ASCII capital replaced by its small letter and every other character kept |
| Strings.ToUpper | streamlit_app.py:101-102 | `upper()`: same length, each ASCII small letter replaced by its capital and every other character kept |
| Strings.LowerOfUpper | streamlit_app.py:101-102 | upper-cased text has no lower-case letter and reads the same as the original after `lower()` |
| Submission.MimeOf | streamlit_app.py:72-76 | the `mime_types` table: "audio/mp4" for "mp4", "audio/mpeg" for "mp3", and "audio/mpeg" as the default for every other extension |
| Submission.MimeType | streamlit_app.py:69-76 | "audio/mp4" exactly when the lower-cased text after the last dot is "mp4", and "audio/mpeg" otherwise, including names without a dot and unknown extensions |
| Submission.MimeTypeUsesLastExtension | streamlit_app.py:69-76 | for a name ending in "."+ext with a dot-free ext, the type is the table entry for the lower-cased ext |
| Submission.BoolField | streamlit_app.py:278-281 | `str(b).lower()`: "true" for a ticked box and "false" otherwise |
| Submission.RequiredFields | streamlit_app.py:274-282 | the `data` dict: title, company and entities as entered and the four options through `BoolField`; its keys are none of the optional ones, and `RequiredFieldsSpec` characterises it |
| Submission.RequiredFieldsSpec | streamlit_app.py:274-282 | the required fields are exactly title, company, entities and the four flags; the texts are as entered; each flag is "true" exactly when its box is ticked, otherwise "false" |
| Submission.Complete | streamlit_app.py:260-265 | the three validation tests: a file is chosen, the title is not empty and the company is not empty; `BuildRequest` fails exactly when it does not hold |
| Submission.BuildRequest | streamlit_app.py:259-301 | rejected exactly when file, title or company is missing, and the first missing one is reported; otherwise the request carries the required fields; call_type, time_period and speakers are present exactly when non-empty (speakers also only when it parses), with their values; the MIME type comes from the file name |
| Export.Format.Name | streamlit_app.py:440-444 | the seven choices of the format box; each name is non-empty and free of "." and "/", so it is one path segment and one extension |
| Export.Flag.Param | streamlit_app.py:462-472 | the `name=1` item each ticked box appends; no item contains "&" |
| Export.FlagsFor | streamlit_app.py:461-472 | the flags of the ticked boxes, in the order of the five `if` tests; characterised by `FlagsForMembers` and `FlagsForOrder` |
| Export.ParamsFor | streamlit_app.py:461-472 | the `params` list: the `name=1` item of each flag of `FlagsFor`, in order; `BuildParams` is proved to build it |
| Export.FlagsForMembers | streamlit_app.py:462-472 | no flag exactly when no box is ticked; each flag present exactly when its box is ticked |
| Export.FlagsForIncreasing | streamlit_app.py:462-472 | each of the five conditional appends keeps the flag list in increasing fixed order |
| Export.FlagsForOrder | streamlit_app.py:462-472 | the flags come in the fixed order remove_timestamps, remove_word_level_timestamps, remove_speaker_labels, remove_insights, remove_keywords, each at most once |
| Export.BuildParams | streamlit_app.py:462-472 | the appends produce the `name=1` item of each ticked box in the fixed order |
| Export.QueryString | streamlit_app.py:474 | empty exactly for an empty parameter list, otherwise starting with "?" |
| Export.QueryStringOfOptions | streamlit_app.py:462-475 | the query string is "" exactly when no box is ticked; otherwise "?" followed by text that splits at "&" into exactly the ticked boxes' parameters, in order |
| Export.QueryStringTwoFlags | streamlit_app.py:462-474 | ticking "remove timestamps" and "remove keywords" only gives "?remove_timestamps=1&remove_keywords=1" |
| Export.QueryStringOneOrNoFlag | streamlit_app.py:462-474 | ticking "remove speaker labels" only gives "?remove_speaker_labels=1"; ticking nothing gives "" |
| Export.DefaultParams | streamlit_app.py:447-472 | with the boxes as first shown, the parameter list is the single word-level-timestamps item |
| Export.QueryStringOfDefaults | streamlit_app.py:447-474 | with the boxes as the form first shows them (only "remove word-level timestamps" ticked) the query string is "?remove_word_level_timestamps=1" |
| Export.DownloadName | streamlit_app.py:482-482 | "transcript_", the first eight characters of the job id (all of a shorter one), "_", the timestamp, ".", the format name; `DownloadNameExtension` states its prefix and extension |
| Export.DownloadNameExtension | streamlit_app.py:481-482 | whatever the job id and timestamp, the download name starts with "transcript_" and its extension after the last dot is the chosen format |
| Export.DownloadMime | streamlit_app.py:485-503 | pdf and docx are offered as bytes, json as JSON, and txt, html, srt and vtt as plain text |
| Export.ExportTranscript | streamlit_app.py:454-528 | no request without a job id, and "please enter a job ID" exactly then; otherwise the endpoint is /transcript/export/<id>/<format><query>; a 200 reply is offered under the download name with the format's MIME type; every other reply ends in the corrected reading: "not found" exactly for 404, an API error with the reply's code, "failed to connect" exactly when no reply arrived |
| StatusBadge.StatusClass | streamlit_app.py:96-101 | the table lookup by the lower-cased status with "processing" as the default; characterised by `StatusClassCases` |
| StatusBadge.Label | streamlit_app.py:102-102 | the status upper-cased; characterised by `LabelSpec` |
| StatusBadge.FormatStatus | streamlit_app.py:94-102 | the badge span with the class and the label; `FormatStatusIgnoresCase` states that it depends on the status only up to letter case |
| StatusBadge.StatusClassCases | streamlit_app.py:94-102 | the class is one of success, processing and failed: success exactly for "completed" and failed exactly for "failed", in any letter case, and processing for every other status |
| StatusBadge.StatusClassIgnoresCase | streamlit_app.py:101-102 | a status and its upper-cased label get the same class |
| StatusBadge.LabelSpec | streamlit_app.py:102 | the label is the status upper-cased: same length, no lower-case letter, equal to the status after `lower()` |
| StatusBadge.FormatStatusIgnoresCase | streamlit_app.py:94-102 | the badge HTML depends on the status only up to letter case |
| Responses.Truthy | streamlit_app.py:306-306 | a reply is true in a condition exactly when it arrived and its code is not in 400 to 599, as a `requests` response is |
| Responses.ClassifyAsWritten | streamlit_app.py:306-332 | the branches as written (success test, `elif response`, `else`), with the 404 branch of the export flow; its consequences are `ErrorRepliesShownAsConnectionFailure` and `ExportNotFoundUnreachable` |
| Responses.Classify | streamlit_app.py:520-526 | the branches with `elif response is not None`; characterised by `ErrorRepliesReported` and `ExportNotFoundReported` |
| Responses.ErrorRepliesShownAsConnectionFailure | streamlit_app.py:306-332 | as written, every reply with a code from 400 to 599 takes the "Failed to connect" branch |
| Responses.ExportNotFoundUnreachable | streamlit_app.py:520-526 | as written, the export flow never produces the "not found" message; a 404 reply is reported as a failure to connect |
| Responses.ErrorRepliesReported | streamlit_app.py:306-332 | corrected: "failed to connect" exactly when no reply arrived; success exactly for a success code; an API error carries the reply's own code |
| Responses.ExportNotFoundReported | streamlit_app.py:520-526 | corrected: the export flow shows "not found" exactly for a 404 reply |
| Responses.SuccessUnaffected | streamlit_app.py:306 | the written reading and the corrected one agree on when submission and status checks succeed, so they agree on every history change |

## Left out

- Rendering: page setup, CSS, tabs, expanders, spinners, progress bars, the download button and `st.rerun`. They are display only. The bullet of the recent-jobs labels is kept. The rest of each expander is not.
- The panel gating: the token box appears only while no token is set, and the Logout button only while one is. `Authenticate` and `Logout` may be called in any state; `Authenticate` promises `InSync` when called from the logged-out state.
- `make_api_request` is network I/O through `requests`. Each flow receives the reply as a parameter. The wrapper swallows its own `ValueError` for an unsupported method and returns None. No flow passes such a method.
- `requests` maps a `Response` to a truth value (false for codes 400 to 599). That is library behaviour, assumed as `Responses.Truthy`.
- The MD5 digest in `get_user_hash`. It is the uninterpreted `userHash`, whose results have 16 characters.
- JSON: speakers parsing is the `speakersJson` oracle. `response.json()` is assumed to yield the job fields read. A body without them, which would raise, is not modelled. The JSON preview of an export is display only.
- The clock: `datetime.now()` readings are passed in already formatted.
- Auto-refresh's `time.sleep(5)` and rerun. Only the decision to repeat is modelled (`CheckStatus` returns `again`).
- Upload bytes, response bodies, and the reply text shown with an error.
- Python object aliasing. The same dict is inserted into both lists, and the reload is a shallow copy, so position i of the session list and of the bucket is one object. Records are values here. In every state the application reaches, `SessionStore.InSync` holds: the session list is a prefix of the bucket. By `Jobs.FirstIndexOfPrefix` both scans then hit the same position, so the shared object gets the same status either way, and value records describe both lists exactly. The model does not represent object identity. So from a state outside `InSync` it would not show the aliasing. One such state is authenticating again while logged in, which the interface does not offer.
- The widgets' default values: the "Remove Word-level Timestamps" box starts ticked, and the four processing boxes start as ticked, ticked, ticked, unticked. All widget values are inputs of the model. Only the export form's defaults are written down, as `Export.DefaultOptions`; with them it sends "?remove_word_level_timestamps=1" (`Export.QueryStringOfDefaults`).
- `check_job_id` and `download_job_id`: this file never sets them to anything but None. Their pre-fill has no effect.
- `Strings.ToLower`, `Strings.ToUpper`: only ASCII letters are mapped. Python's `lower()`/`upper()` also map other Unicode letters.
- `Session.SessionStore.Submit`, `Session.SessionStore.CheckStatus`, `Export.ExportTranscript`: they use the corrected reply reading of `Responses.Classify`. The history changes are exactly as written (`Responses.SuccessUnaffected`). Only the reported error outcome differs from the source. See Findings.

## Findings

| source | as written | input that shows it | evidently intended | confidence | as-written member | corrected member |
|---|---|---|---|---|---|---|
| streamlit_app.py:520-526 | `elif response:` guards the 404 branch, but a `requests` response with code 404 is falsy | an export reply with code 404 shows "Failed to connect to the API" | `elif response is not None:`, so that 404 shows "Transcript not found. Make sure the job is completed." | not executed; high | Responses.ExportNotFoundUnreachable | Responses.ExportNotFoundReported |
| streamlit_app.py:329-332 | `elif response:` guards the "Error <code>" branch of submit (and likewise of the status check, streamlit_app.py:412-415), but replies with codes 400 to 599 are falsy | a submission or status reply with code 401 or 500 shows "Failed to connect to the API" | `elif response is not None:`, so that API errors are shown with their code and body | not executed; high | Responses.ErrorRepliesShownAsConnectionFailure | Responses.ErrorRepliesReported |
