# Draft Weaver — a Dafny model of the draft and post lifecycle

Draft Weaver is a content-automation app. Creators upload media, which becomes
**drafts**. A draft is edited, captioned and scheduled as one
**scheduled post** per platform, and finally posted. The backend is a set of
Supabase edge functions, most of them webhooks called by an n8n automation
and guarded by an HMAC-SHA256 signature. The browser client holds the upload
queue, the draft list, the editor, the dashboard counters and the settings
page.

This project models three parts of the app.

- **The lifecycle handlers**, as pure transitions
  `Store × Request → Store × Response`:
  - `schedule-post`, `mark-posted`, `process-scheduled-posts`;
  - `request-edit`, `generate-caption`;
  - `analyze-style`, `style-build`.

  The `Store` holds drafts, scheduled posts, events and profiles as maps and
  a sequence. Store failures are a `Faults` record naming which calls fail.
  `NoFaults` is the infallible store.
- **The webhook signature gate** on the server, and its client twin. HMAC is
  an uninterpreted function parameter. The lower-case hex encoder is modelled
  in full.
- **The client helpers**:
  - the draft list filter, the selection toggle and the status badge and label;
  - the upload queue: adding and removing files, the status and progress
    steps, the file extension, the "Upload All" loop, and the drop-zone filter;
  - the queue card's controls;
  - the status tallies and the dashboard counters;
  - the editor's form load, its save as written (which the store refuses) and
    as intended, and the bodies of its schedule and edit requests, which are
    sent unsigned;
  - the settings page's camelCase labels;
  - the `isStyleProfile` guard over a JSON datatype.

Modules follow the source files. Shared modules:
- `Wrappers` (Option);
- `Seqs` (filter, subsequence, distinctness);
- `Text` (ASCII case, trim, split, replace-first);
- `JsonValue`;
- `Hex`;
- `Signature`;
- `Entities` (rows, store, responses, faults, and the store invariant `Consistent`).

Every handler's contract does three things:
- it fixes the gate order. For the signature-gated lifecycle handlers
  (schedule-post, mark-posted, request-edit, generate-caption) this is 401,
  then the parse failure as 500, then 400, then 404, then the write. Three
  handlers differ:
  - analyze-style checks the signature (401), then parses the body (500),
    then checks the bearer token and its session (401 again);
  - style-build checks the authorization header and its session (401 twice)
    before it reads the body (500), then the samples (400), then the API key (500);
  - the sweep has no 401 at all: its only gate is the failed fetch (500);
- it says that every failure before the write leaves the store unchanged;
- it describes the effect of a success. For the single-row handlers this is
  the exact new row. For `mark-posted` and the sweep it is given through the
  helper functions that compute the new post and draft maps.

Each of the seven handlers has a lemma saying that it keeps `Consistent`:
rows are keyed by their ids, posts reference existing drafts, and a `posted`
draft has no unposted post. Each lemma names the store faults under which this holds.

## Model

| member | source | states |
|---|---|---|
| Hex.HexDigit | supabase/functions/_shared/auth.ts:22-24 | a nibble is spelled with a lower-case hex digit |
| Hex.DigitValue | supabase/functions/_shared/auth.ts:22-24 | each lower-case hex digit has exactly one nibble spelling it (inverse of HexDigit) |
| Hex.PadStart | supabase/functions/_shared/auth.ts:22-24 | `padStart` keeps a long enough string and otherwise left-fills it with the fill character up to the width |
| Hex.ToRadix16 | supabase/functions/_shared/auth.ts:22-24 | `toString(16)` yields at least one digit |
| Hex.ByteHex | supabase/functions/_shared/auth.ts:22-24 | a byte is two zero-padded hex digits, high nibble first |
| Hex.Encode | supabase/functions/_shared/auth.ts:22-24 | the hex of n bytes has length 2n; characters 2i and 2i+1 spell byte i |
| Hex.EncodeIsLowerHex | supabase/functions/_shared/auth.ts:22-24 | the encoding uses only `0-9a-f` |
| Hex.DecodeEncode | supabase/functions/_shared/auth.ts:22-24 | decoding the hex gives back the digest bytes |
| Hex.EncodeInjective | supabase/functions/_shared/auth.ts:22-24 | different digests have different hex spellings |
| Hex.LetterAt | supabase/functions/_shared/auth.ts:22-26 | a low nibble of ten or more is written as one of the letters `a-f` at its position |
| Text.UpperDiffersAt | supabase/functions/_shared/auth.ts:26 | upper-casing changes any string that holds a lower-case letter |
| Signature.Expected | supabase/functions/_shared/auth.ts:16-24 | the expected header is 64 characters and decodes to HMAC(secret, body) |
| Signature.VerifyAutomationSignature | supabase/functions/_shared/auth.ts:4-31 | a missing or empty signature is refused; an unset or empty secret is refused; otherwise it accepts iff the header equals the lower-case hex digest of the body |
| Signature.UpperDiffers | supabase/functions/_shared/auth.ts:22-26 | the upper-case spelling differs from the hex whenever a nibble is a letter |
| Signature.UppercaseRejected | supabase/functions/_shared/auth.ts:26 | the upper-case hex of the correct digest is refused, because comparison is strict |
| Signature.AcceptedSignatureIsUnique | supabase/functions/_shared/auth.ts:26 | at most one header value passes for a given body and secret |
| N8n.SignForN8N | src/lib/n8n.ts:9-13 | the client signature is 64 hex characters decoding to HMAC(secret, body), and depends only on body and secret |
| N8n.VerifyAutomationSignature | src/lib/n8n.ts:15-27 | a null or empty header is refused; an accepted header decodes to the body's digest |
| N8n.SignThenVerify | src/lib/n8n.ts:9-22 | round trip: a body signed with a secret verifies under it |
| N8n.OtherSignaturesRejected | src/lib/n8n.ts:21-22 | any header other than the computed signature is refused |
| N8n.AgreesWithServerGate | src/lib/n8n.ts:15-27 | with a non-empty secret the client check and the server gate accept the same requests |
| N8n.ReadConfig | src/lib/n8n.ts:5-7 | a set base URL and secret are kept as given and unset ones become empty strings; the flag is on only for the text `true` |
| N8n.FlagDecidesStubs | src/lib/n8n.ts:5-72 | the stubs complete iff the flag variable is exactly `true`; with the variable unset every stub throws "N8N integration not enabled" |
| N8n.Endpoint | src/lib/n8n.ts:29-34 | each endpoint URL is the base, a slash, then the operation's name |
| N8n.EndpointsDistinct | src/lib/n8n.ts:29-34 | different operations never share a URL |
| N8n.Invoke | src/lib/n8n.ts:37-72 | with the flag off every webhook stub throws "N8N integration not enabled"; with it on none throws |
| Entities.StatusNameInjective | src/hooks/useDrafts.tsx:17 | the six draft statuses are stored as six different strings |
| SchedulePost.Apply | supabase/functions/schedule-post/index.ts:57-95 | after the insert there is one new `scheduled` row per platform, in order, with the draft id, the platform and the requested time; old rows are kept; the draft becomes `scheduled` whatever it was, unless its update fails (then 500, with the rows still inserted) |
| SchedulePost.Handle | supabase/functions/schedule-post/index.ts:18-104 | the gate order is 401, then 500 for unparsable JSON, then 400 (missing draftId, empty platforms or missing time), then 404, then 500 if the insert fails; every refusal leaves the drafts unchanged; the reply is 200 iff every gate and write passes |
| SchedulePost.RowCount | supabase/functions/schedule-post/index.ts:57-74 | a successful insert grows the posts table by exactly the number of platforms |
| SchedulePost.RepeatDuplicates | supabase/functions/schedule-post/index.ts:57-74 | there is no deduplication: repeating a call adds a second identical row for every platform |
| SchedulePost.PreservesConsistency | supabase/functions/schedule-post/index.ts:57-91 | with an infallible store the handler keeps the store invariant |
| MarkPosted.MarkedPost | supabase/functions/mark-posted/index.ts:56-62 | the post becomes `posted` whatever its status; the external id is replaced only when one is supplied; nothing else changes |
| MarkPosted.PromoteDraft | supabase/functions/mark-posted/index.ts:85-93 | only the post's own draft can change, and only to `posted` with a new `updated_at` |
| MarkPosted.Handle | supabase/functions/mark-posted/index.ts:17-106 | the gate order is 401, then 500 for unparsable JSON, then 400, then 404; failures leave the store unchanged; on success only the referenced post and its draft change; the post is marked as `MarkedPost` says and the drafts map is exactly `PromoteDraft`'s result, so the draft is either untouched or only its status (to `posted`) and `updated_at` change; it ends `posted` iff it was, or the remaining-posts query found none (or failed) and the update went through |
| MarkPosted.LastPostPromotes | supabase/functions/mark-posted/index.ts:78-93 | when every other post of the draft is posted, an infallible store promotes the draft |
| MarkPosted.PendingPostBlocks | supabase/functions/mark-posted/index.ts:78-93 | a sibling post that is still `scheduled` keeps the draft unchanged |
| MarkPosted.QueryFailurePromotesEarly | supabase/functions/mark-posted/index.ts:77-84 | a failed remaining-posts query counts as "none remaining" and promotes a draft that still has a scheduled post |
| MarkPosted.Idempotent | supabase/functions/mark-posted/index.ts:56-93 | repeating a successful call changes no post and no draft status (only `updated_at` may move) |
| MarkPosted.PreservesConsistency | supabase/functions/mark-posted/index.ts:56-93 | unless a remaining-posts query fails, the handler keeps the store invariant |
| ProcessScheduledPosts.ExternalId | supabase/functions/process-scheduled-posts/index.ts:42 | the simulated external id starts with `sim_`, then the platform, then `_` |
| ProcessScheduledPosts.PostedEvent | supabase/functions/process-scheduled-posts/index.ts:52-63 | the event is `posted`, owned by the draft's owner, refers to the draft, and its payload holds exactly the post's platform, the post id and `simulated: true` |
| ProcessScheduledPosts.Handle | supabase/functions/process-scheduled-posts/index.ts:16-97 | a failed fetch answers 500 and changes nothing; otherwise every due post is sent unless its update fails and no other post changes; exactly the events for the processed posts, in order, are appended; the reply's count is the number of selected posts whose update succeeded; drafts change only to `posted`, and only when one of their posts was selected |
| ProcessScheduledPosts.MarkAll | supabase/functions/process-scheduled-posts/index.ts:33-66 | the marking loop marks exactly the selected posts whose update succeeds, appends one `posted` event for each of them in order, and counts them |
| ProcessScheduledPosts.PromoteAll | supabase/functions/process-scheduled-posts/index.ts:68-88 | the promotion loop visits each distinct draft of the selected posts once and applies the promotion rule to it |
| ProcessScheduledPosts.Run | supabase/functions/process-scheduled-posts/index.ts:33-97 | the two loops of the handler (mark and log each row, then promote each distinct draft) compute exactly the reply `Handle` describes |
| ProcessScheduledPosts.EmptySweep | supabase/functions/process-scheduled-posts/index.ts:33-97 | when nothing is due the sweep answers 0 and changes nothing |
| ProcessScheduledPosts.ProcessesAllDue | supabase/functions/process-scheduled-posts/index.ts:19-65 | with an infallible store every selected post is processed and no due `scheduled` post is left |
| ProcessScheduledPosts.SecondSweepIdle | supabase/functions/process-scheduled-posts/index.ts:19-35 | a second sweep at the same time processes 0 posts and changes nothing |
| ProcessScheduledPosts.PromotionRule | supabase/functions/process-scheduled-posts/index.ts:69-88 | a draft with a selected post ends `posted` iff it was, or none of its posts is left unposted (or the query failed) and its update went through; any other draft is unchanged |
| ProcessScheduledPosts.PreservesConsistency | supabase/functions/process-scheduled-posts/index.ts:37-88 | unless a remaining-posts query fails, the sweep keeps the store invariant |
| RequestEdit.StatusAfter | supabase/functions/request-edit/index.ts:57-78 | the new status is `draft` iff a non-empty render path is given, and `editing` otherwise |
| RequestEdit.MetadataAfter | supabase/functions/request-edit/index.ts:57-78 | with a render path, metadata gains `render_path` and `edit_preset` (the preset or null); without one it gains `edit_preset` only when a preset is given, and is otherwise untouched; every other key is preserved |
| RequestEdit.Handle | supabase/functions/request-edit/index.ts:18-91 | the gate order is 401, then 500 for unparsable JSON, then 400, then 404; failures leave the store unchanged; on success only the target draft's status, metadata and `updated_at` change, whatever its prior status |
| RequestEdit.EditThenRender | supabase/functions/request-edit/index.ts:57-78 | an edit request followed by a render report leaves the draft in `draft`, with the render path and preset recorded and the original keys kept |
| RequestEdit.PreservesConsistency | supabase/functions/request-edit/index.ts:57-91 | the handler keeps the store invariant, whatever fails |
| GenerateCaption.CaptionAfter | supabase/functions/generate-caption/index.ts:55-62 | a non-empty caption is kept; a null or empty one becomes the placeholder; the result is never empty |
| GenerateCaption.Handle | supabase/functions/generate-caption/index.ts:16-75 | the gate order is 401, then 500 for unparsable JSON, then 400, then 404; on success the draft becomes `caption_ready` whatever its status, only status, caption and `updated_at` change, the caption is non-empty, and no event is written |
| GenerateCaption.Idempotent | supabase/functions/generate-caption/index.ts:55-62 | a second call leaves the caption and the status as the first call set them |
| GenerateCaption.PreservesConsistency | supabase/functions/generate-caption/index.ts:55-75 | the handler keeps the store invariant, whatever fails |
| AnalyzeStyle.Placeholder | supabase/functions/analyze-style/index.ts:34-44 | the placeholder profile has status `placeholder`, the given source or `manual`, the current time and the fixed insights, and passes `isStyleProfile` |
| AnalyzeStyle.Token | supabase/functions/analyze-style/index.ts:47-48 | a token exists iff the header does |
| AnalyzeStyle.BearerStripped | supabase/functions/analyze-style/index.ts:48 | `Bearer <t>` yields `t` |
| AnalyzeStyle.BareTokenKept | supabase/functions/analyze-style/index.ts:48 | a header without `Bearer ` passes through unchanged |
| AnalyzeStyle.SchemeOnlyRefused | supabase/functions/analyze-style/index.ts:47-55 | a header that is only `Bearer ` leaves an empty token and is answered 401 |
| AnalyzeStyle.Handle | supabase/functions/analyze-style/index.ts:16-78 | the signature is checked before the token (401, then 500 for unparsable JSON, then 401 for a missing or unknown token); on success only the caller's profile row changes, and it gets the placeholder |
| AnalyzeStyle.StoredProfileRecognised | supabase/functions/analyze-style/index.ts:67-78 | the stored profile passes the client's guard with status `placeholder` |
| AnalyzeStyle.Idempotent | supabase/functions/analyze-style/index.ts:67-78 | repeating a successful call at the same time changes nothing more |
| AnalyzeStyle.PreservesConsistency | supabase/functions/analyze-style/index.ts:67-78 | the handler keeps the store invariant, whatever fails |
| StyleBuild.SampleCount | supabase/functions/style-build/index.ts:117 | `sample_count` is at most the number of lines |
| StyleBuild.SampleCountConcat | supabase/functions/style-build/index.ts:117 | the count of two texts joined by a newline is the sum of their counts; with SingleLineCount this pins the count to the number of lines whose trimmed length exceeds ten |
| StyleBuild.SingleLineCount | supabase/functions/style-build/index.ts:117 | a single line counts once exactly when its trimmed length exceeds ten |
| StyleBuild.FinalProfile | supabase/functions/style-build/index.ts:112-118 | the profile keeps every key the model supplied, except that `status`, `source`, `analyzed_at` and `sample_count` always take the stamped values (`sample_count` is the count the handler computes with `SampleCount`); the result passes `isStyleProfile` |
| StyleBuild.BuiltEvent | supabase/functions/style-build/index.ts:135-140 | the `style.built` event belongs to the user and carries the profile's `sample_count`, plus its `tone` exactly when the profile has one |
| StyleBuild.Handle | supabase/functions/style-build/index.ts:16-148 | no or unknown authorization gives 401; an unreadable body gives 500; missing or short samples give 400; every later failure (no key, model error, unparsable output, failed update) gives 500 with nothing written; on success only the caller's profile changes, and exactly one event is appended |
| StyleBuild.StoredEqualsReturned | supabase/functions/style-build/index.ts:121-148 | the returned profile is the stored one, and it passes the client's guard |
| StyleBuild.PreservesConsistency | supabase/functions/style-build/index.ts:121-148 | the handler keeps the store invariant, whatever fails |
| StyleTypes.IsStyleProfile | src/types/style.ts:26-28 | accepts exactly the objects whose `status` is a string: null, false, strings, numbers, booleans, arrays and objects with a missing or non-string status are refused |
| StyleTypes.StatusDecides | src/types/style.ts:27 | a string `status` makes any object pass, and no other key matters |
| StatusView.BadgeVariant | src/pages/Drafts.tsx:32-41 | `scheduled` is outline; `editing`, `caption_ready` and `posted` are default; anything else is secondary (DraftEditor.tsx uses the same mapping at lines 170-179) |
| StatusView.LabelReplacesFirst | src/pages/Drafts.tsx:179 | the label replaces the first `_` with a space and keeps the rest |
| StatusView.LabelWithoutUnderscore | src/pages/Drafts.tsx:179 | a status without `_` is shown unchanged |
| StatusView.StatusLabels | src/pages/Drafts.tsx:179 | `caption_ready` is shown as `caption ready`; every other status as stored |
| StatusView.LabelsDistinct | src/pages/Drafts.tsx:179 | different statuses get different labels |
| DraftsPage.Visible | src/pages/Drafts.tsx:60-64 | a draft is shown iff it matches the status filter (`all` or equal) and has a title containing the query, ignoring case; untitled drafts are never shown |
| DraftsPage.VisibleIsSubsequence | src/pages/Drafts.tsx:60-64 | the shown list keeps the drafts' order |
| DraftsPage.EmptyQueryShowsTitled | src/pages/Drafts.tsx:61-62 | with `all` and an empty query, exactly the titled drafts are shown |
| DraftsPage.FilterByStatus | src/pages/Drafts.tsx:61 | with a status filter, every shown draft has that status |
| DraftsPage.Toggle | src/pages/Drafts.tsx:43-49 | toggling flips the id's membership and keeps every other id; an absent id is appended; a present id is removed everywhere |
| DraftsPage.FilterShorter | src/pages/Drafts.tsx:45-46 | removing a present id shortens the list |
| DraftsPage.ToggleKeepsDistinct | src/pages/Drafts.tsx:43-49 | a duplicate-free selection stays duplicate-free |
| DraftsPage.ToggleTwiceRestores | src/pages/Drafts.tsx:43-49 | toggling an absent id twice restores the selection |
| FileUpload.Fresh | src/hooks/useFileUpload.tsx:20-29 | a new entry is `pending` with progress 0, and has no media path or draft |
| FileUpload.AddFiles | src/hooks/useFileUpload.tsx:20-30 | one new entry per file is appended, in input order; existing entries are unchanged |
| FileUpload.RemoveFile | src/hooks/useFileUpload.tsx:32-34 | exactly the entries with that id are removed; the rest keep their order and every copy of each (multiset counts equal) |
| FileUpload.Update | src/hooks/useFileUpload.tsx:40-82 | a state update changes only the entries with the given id |
| FileUpload.TickOne | src/hooks/useFileUpload.tsx:49-55 | a tick adds 10 below 90 and otherwise changes nothing |
| FileUpload.Ticked | src/hooks/useFileUpload.tsx:49-55 | ticks touch only progress and keep it a multiple of 10 within 0..100 |
| FileUpload.TickedProgress | src/hooks/useFileUpload.tsx:49-55 | after n ticks progress is min(p + 10n, 90) when p < 90, and stays p otherwise |
| FileUpload.MarkUploadingOnlyStatus | src/hooks/useFileUpload.tsx:40-42 | marking `uploading` changes only the matching entry's status |
| FileUpload.TickOnlyMatching | src/hooks/useFileUpload.tsx:49-55 | a tick advances only the matching entry |
| FileUpload.StepsKeepProgress | src/hooks/useFileUpload.tsx:40-82 | every step keeps progress a multiple of 10 within 0..100 |
| FileUpload.UpdateKeepsProgress | src/hooks/useFileUpload.tsx:40-82 | applying such a step to the queue keeps every entry's progress well-formed |
| FileUpload.AddKeepsProgress | src/hooks/useFileUpload.tsx:20-30 | adding files keeps every entry's progress well-formed |
| FileUpload.AddThenRemove | src/hooks/useFileUpload.tsx:20-34 | adding a file under a new id and then removing that id restores the queue |
| FileUpload.FileExt | src/hooks/useFileUpload.tsx:44 | the extension contains no dot |
| FileUpload.ExtAfterLastDot | src/hooks/useFileUpload.tsx:44 | the extension is the text after the last dot |
| FileUpload.ExtWithoutDot | src/hooks/useFileUpload.tsx:44 | a name without a dot is its own extension |
| FileUpload.ObjectName | src/hooks/useFileUpload.tsx:44-45 | the storage name is the user and a slash, then the stamp, then a dot, and is as long as that plus the extension |
| FileUpload.ObjectNameKeepsExt | src/hooks/useFileUpload.tsx:44-45 | the storage name has the same extension as the file |
| UploadPage.MediaTypeOf | src/pages/Upload.tsx:30 | `image` iff the MIME type starts with `image/`, else `video` |
| UploadPage.TitleOf | src/pages/Upload.tsx:31 | the title contains no dot |
| UploadPage.TitleBeforeFirstDot | src/pages/Upload.tsx:31 | the title is the text before the first dot |
| UploadPage.TitleWithoutDot | src/pages/Upload.tsx:31 | a name without a dot is its own title |
| UploadPage.DotfileUntitled | src/pages/Upload.tsx:31 | a name starting with a dot has an empty title |
| UploadPage.PendingFiles | src/pages/Upload.tsx:21 | exactly the `pending` entries are selected, in queue order |
| UploadPage.Final | src/pages/Upload.tsx:24-43 | a stored file ends `completed` with progress 100 and its path; a rejected one ends `error` with its path unchanged; a draft id is attached only after a stored upload whose draft was created |
| UploadPage.FailureStopsShort | src/hooks/useFileUpload.tsx:49-82 | a failed upload never lowers progress, and one that starts at most at 90 (a pending file starts at 0) stays at most at 90 |
| UploadPage.StepPointwise | src/pages/Upload.tsx:24-43 | handling one file changes only the entries with its id |
| UploadPage.AllStoredRequestsEach | src/pages/Upload.tsx:29-33 | when every upload is stored, one draft is requested per file, as a `draft` with its path, media type and title |
| UploadPage.SweepPointwise | src/pages/Upload.tsx:20-45 | after the loop, each processed entry holds its own final state and every other entry is unchanged; a failed file does not stop the rest |
| UploadPage.SignedOutKeepsQueue | src/pages/Upload.tsx:24-27 | without a signed-in user nothing is uploaded and no draft is requested |
| UploadPage.RunPointwise | src/pages/Upload.tsx:20-45 | over the pending entries, the loop's result is pointwise and keeps progress well-formed |
| UploadPage.StartUpload | src/pages/Upload.tsx:20-45 | the "Upload All" loop visits the pending entries in order: each entry ends in its own final state, the others are unchanged, and one draft request is made per stored file |
| UploadZone.Drop | src/components/FileUploadZone.tsx:13-23 | a drop keeps exactly the image and video files, in order |
| UploadZone.DropIdempotent | src/components/FileUploadZone.tsx:18-21 | filtering a drop again changes nothing |
| UploadZone.DropMatchesSelect | src/components/FileUploadZone.tsx:13-28 | drop and file picker agree iff every file is media (the picker does not filter) |
| UploadQueueView.StatusText | src/components/FileUploadQueue.tsx:72 | a failed upload is shown as `error` |
| UploadQueueView.Badge | src/components/FileUploadQueue.tsx:65-69 | each status maps to its badge both ways: completed iff default, uploading iff secondary, error iff destructive, pending iff outline |
| UploadQueueView.BadgeInjective | src/components/FileUploadQueue.tsx:65-69 | each upload status has its own badge |
| UploadQueueView.AddedShowRemove | src/components/FileUploadQueue.tsx:58-80 | newly added entries show the remove button and no progress bar |
| UploadQueueView.SettledShowsNoControls | src/components/FileUploadQueue.tsx:58-80 | an entry whose upload has settled shows neither the remove button nor the progress bar |
| UploadQueueView.RunHidesControls | src/components/FileUploadQueue.tsx:58-80 | after a signed-in "Upload All" no entry shows the remove button, and the progress bar shows only on entries that were already uploading |
| UploadQueueView.UploadAllDisabled | src/components/FileUploadQueue.tsx:91 | "Upload All" is enabled iff some entry is `pending` |
| UploadQueueView.ViewDraftsDisabled | src/components/FileUploadQueue.tsx:99 | "View Drafts" is enabled iff some entry is `completed` |
| UploadQueueView.AddEnablesUpload | src/components/FileUploadQueue.tsx:91 | adding files enables "Upload All" |
| UploadQueueView.RunDisablesUpload | src/components/FileUploadQueue.tsx:91 | after a signed-in "Upload All", no entry is pending and the button is disabled |
| UploadQueueView.CompletedAfterRun | src/components/FileUploadQueue.tsx:99 | after a signed-in "Upload All", an entry is completed iff it was completed before or was pending and its upload was stored |
| UploadQueueView.RunEnablesViewDrafts | src/components/FileUploadQueue.tsx:99 | after a signed-in "Upload All", "View Drafts" is enabled iff some entry was completed before or was pending and its upload was stored |
| ContentQueue.TallyCounts | src/components/ContentQueue.tsx:33-36 | the tally has a key for a status iff some draft has it, and the value is that count |
| ContentQueue.TallyKeys | src/components/ContentQueue.tsx:33-36 | every tally key is a status name |
| ContentQueue.TileCount | src/components/ContentQueue.tsx:57 | a tile shows its status's count, or 0 when there are none or no drafts are loaded |
| ContentQueue.Shown | src/components/ContentQueue.tsx:38-57 | one number per configured tile, each its status's count |
| ContentQueue.TotalSnoc | src/components/ContentQueue.tsx:33-36 | one more draft adds one to exactly its own status's count |
| ContentQueue.TotalOnce | src/components/ContentQueue.tsx:33-36 | over any list naming each status exactly once, the counts sum to the number of drafts |
| ContentQueue.TotalAll | src/components/ContentQueue.tsx:33-36 | the counts over all statuses sum to the number of drafts |
| ContentQueue.TilesMissFailed | src/components/ContentQueue.tsx:38-44 | `failed` drafts are counted but have no tile |
| Dashboard.StatsOf | src/pages/Dashboard.tsx:26-30 | `drafts` is the number of drafts; `scheduled` and `posted` count exact status matches |
| Dashboard.IsFirstLogin | src/pages/Dashboard.tsx:32 | true iff there are no drafts |
| Dashboard.StatsBounded | src/pages/Dashboard.tsx:26-30 | scheduled plus posted is at most the number of drafts |
| Dashboard.StatsMatchTiles | src/pages/Dashboard.tsx:26-30 | the dashboard counters equal the content queue's `scheduled` and `posted` tiles |
| Dashboard.Greeting | src/pages/Dashboard.tsx:40 | the greeting is never empty, and is the part before `@` or `there` |
| Dashboard.GreetsLocalPart | src/pages/Dashboard.tsx:40 | `name@domain` is greeted as `name` |
| Dashboard.EmptyLocalPartFallsBack | src/pages/Dashboard.tsx:40 | an address starting with `@` is greeted as `there` |
| DraftEditor.OrEmpty | src/pages/DraftEditor.tsx:36-48 | a missing or empty value loads as the empty string, and any other value as itself |
| DraftEditor.NullIfEmpty | src/pages/DraftEditor.tsx:80-85 | an empty field saves as null, and any other as itself |
| DraftEditor.NullIfEmptyOrEmpty | src/pages/DraftEditor.tsx:36-85 | load and save normalisation are inverse up to empty-versus-null |
| DraftEditor.FormOf | src/pages/DraftEditor.tsx:36-48 | the form shows the draft's fields, with null text as empty and the publish time in local form |
| DraftEditor.WriteRow | src/hooks/useDrafts.tsx:79-90 | the update is refused iff the row names a key that is not a column of `drafts`; otherwise the six fields are written |
| DraftEditor.HandleSave | src/pages/DraftEditor.tsx:75-91 | as written, the row is `{ updates }`, which the store refuses, so the stored draft is unchanged |
| DraftEditor.SaveIsLost | src/pages/DraftEditor.tsx:75-91 | as written, any edited form is lost: reloading after the save shows the old form |
| DraftEditor.SaveIsLostExample | src/pages/DraftEditor.tsx:75-91 | a title typed into an untitled draft is gone after the save, and would be kept by the intended save |
| DraftEditor.IntendedSave | src/pages/DraftEditor.tsx:75-91 | the intended save: a row of the six fields is accepted and gives `Saved` |
| DraftEditor.Saved | src/pages/DraftEditor.tsx:75-91 | a written save changes only the six edited fields |
| DraftEditor.SaveThenLoad | src/pages/DraftEditor.tsx:36-91 | once the fields are written, reloading the draft gives back the same form |
| DraftEditor.IntendedSaveThenLoad | src/pages/DraftEditor.tsx:36-91 | with the intended save, the edited form survives a reload |
| DraftEditor.LoadThenSave | src/pages/DraftEditor.tsx:36-91 | writing back an unedited form only turns empty text into null |
| DraftEditor.ScheduleDisabled | src/pages/DraftEditor.tsx:326 | apart from the in-flight flag, the button is disabled exactly when the guard of `handleSchedule` (line 136) would refuse |
| DraftEditor.Platforms | src/pages/DraftEditor.tsx:143-145 | `instagram` is present iff its flag is set, likewise `tiktok`; no duplicates; the length is the number of set flags |
| DraftEditor.ScheduleRequest | src/pages/DraftEditor.tsx:135-151 | a request is sent iff a platform and a publish time are set, carrying the draft id, the platforms and the time |
| DraftEditor.ScheduleRequestComplete | src/pages/DraftEditor.tsx:135-151 | every request the editor sends passes the server's required-fields check |
| DraftEditor.WebhookCall | src/lib/webhooks.ts:11-15 | a webhook call carries the body and no `x-signature` header, so no server configuration authenticates it |
| DraftEditor.SignedCall | src/lib/n8n.ts:9-13 | the intended call, signed with the shared secret, is authentic exactly under a server holding that non-empty secret |
| DraftEditor.EditorScheduleRefused | src/pages/DraftEditor.tsx:135-151 | as written, the Schedule button's request is answered 401 and the store is unchanged |
| DraftEditor.EditorCaptionRefused | src/pages/DraftEditor.tsx:93-112 | as written, the Generate Caption button's request is answered 401 and the store is unchanged |
| DraftEditor.EditorEditRefused | src/pages/DraftEditor.tsx:114-133 | as written, the Request Edit button's request is answered 401 and the store is unchanged |
| DraftEditor.ScheduleFromEditor | src/pages/DraftEditor.tsx:135-151 | with the intended signed call, the request on an infallible store succeeds, adds one post per chosen platform and schedules the draft |
| DraftEditor.EditRequest | src/pages/DraftEditor.tsx:114-133 | the edit button asks for preset `silence-cut+captions` on this draft, without a render path |
| DraftEditor.EditActionForUploads | src/pages/DraftEditor.tsx:218 | for a draft the upload page created, the edit action is shown iff the uploaded file was not an image |
| SettingsLabels.LabelHasNoUpper | src/pages/Settings.tsx:253 | the label contains no upper-case ASCII letter |
| SettingsLabels.SpaceBeforeUpperConcat | src/pages/Settings.tsx:253 | inserting spaces works letter by letter, so it distributes over concatenation |
| SettingsLabels.LabelLength | src/pages/Settings.tsx:253 | the label's length is the name's length plus its number of capitals |
| SettingsLabels.NoUpperNoSpaces | src/pages/Settings.tsx:253 | a name without capitals gets no spaces |
| SettingsLabels.LowercaseUnchanged | src/pages/Settings.tsx:253 | an all-lower-case name is its own label |
| SettingsLabels.TwoWords | src/pages/Settings.tsx:253 | a lower-case head, one capital and a lower-case tail become head, space, lowered capital, tail |
| SettingsLabels.GenerateCaptionLabel | src/pages/Settings.tsx:253 | `generateCaption` is shown as `generate caption` |

## Left out

- Store and HTTP plumbing are not modelled: Supabase client calls, `Deno.serve`, CORS and the construction of `Response` objects. The store is a set of maps, and every store failure is a `Faults` entry.
- A failed lookup is modelled as a missing row, since the handlers answer 404 for both.
- Failures of event inserts are not modelled. The handlers never check their result.
- HMAC-SHA256 is an uninterpreted parameter `Mac`, because it is a foreign crypto library. UTF-8 encoding is folded into it.
- The language-model call in `style-build` and its `JSON.parse` are a parameter `analyze`, because they are an external service.
- The auth service's `getUser` is a `sessions` map from headers or tokens to user ids, because it is an external service.
- Clocks and randomness are parameters: `Date.now()`, `Math.random()`, ISO timestamps, the sweep's external-id stamps (`stamps`), the upload ids and the storage stamps. Nothing is claimed about their uniqueness.
- Dates are integers. The database's reading of the `scheduledFor` text is a parameter `at`, and an unreadable timestamp is an insert failure. The editor's local-time conversion is a parameter `local`. `analyzed_at` is stored as a number, not an ISO string.
- The upload's `setInterval` timing and the async upload loop are sequential steps. How many ticks fire before an upload settles is part of the upload's outcome (`Outcome.ticks`).
- Concurrent handler invocations racing at the store are not modelled.
- Upper-casing, lower-casing and `trim` are ASCII only. Unicode case mapping and whitespace are out.
- Object spread of a JSON string or array is modelled as empty. JavaScript would copy index keys.
- Post status has two values, `scheduled` and `posted`, because these are the only values the handlers write.
- The `samples` body field is only modelled as a string. Other JSON types are out.
- The other request bodies are typed too: each field is an optional value of the type the handler expects. A body field of another JSON type is not modelled. For example, a string `platforms` in `schedule-post` passes the `.length` check and then throws at `.map`, which the handler answers with 500 (supabase/functions/schedule-post/index.ts lines 30 and 57).
- `formatFileSize` is not modelled, because it uses floating point and logarithms.
- Out because they are rendering or thin wrappers:
  - toasts, navigation, page reloads and react-query caching;
  - `useDrafts`, `useSettings` and `useEvents`, except the draft update, which `WriteRow` models (`types.ts` is used as the source of the datatypes and the drafts columns);
  - `webhooks.ts`, except `callWebhook`'s unsigned call, which `WebhookCall` models;
  - the Style page, RecentActivity, UpcomingPosts, MediaPreview, Navigation, ProtectedRoute and AutomationSettings;
  - the parts of the Settings page other than the label.
- SettingsLabels.GenerateCaptionLabel: of the five webhook keys, only `generateCaption` is checked as a concrete string. `TwoWords` covers every name of the same shape.
- UploadPage.StartUpload: the pointwise description of the result assumes distinct upload ids. The source draws them at random, so this is not guaranteed.
- UploadPage.SweepPointwise: assumes distinct upload ids, as StartUpload does.
- UploadPage.RunPointwise: assumes distinct upload ids, as StartUpload does.
- UploadQueueView.RunDisablesUpload: assumes distinct upload ids, as StartUpload does.
- UploadQueueView.CompletedAfterRun: assumes distinct upload ids, as StartUpload does.
- UploadQueueView.RunEnablesViewDrafts: assumes distinct upload ids, as StartUpload does.
- UploadQueueView.RunHidesControls: assumes distinct upload ids, as StartUpload does.
- MarkPosted.PreservesConsistency: this is stated only when no remaining-posts query fails. `MarkPosted.QueryFailurePromotesEarly` shows why: the source treats a failed query as "none remaining".
- ProcessScheduledPosts.PreservesConsistency: this is stated only when no remaining-posts query fails, for the same reason.
- SchedulePost.PreservesConsistency: this is stated only for an infallible store. When the draft update fails on a `posted` draft, the new `scheduled` rows stay in the store, so a `posted` draft then has unposted posts and the invariant is broken.

## Findings

| source | as written | input that shows it | evidently intended | confidence | as-written member | corrected member |
|---|---|---|---|---|---|---|
| src/pages/DraftEditor.tsx:77-86 | `handleSave` passes `{ id, updates: {...} }` to `updateDraft` (src/hooks/useDrafts.tsx line 80), which spreads off `id` and writes the row `{ updates: {...} }`; `drafts` has no `updates` column, so the update is refused and the caught error is only logged | type the title `x` into an untitled draft and press Save: after a reload the title is empty | the six fields are passed at the top level and written to their columns | high, not executed | DraftEditor.HandleSave | DraftEditor.IntendedSave |
| src/lib/webhooks.ts:11-15 | `callWebhook` invokes the function with the body only and no `x-signature` header, while every webhook handler first demands that header, so the editor's Schedule, Generate Caption and Request Edit buttons are all answered 401 | press Schedule with Instagram ticked and a publish time set: the reply is 401 and no post is created | the body is signed with the shared secret, as `signForN8N` in src/lib/n8n.ts does | high, not executed | DraftEditor.EditorScheduleRefused | DraftEditor.ScheduleFromEditor |
