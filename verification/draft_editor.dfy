/**
 * The draft editor: the form loaded from a draft, the updates saved from
 * it, and the requests its three action buttons send.
 */
module DraftEditor {
  import opened Wrappers
  import opened Seqs
  import opened Entities
  import Signature
  import N8n
  import SchedulePost
  import RequestEdit
  import GenerateCaption
  import UploadPage
  import Text

  datatype FormData = FormData(title: string, caption: string, hashtags: string,
                               targetInstagram: bool, targetTiktok: bool, desiredPublishAt: string)

  /** The form before the draft has loaded. */
  const InitialForm: FormData := FormData("", "", "", true, false, "")

  /** `x || ''`. */
  function OrEmpty(o: Option<string>): (s: string)
    ensures s == "" <==> !Truthy(o)
    ensures Truthy(o) ==> s == o.value
  {
    if o.Some? then o.value else ""
  }

  /** `x || null`: the empty string is saved as null. */
  function NullIfEmpty(s: string): (o: Option<string>)
    ensures o.None? <==> s == ""
    ensures o.Some? ==> o.value == s
  {
    if s == "" then None else Some(s)
  }

  /** Emptiness is forgotten by a load and a save, and nothing else is. */
  lemma NullIfEmptyOrEmpty(o: Option<string>, s: string)
    ensures NullIfEmpty(OrEmpty(o)) == if Truthy(o) then o else None
    ensures OrEmpty(NullIfEmpty(s)) == s
  {
  }

  /**
   * The form filled from a draft. `local` stands for the conversion of the
   * stored time to the `datetime-local` input's text.
   */
  function FormOf(d: Draft, local: string -> string): (f: FormData)
    ensures f.title == OrEmpty(d.title) && f.caption == OrEmpty(d.caption) && f.hashtags == OrEmpty(d.hashtags)
    ensures f.targetInstagram == d.targetInstagram && f.targetTiktok == d.targetTiktok
    ensures f.desiredPublishAt == if Truthy(d.desiredPublishAt) then local(d.desiredPublishAt.value) else ""
  {
    FormData(OrEmpty(d.title), OrEmpty(d.caption), OrEmpty(d.hashtags), d.targetInstagram, d.targetTiktok,
             if Truthy(d.desiredPublishAt) then local(d.desiredPublishAt.value) else "")
  }

  /** The `updates` object `handleSave` sends. */
  datatype Updates = Updates(title: Option<string>, caption: Option<string>, hashtags: Option<string>,
                             targetInstagram: bool, targetTiktok: bool, desiredPublishAt: Option<string>)

  function SaveUpdates(f: FormData): Updates {
    Updates(NullIfEmpty(f.title), NullIfEmpty(f.caption), NullIfEmpty(f.hashtags),
            f.targetInstagram, f.targetTiktok, NullIfEmpty(f.desiredPublishAt))
  }

  /** The draft once the update is written. */
  function Saved(d: Draft, u: Updates): (e: Draft)
    ensures e.(title := None, caption := None, hashtags := None, targetInstagram := false, targetTiktok := false,
               desiredPublishAt := None) ==
            d.(title := None, caption := None, hashtags := None, targetInstagram := false, targetTiktok := false,
               desiredPublishAt := None)
  {
    d.(title := u.title, caption := u.caption, hashtags := u.hashtags, targetInstagram := u.targetInstagram,
       targetTiktok := u.targetTiktok, desiredPublishAt := u.desiredPublishAt)
  }

  /** The columns of the `drafts` table. */
  const DraftColumns: set<string> :=
    {"caption", "created_at", "desired_publish_at", "hashtags", "id", "media_path", "media_type", "metadata",
     "owner", "status", "target_instagram", "target_tiktok", "title", "updated_at"}

  /** The keys of a row holding the six edited fields. */
  const FieldKeys: set<string> :=
    {"title", "caption", "hashtags", "target_instagram", "target_tiktok", "desired_publish_at"}

  /**
   * The row `handleSave` hands to `updateDraft`: it passes `{ id, updates }`,
   * and `updateDraft` spreads off the `id`, so one key is left.
   */
  const SaveRowKeys: set<string> := {"updates"}

  /**
   * `update(row).eq('id', id)` on the drafts table: `None` when the store
   * refuses the row for naming a column the table lacks, otherwise the
   * draft with the fields written.
   */
  function WriteRow(d: Draft, keys: set<string>, u: Updates): (r: Option<Draft>)
    ensures r.None? <==> exists k :: k in keys && k !in DraftColumns
    ensures r.Some? ==> r.value == Saved(d, u)
  {
    if keys <= DraftColumns then Some(Saved(d, u)) else None
  }

  /** The stored draft after a row is written; a refusal is thrown, caught and logged, and stores nothing. */
  function StoredAfter(d: Draft, keys: set<string>, u: Updates): (e: Draft)
    ensures WriteRow(d, keys, u).None? ==> e == d
  {
    match WriteRow(d, keys, u)
    case Some(e) => e
    case None => d
  }

  /** `handleSave` as written: the row names the column `updates`, so the store refuses it. */
  function HandleSave(d: Draft, f: FormData): (e: Draft)
    ensures WriteRow(d, SaveRowKeys, SaveUpdates(f)).None?
    ensures e == d
  {
    assert "updates" in SaveRowKeys && "updates" !in DraftColumns;
    StoredAfter(d, SaveRowKeys, SaveUpdates(f))
  }

  /** The save as intended: the six fields are the row's keys, and every one is a column. */
  function IntendedSave(d: Draft, f: FormData): (e: Draft)
    ensures WriteRow(d, FieldKeys, SaveUpdates(f)).Some?
    ensures e == Saved(d, SaveUpdates(f))
  {
    StoredAfter(d, FieldKeys, SaveUpdates(f))
  }

  /** As written, any edit is lost: loading the draft after saving shows the old form, not the edited one. */
  lemma SaveIsLost(d: Draft, f: FormData, local: string -> string)
    requires f != FormOf(d, local)
    ensures FormOf(HandleSave(d, f), local) != f
    ensures FormOf(HandleSave(d, f), local) == FormOf(d, local)
  {
  }

  /** A concrete lost edit: typing a title into an untitled draft and saving leaves it untitled. */
  lemma SaveIsLostExample(d: Draft, local: string -> string)
    requires d.title.None?
    ensures var f := FormOf(d, local).(title := "x");
      && FormOf(HandleSave(d, f), local).title == ""
      && FormOf(IntendedSave(d, f), local).title == "x"
  {
    var f := FormOf(d, local).(title := "x");
    NullIfEmptyOrEmpty(None, f.title);
  }

  /**
   * Saving a form and loading the draft again gives the form back, provided
   * the time text is already in the input's own format.
   */
  lemma SaveThenLoad(d: Draft, f: FormData, local: string -> string)
    requires f.desiredPublishAt == "" || local(f.desiredPublishAt) == f.desiredPublishAt
    ensures FormOf(Saved(d, SaveUpdates(f)), local) == f
  {
    NullIfEmptyOrEmpty(None, f.title);
    NullIfEmptyOrEmpty(None, f.caption);
    NullIfEmptyOrEmpty(None, f.hashtags);
  }

  /** With the intended save, the edited form survives a reload. */
  lemma IntendedSaveThenLoad(d: Draft, f: FormData, local: string -> string)
    requires f.desiredPublishAt == "" || local(f.desiredPublishAt) == f.desiredPublishAt
    ensures FormOf(IntendedSave(d, f), local) == f
  {
    SaveThenLoad(d, f, local);
  }

  /** Loading a draft and saving it unedited keeps its texts, except that empty ones become null. */
  lemma LoadThenSave(d: Draft, local: string -> string)
    ensures var e := Saved(d, SaveUpdates(FormOf(d, local)));
      && e.title == (if Truthy(d.title) then d.title else None)
      && e.caption == (if Truthy(d.caption) then d.caption else None)
      && e.hashtags == (if Truthy(d.hashtags) then d.hashtags else None)
      && e.targetInstagram == d.targetInstagram && e.targetTiktok == d.targetTiktok
  {
    NullIfEmptyOrEmpty(d.title, "");
    NullIfEmptyOrEmpty(d.caption, "");
    NullIfEmptyOrEmpty(d.hashtags, "");
  }

  /** At least one platform and a publish time. */
  predicate CanSchedule(f: FormData) {
    (f.targetInstagram || f.targetTiktok) && f.desiredPublishAt != ""
  }

  /** The Schedule button's `disabled`. */
  function ScheduleDisabled(f: FormData, isScheduling: bool): (b: bool)
    ensures !b <==> !isScheduling && CanSchedule(f)
  {
    isScheduling || (!f.targetInstagram && !f.targetTiktok) || f.desiredPublishAt == ""
  }

  /** The platform list: `instagram` then `tiktok`, each when ticked. */
  function Platforms(f: FormData): (p: seq<string>)
    ensures |p| == (if f.targetInstagram then 1 else 0) + (if f.targetTiktok then 1 else 0)
    ensures "instagram" in p <==> f.targetInstagram
    ensures "tiktok" in p <==> f.targetTiktok
    ensures Distinct(p)
  {
    (if f.targetInstagram then ["instagram"] else []) + (if f.targetTiktok then ["tiktok"] else [])
  }

  /** The `schedule-post` body `handleSchedule` sends, or `None` when it refuses with a toast. */
  function ScheduleRequest(d: Draft, f: FormData): (r: Option<SchedulePost.Request>)
    ensures r.Some? <==> CanSchedule(f)
    ensures r.Some? ==>
      (r.value.draftId == Some(d.id) && r.value.platforms == Some(Platforms(f)) && r.value.scheduledFor == Some(f.desiredPublishAt))
  {
    if !CanSchedule(f) then None
    else Some(SchedulePost.Request(Some(d.id), Some(Platforms(f)), Some(f.desiredPublishAt)))
  }

  /** Whatever the editor sends for a draft with an id gets past the handler's required-fields check. */
  lemma ScheduleRequestComplete(d: Draft, f: FormData)
    requires d.id != "" && CanSchedule(f)
    ensures SchedulePost.HasRequiredFields(ScheduleRequest(d, f).value)
  {
  }

  /** `callWebhook`: the function is invoked with the JSON body and no `x-signature` header. */
  function WebhookCall<T>(body: string, fields: T): (req: Signed<T>)
    ensures req.body == body && req.fields == Some(fields)
    ensures forall env: Env :: !Authentic(req, env)
  {
    Signed(body, None, Some(fields))
  }

  /** The call as intended: the body signed with the shared secret, as n8n signs its own calls. */
  function SignedCall<T>(body: string, fields: T, secret: string, mac: Signature.Mac): (req: Signed<T>)
    ensures req.body == body && req.fields == Some(fields)
    ensures forall env: Env | env.secret == Some(secret) && env.mac == mac :: Authentic(req, env) <==> secret != ""
  {
    Signed(body, Some(N8n.SignForN8N(body, secret, mac)), Some(fields))
  }

  /** As written, the Schedule button's request is refused as unauthorized and changes nothing. */
  lemma EditorScheduleRefused(st: Store, d: Draft, f: FormData, body: string, env: Env, at: string -> int,
                              faults: Faults, ids: seq<string>)
    requires CanSchedule(f)
    requires |ids| == |Platforms(f)| && SchedulePost.FreshIds(st, ids)
    ensures SchedulePost.Handle(st, WebhookCall(body, ScheduleRequest(d, f).value), env, at, faults, ids)
      == Reply(st, Err(Unauthorized))
  {
  }

  /** As written, the Generate Caption button's request is refused as unauthorized. */
  lemma EditorCaptionRefused(st: Store, d: Draft, body: string, env: Env, faults: Faults)
    ensures GenerateCaption.Handle(st, WebhookCall(body, GenerateCaption.Request(Some(d.id))), env, faults)
      == Reply(st, Err(Unauthorized))
  {
  }

  /** As written, the Request Edit button's request is refused as unauthorized. */
  lemma EditorEditRefused(st: Store, d: Draft, body: string, env: Env, faults: Faults)
    ensures RequestEdit.Handle(st, WebhookCall(body, EditRequest(d)), env, faults) == Reply(st, Err(Unauthorized))
  {
  }

  /**
   * With the intended signed call, the editor's request for a stored draft
   * succeeds against an infallible store and adds one scheduled post per
   * ticked platform.
   */
  lemma ScheduleFromEditor(st: Store, d: Draft, f: FormData, body: string, env: Env,
                           at: string -> int, ids: seq<string>)
    requires d.id != "" && d.id in st.drafts && CanSchedule(f)
    requires Truthy(env.secret)
    requires |ids| == |Platforms(f)| && SchedulePost.FreshIds(st, ids)
    ensures var r := SchedulePost.Handle(st, SignedCall(body, ScheduleRequest(d, f).value, env.secret.value, env.mac),
                                         env, at, NoFaults, ids);
      && r.response == Ok
      && |r.store.posts| == |st.posts| + |Platforms(f)|
      && r.store.drafts[d.id].status == Scheduled
  {
    SchedulePost.RowCount(st, ScheduleRequest(d, f).value, env, at, NoFaults, ids);
  }

  /** The editor offers the edit action only for videos. */
  predicate ShowsEditAction(d: Draft) {
    d.mediaType == "video"
  }

  /** For a draft the upload page created, the edit action is offered exactly when the file was not an image. */
  lemma EditActionForUploads(d: Draft, mimeType: string)
    requires d.mediaType == UploadPage.MediaTypeOf(mimeType)
    ensures ShowsEditAction(d) <==> !Text.StartsWith(mimeType, "image/")
  {
  }

  const EditPreset: string := "silence-cut+captions"

  /** The `request-edit` body: the draft, the fixed preset, no render path. */
  function EditRequest(d: Draft): (r: RequestEdit.Request)
    ensures r.draftId == Some(d.id) && r.preset == Some(EditPreset) && r.renderPath.None?
  {
    RequestEdit.Request(Some(d.id), Some(EditPreset), None)
  }
}
