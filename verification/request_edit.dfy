/**
 * The `request-edit` webhook. A call without a render path starts an edit
 * (status `editing`, preset recorded); a call with a render path reports a
 * finished render (status back to `draft`, render path and preset recorded).
 * No delayed continuation runs and no event is written.
 */
module RequestEdit {
  import opened Wrappers
  import opened JsonValue
  import opened Entities

  datatype Request = Request(draftId: Option<string>, preset: Option<string>, renderPath: Option<string>)

  predicate Admitted(st: Store, req: Signed<Request>, env: Env) {
    Authentic(req, env) && req.fields.Some? && Truthy(req.fields.value.draftId)
    && req.fields.value.draftId.value in st.drafts
  }

  /** `preset || null`. */
  function PresetOrNull(preset: Option<string>): Json {
    if Truthy(preset) then JStr(preset.value) else JNull
  }

  /** The status written: `draft` when a render path is given, `editing` otherwise. */
  function StatusAfter(renderPath: Option<string>): (s: DraftStatus)
    ensures s == InDraft || s == Editing
    ensures s == InDraft <==> Truthy(renderPath)
  {
    if Truthy(renderPath) then InDraft else Editing
  }

  /**
   * The metadata written: the old keys merged with `render_path` and
   * `edit_preset` (render call), or with `edit_preset` only (edit call with a
   * preset); `None` when the update does not touch metadata.
   */
  function MetadataAfter(metadata: Json, preset: Option<string>, renderPath: Option<string>): (m: Option<Json>)
    ensures m.Some? <==> Truthy(renderPath) || Truthy(preset)
    ensures m.Some? ==> m.value.JObj?
    ensures m.Some? ==> forall k | k in Spread(metadata) && k != "render_path" && k != "edit_preset" ::
      k in m.value.fields && m.value.fields[k] == Spread(metadata)[k]
    ensures m.Some? ==> m.value.fields.Keys <= Spread(metadata).Keys + {"render_path", "edit_preset"}
    ensures Truthy(renderPath) ==> "render_path" in m.value.fields && m.value.fields["render_path"] == JStr(renderPath.value)
    ensures Truthy(renderPath) ==>
      "edit_preset" in m.value.fields && m.value.fields["edit_preset"] == PresetOrNull(preset)
    ensures !Truthy(renderPath) && Truthy(preset) ==> "edit_preset" in m.value.fields && m.value.fields["edit_preset"] == JStr(preset.value)
    ensures !Truthy(renderPath) && m.Some? && "render_path" in m.value.fields ==>
      "render_path" in Spread(metadata) && m.value.fields["render_path"] == Spread(metadata)["render_path"]
  {
    var prior := Spread(metadata);
    if Truthy(renderPath) then Some(JObj(prior["render_path" := JStr(renderPath.value)]["edit_preset" := PresetOrNull(preset)]))
    else if Truthy(preset) then Some(JObj(prior["edit_preset" := JStr(preset.value)]))
    else None
  }

  function Handle(st: Store, req: Signed<Request>, env: Env, faults: Faults): (r: Reply)
    ensures !Authentic(req, env) ==> r == Reply(st, Err(Unauthorized))
    ensures Authentic(req, env) && req.fields.None? ==> r == Reply(st, Err(ServerError))
    ensures Authentic(req, env) && req.fields.Some? && !Truthy(req.fields.value.draftId)
      ==> r == Reply(st, Err(BadRequest))
    ensures (Authentic(req, env) && req.fields.Some? && Truthy(req.fields.value.draftId) &&
             req.fields.value.draftId.value !in st.drafts) ==> r == Reply(st, Err(NotFound))
    ensures r.response != Ok ==> r.store == st
    ensures r.response == Ok <==> Admitted(st, req, env) && req.fields.value.draftId.value !in faults.draftUpdateFails
    ensures r.response == Ok ==>
      var f := req.fields.value;
      var id := f.draftId.value;
      var d := st.drafts[id];
      var m := MetadataAfter(d.metadata, f.preset, f.renderPath);
      && id in r.store.drafts
      && r.store == st.(drafts := st.drafts[id := r.store.drafts[id]])
      && r.store.drafts[id] == d.(status := StatusAfter(f.renderPath), metadata := m.GetOr(d.metadata), updatedAt := env.now)
  {
    if !Authentic(req, env) then Reply(st, Err(Unauthorized))
    else if req.fields.None? then Reply(st, Err(ServerError))
    else if !Truthy(req.fields.value.draftId) then Reply(st, Err(BadRequest))
    else
      var f := req.fields.value;
      var id := f.draftId.value;
      if id !in st.drafts then Reply(st, Err(NotFound))
      else if id in faults.draftUpdateFails then Reply(st, Err(ServerError))
      else
        var d := st.drafts[id];
        var d' := d.(status := StatusAfter(f.renderPath),
                     metadata := MetadataAfter(d.metadata, f.preset, f.renderPath).GetOr(d.metadata),
                     updatedAt := env.now);
        Reply(st.(drafts := st.drafts[id := d']), Ok)
  }

  /**
   * An edit request followed by the render report for the same draft leaves
   * it in `draft` with the render path recorded and every other metadata key
   * of the original draft kept.
   */
  lemma EditThenRender(st: Store, id: string, preset: Option<string>, path: string,
                       first: Signed<Request>, second: Signed<Request>, env: Env)
    requires first.fields == Some(Request(Some(id), preset, None))
    requires second.fields == Some(Request(Some(id), preset, Some(path)))
    requires path != ""
    requires Handle(st, first, env, NoFaults).response == Ok
    requires Authentic(second, env)
    ensures
      var mid := Handle(st, first, env, NoFaults).store;
      var done := Handle(mid, second, env, NoFaults);
      var m := done.store.drafts[id].metadata;
      && done.response == Ok
      && done.store.drafts[id].status == InDraft
      && m.JObj? && m.fields["render_path"] == JStr(path)
      && m.fields["edit_preset"] == PresetOrNull(preset)
      && forall k | k in Spread(st.drafts[id].metadata) && k != "render_path" && k != "edit_preset" ::
           k in m.fields && m.fields[k] == Spread(st.drafts[id].metadata)[k]
  {
    var mid := Handle(st, first, env, NoFaults).store;
    var d0 := st.drafts[id];
    var d1 := mid.drafts[id];
    assert d1.status == Editing;
    forall k | k in Spread(d0.metadata) && k != "render_path" && k != "edit_preset"
      ensures k in Spread(d1.metadata) && Spread(d1.metadata)[k] == Spread(d0.metadata)[k]
    {
      if Truthy(preset) {
        assert d1.metadata == MetadataAfter(d0.metadata, preset, None).value;
      } else {
        assert d1.metadata == d0.metadata;
      }
    }
  }

  /** The handler keeps every store invariant, whatever fails. */
  lemma PreservesConsistency(st: Store, req: Signed<Request>, env: Env, faults: Faults)
    requires Consistent(st)
    ensures Consistent(Handle(st, req, env, faults).store)
  {
  }
}
