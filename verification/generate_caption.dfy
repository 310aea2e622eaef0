/**
 * The `generate-caption` webhook: after the signature and draft checks it
 * marks the draft `caption_ready` and fills an empty caption with a fixed
 * placeholder. No language model is called and no event is written.
 */
module GenerateCaption {
  import opened Wrappers
  import opened Entities

  datatype Request = Request(draftId: Option<string>)

  const Placeholder: string := "[AI Generated Caption - Placeholder]"

  /** The request passed every gate: signature, body, `draftId`, existing draft. */
  predicate Admitted(st: Store, req: Signed<Request>, env: Env) {
    Authentic(req, env) && req.fields.Some? && Truthy(req.fields.value.draftId)
    && req.fields.value.draftId.value in st.drafts
  }

  /** The caption after the update: kept when non-empty, the placeholder otherwise. */
  function CaptionAfter(caption: Option<string>): (c: Option<string>)
    ensures Truthy(c)
    ensures Truthy(caption) ==> c == caption
    ensures !Truthy(caption) ==> c == Some(Placeholder)
  {
    if Truthy(caption) then caption else Some(Placeholder)
  }

  function Handle(st: Store, req: Signed<Request>, env: Env, faults: Faults): (r: Reply)
    ensures !Authentic(req, env) ==> r == Reply(st, Err(Unauthorized))
    ensures Authentic(req, env) && req.fields.None? ==> r == Reply(st, Err(ServerError))
    ensures Authentic(req, env) && req.fields.Some? && !Truthy(req.fields.value.draftId)
      ==> r == Reply(st, Err(BadRequest))
    ensures (Authentic(req, env) && req.fields.Some? && Truthy(req.fields.value.draftId) &&
             req.fields.value.draftId.value !in st.drafts) ==> r == Reply(st, Err(NotFound))
    ensures r.response != Ok ==> r.store == st
    ensures r.response == Ok <==> Admitted(st, req, env) && req.fields.value.draftId.value !in faults.draftUpdateFails
    ensures r.response == Ok ==>
      var id := req.fields.value.draftId.value;
      var d := st.drafts[id];
      && id in r.store.drafts
      && r.store == st.(drafts := st.drafts[id := r.store.drafts[id]])
      && r.store.drafts[id] == d.(status := CaptionReady, caption := r.store.drafts[id].caption, updatedAt := env.now)
      && Truthy(r.store.drafts[id].caption)
      && (Truthy(d.caption) ==> r.store.drafts[id].caption == d.caption)
      && (!Truthy(d.caption) ==> r.store.drafts[id].caption == Some(Placeholder))
  {
    if !Authentic(req, env) then Reply(st, Err(Unauthorized))
    else if req.fields.None? then Reply(st, Err(ServerError))
    else if !Truthy(req.fields.value.draftId) then Reply(st, Err(BadRequest))
    else
      var id := req.fields.value.draftId.value;
      if id !in st.drafts then Reply(st, Err(NotFound))
      else if id in faults.draftUpdateFails then Reply(st, Err(ServerError))
      else
        var d := st.drafts[id];
        var d' := d.(status := CaptionReady, caption := CaptionAfter(d.caption), updatedAt := env.now);
        Reply(st.(drafts := st.drafts[id := d']), Ok)
  }

  /** A second call changes neither the caption nor the status the first one wrote. */
  lemma Idempotent(st: Store, req: Signed<Request>, env1: Env, env2: Env, faults: Faults)
    requires env2.secret == env1.secret && env2.mac == env1.mac
    requires Handle(st, req, env1, faults).response == Ok
    ensures
      var once := Handle(st, req, env1, faults).store;
      var twice := Handle(once, req, env2, faults);
      var id := req.fields.value.draftId.value;
      && twice.response == Ok
      && twice.store.drafts[id].caption == once.drafts[id].caption
      && twice.store.drafts[id].status == once.drafts[id].status
      && twice.store.posts == once.posts && twice.store.events == once.events
  {
    assert Authentic(req, env2) == Authentic(req, env1);
  }

  /** The handler keeps every store invariant, whatever fails. */
  lemma PreservesConsistency(st: Store, req: Signed<Request>, env: Env, faults: Faults)
    requires Consistent(st)
    ensures Consistent(Handle(st, req, env, faults).store)
  {
  }
}
