/**
 * The `mark-posted` webhook: the automation reports that one scheduled post
 * went out. The post becomes `posted`; when no post of its draft is left
 * unposted, the draft becomes `posted` too.
 */
module MarkPosted {
  import opened Wrappers
  import opened Entities

  datatype Request = Request(scheduledPostId: Option<string>, externalPostId: Option<string>)

  predicate Admitted(st: Store, req: Signed<Request>, env: Env) {
    Authentic(req, env) && req.fields.Some? && Truthy(req.fields.value.scheduledPostId)
    && req.fields.value.scheduledPostId.value in st.posts
  }

  /** The post after its update: `posted`, with the external id replaced only when one is given. */
  function MarkedPost(p: ScheduledPost, externalPostId: Option<string>): (q: ScheduledPost)
    ensures q.status == PostPosted
    ensures q.id == p.id && q.draftId == p.draftId && q.platform == p.platform && q.scheduledFor == p.scheduledFor
    ensures Truthy(externalPostId) ==> q.externalPostId == externalPostId
    ensures !Truthy(externalPostId) ==> q.externalPostId == p.externalPostId
  {
    if Truthy(externalPostId) then p.(status := PostPosted, externalPostId := externalPostId)
    else p.(status := PostPosted)
  }

  /**
   * The draft table after the promotion step. The update's own error is not
   * looked at, and updating a draft that does not exist changes nothing.
   */
  function PromoteDraft(drafts: map<string, Draft>, draftId: string, promote: bool, faults: Faults, now: int): (r: map<string, Draft>)
    ensures r.Keys == drafts.Keys
    ensures forall k | k in drafts && k != draftId :: r[k] == drafts[k]
    ensures draftId in drafts ==>
      r[draftId] == if promote && draftId !in faults.draftUpdateFails
                    then drafts[draftId].(status := Posted, updatedAt := now)
                    else drafts[draftId]
  {
    if promote && draftId in drafts && draftId !in faults.draftUpdateFails
    then drafts[draftId := drafts[draftId].(status := Posted, updatedAt := now)]
    else drafts
  }

  function Handle(st: Store, req: Signed<Request>, env: Env, faults: Faults): (r: Reply)
    ensures !Authentic(req, env) ==> r == Reply(st, Err(Unauthorized))
    ensures Authentic(req, env) && req.fields.None? ==> r == Reply(st, Err(ServerError))
    ensures Authentic(req, env) && req.fields.Some? && !Truthy(req.fields.value.scheduledPostId)
      ==> r == Reply(st, Err(BadRequest))
    ensures (Authentic(req, env) && req.fields.Some? && Truthy(req.fields.value.scheduledPostId) &&
             req.fields.value.scheduledPostId.value !in st.posts) ==> r == Reply(st, Err(NotFound))
    ensures r.response != Ok ==> r.store == st
    ensures r.response == Ok <==>
      Admitted(st, req, env) && req.fields.value.scheduledPostId.value !in faults.postUpdateFails
    ensures r.response == Ok ==>
      var f := req.fields.value;
      var id := f.scheduledPostId.value;
      var p := st.posts[id];
      && r.store.posts == st.posts[id := MarkedPost(p, f.externalPostId)]
      && r.store.events == st.events && r.store.profiles == st.profiles
      && r.store.drafts.Keys == st.drafts.Keys
      && (forall k | k in st.drafts && k != p.draftId :: r.store.drafts[k] == st.drafts[k])
      && r.store.drafts == PromoteDraft(st.drafts, p.draftId, Promotes(r.store.posts, p.draftId, faults), faults, env.now)
    // the post's draft is either untouched or only moved to `posted` with a new `updated_at`
    ensures r.response == Ok && st.posts[req.fields.value.scheduledPostId.value].draftId in st.drafts ==>
      var d := st.posts[req.fields.value.scheduledPostId.value].draftId;
      r.store.drafts[d] == st.drafts[d] || r.store.drafts[d] == st.drafts[d].(status := Posted, updatedAt := env.now)
    // the post's draft ends up `posted` exactly when it was, or when the promotion step ran and its update went through
    ensures r.response == Ok && st.posts[req.fields.value.scheduledPostId.value].draftId in st.drafts ==>
      var d := st.posts[req.fields.value.scheduledPostId.value].draftId;
      (r.store.drafts[d].status == Posted <==>
         st.drafts[d].status == Posted || (Promotes(r.store.posts, d, faults) && d !in faults.draftUpdateFails))
  {
    if !Authentic(req, env) then Reply(st, Err(Unauthorized))
    else if req.fields.None? then Reply(st, Err(ServerError))
    else if !Truthy(req.fields.value.scheduledPostId) then Reply(st, Err(BadRequest))
    else
      var f := req.fields.value;
      var id := f.scheduledPostId.value;
      if id !in st.posts then Reply(st, Err(NotFound))
      else if id in faults.postUpdateFails then Reply(st, Err(ServerError))
      else
        var p := st.posts[id];
        var posts := st.posts[id := MarkedPost(p, f.externalPostId)];
        var drafts := PromoteDraft(st.drafts, p.draftId, Promotes(posts, p.draftId, faults), faults, env.now);
        Reply(st.(posts := posts, drafts := drafts), Ok)
  }

  /** When every other post of the draft is already posted, an infallible store promotes the draft. */
  lemma LastPostPromotes(st: Store, req: Signed<Request>, env: Env)
    requires Admitted(st, req, env)
    requires
      var p := st.posts[req.fields.value.scheduledPostId.value];
      p.draftId in st.drafts && forall k | k in st.posts && k != p.id :: st.posts[k].draftId == p.draftId ==> st.posts[k].status == PostPosted
    requires KeysMatch(st)
    ensures
      var r := Handle(st, req, env, NoFaults);
      var d := st.posts[req.fields.value.scheduledPostId.value].draftId;
      r.response == Ok && r.store.drafts[d] == st.drafts[d].(status := Posted, updatedAt := env.now)
  {
    var id := req.fields.value.scheduledPostId.value;
    var p := st.posts[id];
    var posts := Handle(st, req, env, NoFaults).store.posts;
    assert NoneRemaining(posts, p.draftId);
  }

  /** A post of the draft that is still scheduled keeps an infallible store from promoting it. */
  lemma PendingPostBlocks(st: Store, req: Signed<Request>, env: Env, other: string)
    requires Handle(st, req, env, NoFaults).response == Ok
    requires
      var id := req.fields.value.scheduledPostId.value;
      other in st.posts && other != id && st.posts[other].draftId == st.posts[id].draftId
      && st.posts[other].status == PostScheduled
    ensures
      var d := st.posts[req.fields.value.scheduledPostId.value].draftId;
      var r := Handle(st, req, env, NoFaults).store;
      d in st.drafts ==> r.drafts[d] == st.drafts[d]
  {
    var r := Handle(st, req, env, NoFaults).store;
    assert r.posts[other].status == PostScheduled;
  }

  /**
   * A failing remaining-posts query promotes the draft although one of its
   * posts is still scheduled, leaving a `posted` draft with unposted work.
   */
  lemma QueryFailurePromotesEarly(st: Store, req: Signed<Request>, env: Env, faults: Faults, other: string)
    requires Handle(st, req, env, faults).response == Ok
    requires
      var id := req.fields.value.scheduledPostId.value;
      var d := st.posts[id].draftId;
      && other in st.posts && other != id && st.posts[other].draftId == d
      && st.posts[other].status == PostScheduled
      && d in st.drafts && d in faults.remainingQueryFails && d !in faults.draftUpdateFails
    ensures
      var r := Handle(st, req, env, faults).store;
      var d := st.posts[req.fields.value.scheduledPostId.value].draftId;
      r.drafts[d].status == Posted && !NoneRemaining(r.posts, d) && !PostedComplete(r)
  {
    var r := Handle(st, req, env, faults).store;
    var d := st.posts[req.fields.value.scheduledPostId.value].draftId;
    assert r.posts[other].status == PostScheduled;
  }

  /**
   * Repeating a successful call changes no post, and leaves every draft
   * with the status the first call gave it (only `updated_at` may move).
   */
  lemma Idempotent(st: Store, req: Signed<Request>, env1: Env, env2: Env, faults: Faults)
    requires env2.secret == env1.secret && env2.mac == env1.mac
    requires Handle(st, req, env1, faults).response == Ok
    ensures
      var once := Handle(st, req, env1, faults).store;
      var twice := Handle(once, req, env2, faults);
      && twice.response == Ok
      && twice.store.posts == once.posts
      && twice.store.drafts.Keys == once.drafts.Keys
      && forall k | k in once.drafts :: twice.store.drafts[k].(updatedAt := 0) == once.drafts[k].(updatedAt := 0)
  {
    RepeatKeepsPosts(st, req, env1, env2, faults);
    var once := Handle(st, req, env1, faults).store;
    var d := st.posts[req.fields.value.scheduledPostId.value].draftId;
    var promote := Promotes(once.posts, d, faults);
    PromoteTwice(st.drafts, d, promote, faults, env1.now, env2.now);
  }

  /** Running the promotion step twice with the same decision gives the same statuses. */
  lemma PromoteTwice(drafts: map<string, Draft>, d: string, promote: bool, faults: Faults, now1: int, now2: int)
    ensures
      var once := PromoteDraft(drafts, d, promote, faults, now1);
      var twice := PromoteDraft(once, d, promote, faults, now2);
      && twice.Keys == once.Keys
      && forall k | k in once :: twice[k].(updatedAt := 0) == once[k].(updatedAt := 0)
  {
  }

  /** A repeated successful call succeeds again and leaves the posts table as the first call left it. */
  lemma RepeatKeepsPosts(st: Store, req: Signed<Request>, env1: Env, env2: Env, faults: Faults)
    requires env2.secret == env1.secret && env2.mac == env1.mac
    requires Handle(st, req, env1, faults).response == Ok
    ensures
      var once := Handle(st, req, env1, faults).store;
      var twice := Handle(once, req, env2, faults);
      && twice.response == Ok
      && twice.store.posts == once.posts
  {
    assert Authentic(req, env2) == Authentic(req, env1);
    var f := req.fields.value;
    var id := f.scheduledPostId.value;
    var once := Handle(st, req, env1, faults).store;
    var p := st.posts[id];
    assert once.posts[id] == MarkedPost(p, f.externalPostId);
    assert MarkedPost(once.posts[id], f.externalPostId) == once.posts[id];
    assert once.posts[id := once.posts[id]] == once.posts;
  }

  /** Unless a remaining-posts query fails, the handler keeps every store invariant. */
  lemma PreservesConsistency(st: Store, req: Signed<Request>, env: Env, faults: Faults)
    requires Consistent(st)
    requires faults.remainingQueryFails == {}
    ensures Consistent(Handle(st, req, env, faults).store)
  {
    var r := Handle(st, req, env, faults);
    if r.response == Ok {
      var s' := r.store;
      var id := req.fields.value.scheduledPostId.value;
      var p := st.posts[id];
      forall d | d in s'.drafts && s'.drafts[d].status == Posted
        ensures NoneRemaining(s'.posts, d)
      {
        if d != p.draftId || st.drafts[d].status == Posted {
          assert NoneRemaining(st.posts, d);
        }
      }
    }
  }
}
