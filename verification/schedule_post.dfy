/**
 * The `schedule-post` webhook: inserts one scheduled post per requested
 * platform and moves the draft to `scheduled`. Platforms are not checked,
 * nothing is deduplicated and no event is written.
 */
module SchedulePost {
  import opened Wrappers
  import opened Seqs
  import opened Entities

  /** `scheduledFor` is the timestamp text the client sends. */
  datatype Request = Request(draftId: Option<string>, platforms: Option<seq<string>>, scheduledFor: Option<string>)

  /** The required-fields check: `draftId`, a non-empty `platforms`, `scheduledFor`. */
  predicate HasRequiredFields(f: Request) {
    Truthy(f.draftId) && f.platforms.Some? && |f.platforms.value| > 0 && Truthy(f.scheduledFor)
  }

  predicate Admitted(st: Store, req: Signed<Request>, env: Env) {
    Authentic(req, env) && req.fields.Some? && HasRequiredFields(req.fields.value)
    && req.fields.value.draftId.value in st.drafts
  }

  /** How many rows a request would insert. */
  function PlatformCount(req: Signed<Request>): nat {
    if req.fields.Some? && req.fields.value.platforms.Some? then |req.fields.value.platforms.value| else 0
  }

  /** Ids the store hands out for new rows: distinct and unused. */
  predicate FreshIds(st: Store, ids: seq<string>) {
    Distinct(ids) && forall i | 0 <= i < |ids| :: ids[i] !in st.posts
  }

  /** The rows inserted: one per platform, in order, all `scheduled`. */
  function NewRows(draftId: string, platforms: seq<string>, scheduledFor: int, ids: seq<string>): (rows: seq<ScheduledPost>)
    requires |ids| == |platforms|
    ensures |rows| == |platforms|
    ensures forall i | 0 <= i < |rows| :: rows[i] == ScheduledPost(ids[i], draftId, platforms[i], scheduledFor, PostScheduled, None)
  {
    seq(|platforms|, i requires 0 <= i < |platforms| => ScheduledPost(ids[i], draftId, platforms[i], scheduledFor, PostScheduled, None))
  }

  /** The posts table after inserting one fresh row per id. */
  function InsertRows(posts: map<string, ScheduledPost>, rows: seq<ScheduledPost>): (r: map<string, ScheduledPost>)
    requires forall i, j | 0 <= i < j < |rows| :: rows[i].id != rows[j].id
    ensures forall i | 0 <= i < |rows| :: rows[i].id in r && r[rows[i].id] == rows[i]
    ensures forall k :: k in r <==> k in posts || exists i | 0 <= i < |rows| :: rows[i].id == k
    ensures forall k | k in posts && (forall i | 0 <= i < |rows| :: rows[i].id != k) :: r[k] == posts[k]
  {
    posts + map i | 0 <= i < |rows| :: rows[i].id := rows[i]
  }

  /**
   * The path after a successful insert: the rows stay, then the draft moves
   * to `scheduled` unless that update fails. `at` is how the database reads
   * the timestamp text; text it cannot read makes the insert fail.
   */
  function Apply(st: Store, f: Request, env: Env, at: string -> int, faults: Faults, ids: seq<string>): (r: Reply)
    requires HasRequiredFields(f) && f.draftId.value in st.drafts
    requires |ids| == |f.platforms.value| && FreshIds(st, ids)
    ensures r.store.posts.Keys == st.posts.Keys + Elements(ids)
    ensures forall i | 0 <= i < |ids| ::
      r.store.posts[ids[i]] == ScheduledPost(ids[i], f.draftId.value, f.platforms.value[i], at(f.scheduledFor.value), PostScheduled, None)
    ensures forall k | k in st.posts :: r.store.posts[k] == st.posts[k]
    ensures r.store.events == st.events && r.store.profiles == st.profiles
    ensures f.draftId.value in faults.draftUpdateFails ==> r.response == Err(ServerError) && r.store.drafts == st.drafts
    ensures f.draftId.value !in faults.draftUpdateFails ==> (r.response == Ok &&
      r.store.drafts == st.drafts[f.draftId.value := st.drafts[f.draftId.value].(status := Scheduled, updatedAt := env.now)])
  {
    var id := f.draftId.value;
    var rows := NewRows(id, f.platforms.value, at(f.scheduledFor.value), ids);
    var inserted := st.(posts := InsertRows(st.posts, rows));
    if id in faults.draftUpdateFails then Reply(inserted, Err(ServerError))
    else Reply(inserted.(drafts := st.drafts[id := st.drafts[id].(status := Scheduled, updatedAt := env.now)]), Ok)
  }

  function Handle(st: Store, req: Signed<Request>, env: Env, at: string -> int, faults: Faults, ids: seq<string>): (r: Reply)
    requires |ids| == PlatformCount(req) && FreshIds(st, ids)
    ensures !Authentic(req, env) ==> r == Reply(st, Err(Unauthorized))
    ensures Authentic(req, env) && req.fields.None? ==> r == Reply(st, Err(ServerError))
    ensures Authentic(req, env) && req.fields.Some? && !HasRequiredFields(req.fields.value)
      ==> r == Reply(st, Err(BadRequest))
    ensures (Authentic(req, env) && req.fields.Some? && HasRequiredFields(req.fields.value) &&
             req.fields.value.draftId.value !in st.drafts) ==> r == Reply(st, Err(NotFound))
    ensures Admitted(st, req, env) && faults.insertFails ==> r == Reply(st, Err(ServerError))
    ensures Admitted(st, req, env) && !faults.insertFails ==> r == Apply(st, req.fields.value, env, at, faults, ids)
    ensures r.response == Ok <==>
      Admitted(st, req, env) && !faults.insertFails && req.fields.value.draftId.value !in faults.draftUpdateFails
    ensures r.response != Ok ==> r.store.drafts == st.drafts
  {
    if !Authentic(req, env) then Reply(st, Err(Unauthorized))
    else if req.fields.None? then Reply(st, Err(ServerError))
    else if !HasRequiredFields(req.fields.value) then Reply(st, Err(BadRequest))
    else if req.fields.value.draftId.value !in st.drafts then Reply(st, Err(NotFound))
    else if faults.insertFails then Reply(st, Err(ServerError))
    else Apply(st, req.fields.value, env, at, faults, ids)
  }

  /** Once the insert succeeds the table holds exactly one more row per platform. */
  lemma RowCount(st: Store, f: Request, env: Env, at: string -> int, faults: Faults, ids: seq<string>)
    requires HasRequiredFields(f) && f.draftId.value in st.drafts
    requires |ids| == |f.platforms.value| && FreshIds(st, ids)
    ensures |Apply(st, f, env, at, faults, ids).store.posts| == |st.posts| + |ids|
  {
    DistinctCardinality(ids);
    var keys := Apply(st, f, env, at, faults, ids).store.posts.Keys;
    assert st.posts.Keys !! Elements(ids);
    assert |keys| == |st.posts.Keys| + |Elements(ids)|;
  }

  /**
   * No deduplication: scheduling the same platforms twice leaves two
   * identical `scheduled` rows for each platform.
   */
  lemma RepeatDuplicates(st: Store, req: Signed<Request>, env: Env, at: string -> int, ids1: seq<string>, ids2: seq<string>, i: nat)
    requires |ids1| == PlatformCount(req) && FreshIds(st, ids1)
    requires Handle(st, req, env, at, NoFaults, ids1).response == Ok
    requires |ids2| == PlatformCount(req) && FreshIds(Handle(st, req, env, at, NoFaults, ids1).store, ids2)
    requires i < PlatformCount(req)
    ensures
      var once := Handle(st, req, env, at, NoFaults, ids1).store;
      var twice := Handle(once, req, env, at, NoFaults, ids2);
      && twice.response == Ok
      && ids1[i] != ids2[i]
      && twice.store.posts[ids1[i]].(id := "") == twice.store.posts[ids2[i]].(id := "")
      && |twice.store.posts| == |st.posts| + 2 * PlatformCount(req)
  {
    var f := req.fields.value;
    var once := Handle(st, req, env, at, NoFaults, ids1).store;
    RowCount(st, f, env, at, NoFaults, ids1);
    assert Admitted(once, req, env);
    RowCount(once, f, env, at, NoFaults, ids2);
    assert ids1[i] in once.posts;
  }

  /** With an infallible store the handler keeps every store invariant. */
  lemma PreservesConsistency(st: Store, req: Signed<Request>, env: Env, at: string -> int, ids: seq<string>)
    requires |ids| == PlatformCount(req) && FreshIds(st, ids)
    requires Consistent(st)
    ensures Consistent(Handle(st, req, env, at, NoFaults, ids).store)
  {
    var r := Handle(st, req, env, at, NoFaults, ids);
    if r.response == Ok {
      var f := req.fields.value;
      var id := f.draftId.value;
      var s' := r.store;
      forall k | k in s'.posts && k !in st.posts
        ensures s'.posts[k].id == k && s'.posts[k].draftId == id && s'.posts[k].status == PostScheduled
      {
        var j :| 0 <= j < |ids| && ids[j] == k;
      }
      assert KeysMatch(s');
      assert PostsLinked(s');
      forall d | d in s'.drafts && s'.drafts[d].status == Posted
        ensures NoneRemaining(s'.posts, d)
      {
        assert d != id && st.drafts[d].status == Posted;
        assert NoneRemaining(st.posts, d);
      }
    }
  }
}
