/**
 * The `process-scheduled-posts` sweep. It selects every scheduled post that
 * is due and belongs to an existing draft, marks each one `posted` with a
 * simulated external id and logs a `posted` event for it, then promotes
 * every touched draft that has no unposted post left. No platform is called.
 */
module ProcessScheduledPosts {
  import opened Wrappers
  import opened Seqs
  import opened JsonValue
  import opened Entities

  /** A row the due query returns: `scheduled`, due by `now`, and inner-joined to its draft. */
  predicate IsDue(st: Store, now: int, k: string) {
    k in st.posts && st.posts[k].status == PostScheduled && st.posts[k].scheduledFor <= now
    && st.posts[k].draftId in st.drafts
  }

  /** `order` is one order in which the query may return its rows: every due post, once. */
  predicate Enumerates(st: Store, now: int, order: seq<string>) {
    Distinct(order)
    && (forall k | k in order :: IsDue(st, now, k))
    && (forall k | k in st.posts && IsDue(st, now, k) :: k in order)
  }

  /**
   * The simulated external id `sim_<platform>_<stamp>`; the stamp stands for
   * the clock reading and random suffix the sweep draws for each post.
   */
  function ExternalId(platform: string, stamp: string): (e: string)
    ensures |e| == 5 + |platform| + |stamp|
    ensures e[..4] == "sim_" && e[4..4 + |platform|] == platform && e[4 + |platform|] == '_'
    ensures e[5 + |platform|..] == stamp
  {
    "sim_" + platform + "_" + stamp
  }

  /** The `posted` event logged for a processed post, owned by the draft's owner. */
  function PostedEvent(st: Store, k: string): (e: Event)
    requires k in st.posts && st.posts[k].draftId in st.drafts
    ensures e.kind == "posted" && e.refId == Some(st.posts[k].draftId)
    ensures e.owner == st.drafts[st.posts[k].draftId].owner
    ensures e.payload.JObj? && e.payload.fields.Keys == {"platform", "scheduled_post_id", "simulated"}
    ensures e.payload.fields["platform"] == JStr(st.posts[k].platform)
    ensures e.payload.fields["scheduled_post_id"] == JStr(k) && e.payload.fields["simulated"] == JBool(true)
  {
    var p := st.posts[k];
    Event(st.drafts[p.draftId].owner, "posted", Some(p.draftId),
          JObj(map["platform" := JStr(p.platform), "scheduled_post_id" := JStr(k), "simulated" := JBool(true)]))
  }

  /** Whether the update of post `k` goes through. */
  function UpdateSucceeds(faults: Faults): string -> bool {
    k => k !in faults.postUpdateFails
  }

  /** The due posts whose update goes through, in query order. */
  function Updated(order: seq<string>, faults: Faults): seq<string> {
    Filter(order, UpdateSucceeds(faults))
  }

  /** One post after the sweep's update. */
  function Sent(p: ScheduledPost, stamp: string): ScheduledPost {
    p.(status := PostPosted, externalPostId := Some(ExternalId(p.platform, stamp)))
  }

  /** The posts table once every post of `updated` has been marked. */
  function MarkedPosts(posts: map<string, ScheduledPost>, updated: seq<string>, stamps: string -> string): map<string, ScheduledPost> {
    map k | k in posts :: if k in updated then Sent(posts[k], stamps(k)) else posts[k]
  }

  /** The events of `ks`, one per post, in order. */
  function PostedEvents(st: Store, ks: seq<string>): seq<Event>
    requires forall k | k in ks :: k in st.posts && st.posts[k].draftId in st.drafts
  {
    seq(|ks|, i requires 0 <= i < |ks| => PostedEvent(st, ks[i]))
  }

  /** The drafts of the selected posts. */
  function Touched(st: Store, order: seq<string>): set<string>
    requires forall k | k in order :: k in st.posts
  {
    set k | k in order :: st.posts[k].draftId
  }

  /** The draft table after the promotion loop over the drafts in `touched`. */
  function PromotedDrafts(drafts: map<string, Draft>, posts: map<string, ScheduledPost>, touched: set<string>, faults: Faults, now: int): map<string, Draft> {
    map d | d in drafts ::
      if d in touched && Promotes(posts, d, faults) && d !in faults.draftUpdateFails
      then drafts[d].(status := Posted, updatedAt := now)
      else drafts[d]
  }

  function Handle(st: Store, now: int, order: seq<string>, faults: Faults, stamps: string -> string): (r: Reply)
    requires Enumerates(st, now, order)
    ensures faults.fetchFails ==> r == Reply(st, Err(ServerError))
    ensures !faults.fetchFails ==> r.response.Processed? && r.response.count <= |order|
    // the count is the number of selected posts whose update went through
    ensures !faults.fetchFails ==> r.response == Processed(|Updated(order, faults)|)
    // every due post is sent unless its update fails; nothing else changes in the posts table
    ensures !faults.fetchFails ==>
      && r.store.posts.Keys == st.posts.Keys
      && (forall k | k in st.posts ::
            r.store.posts[k] == if IsDue(st, now, k) && k !in faults.postUpdateFails then Sent(st.posts[k], stamps(k)) else st.posts[k])
    // one `posted` event per processed post, appended to the log
    ensures !faults.fetchFails ==>
      && |r.store.events| == |st.events| + r.response.count
      && r.store.events[..|st.events|] == st.events
      && (forall i | |st.events| <= i < |r.store.events| :: r.store.events[i].kind == "posted")
      && r.store.events == st.events + PostedEvents(st, Updated(order, faults))
    // only drafts with a due post can change, and only to `posted`
    ensures r.store.drafts.Keys == st.drafts.Keys
    ensures forall d | d in st.drafts && r.store.drafts[d] != st.drafts[d] ::
      r.store.drafts[d] == st.drafts[d].(status := Posted, updatedAt := now)
      && exists k | k in order :: st.posts[k].draftId == d
    ensures r.store.profiles == st.profiles
  {
    if faults.fetchFails then Reply(st, Err(ServerError))
    else
      var updated := Updated(order, faults);
      var posts := MarkedPosts(st.posts, updated, stamps);
      var events := st.events + PostedEvents(st, updated);
      var drafts := PromotedDrafts(st.drafts, posts, Touched(st, order), faults, now);
      Reply(Store(drafts, posts, events, st.profiles), Processed(|updated|))
  }

  lemma MarkedPostsSnoc(posts: map<string, ScheduledPost>, u: seq<string>, k: string, stamps: string -> string)
    requires k in posts
    ensures MarkedPosts(posts, u + [k], stamps) == MarkedPosts(posts, u, stamps)[k := Sent(posts[k], stamps(k))]
  {
  }

  lemma PostedEventsSnoc(st: Store, u: seq<string>, k: string)
    requires forall x | x in u :: x in st.posts && st.posts[x].draftId in st.drafts
    requires k in st.posts && st.posts[k].draftId in st.drafts
    ensures PostedEvents(st, u + [k]) == PostedEvents(st, u) + [PostedEvent(st, k)]
  {
  }

  lemma TouchedSnoc(st: Store, s: seq<string>, k: string)
    requires forall x | x in s :: x in st.posts
    requires k in st.posts
    ensures Touched(st, s + [k]) == Touched(st, s) + {st.posts[k].draftId}
  {
  }

  lemma PromotedDraftsAdd(drafts: map<string, Draft>, posts: map<string, ScheduledPost>, seen: set<string>, d: string, faults: Faults, now: int)
    requires d in drafts && d !in seen
    ensures PromotedDrafts(drafts, posts, seen + {d}, faults, now) ==
      var before := PromotedDrafts(drafts, posts, seen, faults, now);
      if Promotes(posts, d, faults) && d !in faults.draftUpdateFails
      then before[d := before[d].(status := Posted, updatedAt := now)]
      else before
  {
  }

  /** Every listed post is in the table and its draft exists. */
  predicate Joined(st: Store, order: seq<string>) {
    forall k | k in order :: k in st.posts && st.posts[k].draftId in st.drafts
  }

  /** The first loop's state once the rows `order[..i]` are done. */
  predicate MarkedUpTo(st: Store, order: seq<string>, i: nat, faults: Faults, stamps: string -> string,
                       posts: map<string, ScheduledPost>, events: seq<Event>, processed: nat)
    requires i <= |order|
  {
    var u := Updated(order[..i], faults);
    && Joined(st, u)
    && posts == MarkedPosts(st.posts, u, stamps)
    && events == st.events + PostedEvents(st, u)
    && processed == |u|
  }

  /** A row whose update goes through marks its post, logs its event and is counted. */
  lemma MarkSend(st: Store, order: seq<string>, i: nat, faults: Faults, stamps: string -> string,
                 posts: map<string, ScheduledPost>, events: seq<Event>, processed: nat)
    requires Joined(st, order) && i < |order| && order[i] !in faults.postUpdateFails
    requires MarkedUpTo(st, order, i, faults, stamps, posts, events, processed)
    ensures order[i] in st.posts && st.posts[order[i]].draftId in st.drafts
    ensures var k := order[i];
      MarkedUpTo(st, order, i + 1, faults, stamps, posts[k := Sent(st.posts[k], stamps(k))],
                 events + [PostedEvent(st, k)], processed + 1)
  {
    var k := order[i];
    assert k in order;
    assert order[..i + 1] == order[..i] + [k];
    FilterSnoc(order[..i], k, UpdateSucceeds(faults));
    var u := Updated(order[..i], faults);
    assert Updated(order[..i + 1], faults) == u + [k];
    MarkedPostsSnoc(st.posts, u, k, stamps);
    PostedEventsSnoc(st, u, k);
  }

  /** A row whose update fails leaves the first loop's state as it was. */
  lemma MarkSkip(st: Store, order: seq<string>, i: nat, faults: Faults, stamps: string -> string,
                 posts: map<string, ScheduledPost>, events: seq<Event>, processed: nat)
    requires i < |order| && order[i] in faults.postUpdateFails
    requires MarkedUpTo(st, order, i, faults, stamps, posts, events, processed)
    ensures MarkedUpTo(st, order, i + 1, faults, stamps, posts, events, processed)
  {
    assert order[..i + 1] == order[..i] + [order[i]];
    FilterSnoc(order[..i], order[i], UpdateSucceeds(faults));
    assert Updated(order[..i + 1], faults) == Updated(order[..i], faults);
  }

  /** The first loop: mark each post whose update goes through and log its event. */
  method MarkAll(st: Store, order: seq<string>, faults: Faults, stamps: string -> string)
    returns (posts: map<string, ScheduledPost>, events: seq<Event>, processed: nat)
    requires Joined(st, order)
    ensures posts == MarkedPosts(st.posts, Updated(order, faults), stamps)
    ensures events == st.events + PostedEvents(st, Updated(order, faults))
    ensures processed == |Updated(order, faults)|
  {
    posts, events, processed := st.posts, st.events, 0;
    var i := 0;
    while i < |order|
      invariant 0 <= i <= |order|
      invariant MarkedUpTo(st, order, i, faults, stamps, posts, events, processed)
    {
      var k := order[i];
      if k in faults.postUpdateFails {
        MarkSkip(st, order, i, faults, stamps, posts, events, processed);
      } else {
        MarkSend(st, order, i, faults, stamps, posts, events, processed);
        posts := posts[k := Sent(st.posts[k], stamps(k))];
        events := events + [PostedEvent(st, k)];
        processed := processed + 1;
      }
      i := i + 1;
    }
    assert order[..|order|] == order;
  }

  /** The second loop: visit each draft of the selected posts once and promote it when allowed. */
  method PromoteAll(st: Store, posts: map<string, ScheduledPost>, order: seq<string>, faults: Faults, now: int)
    returns (drafts: map<string, Draft>)
    requires Joined(st, order)
    ensures drafts == PromotedDrafts(st.drafts, posts, Touched(st, order), faults, now)
  {
    drafts := st.drafts;
    var seen: set<string> := {};
    var j := 0;
    while j < |order|
      invariant 0 <= j <= |order|
      invariant Joined(st, order[..j])
      invariant seen == Touched(st, order[..j])
      invariant drafts == PromotedDrafts(st.drafts, posts, seen, faults, now)
    {
      var k := order[j];
      assert k in order;
      var d := st.posts[k].draftId;
      assert order[..j + 1] == order[..j] + [k];
      TouchedSnoc(st, order[..j], k);
      if d !in seen {
        PromotedDraftsAdd(st.drafts, posts, seen, d, faults, now);
        seen := seen + {d};
        if Promotes(posts, d, faults) && d !in faults.draftUpdateFails {
          drafts := drafts[d := drafts[d].(status := Posted, updatedAt := now)];
        }
      }
      j := j + 1;
    }
    assert order[..|order|] == order;
  }

  /**
   * The sweep as the handler runs it: one pass over the rows marking each
   * post and logging its event, then one pass over the distinct drafts.
   */
  method Run(st: Store, now: int, order: seq<string>, faults: Faults, stamps: string -> string) returns (r: Reply)
    requires Enumerates(st, now, order)
    ensures r == Handle(st, now, order, faults, stamps)
  {
    if faults.fetchFails {
      return Reply(st, Err(ServerError));
    }
    if order == [] {
      EmptySweep(st, now, faults, stamps);
      return Reply(st, Processed(0));
    }
    var posts, events, processed := MarkAll(st, order, faults, stamps);
    var drafts := PromoteAll(st, posts, order, faults, now);
    return Reply(Store(drafts, posts, events, st.profiles), Processed(processed));
  }

  /** With an infallible store every due post is processed and none is left due. */
  lemma ProcessesAllDue(st: Store, now: int, order: seq<string>, stamps: string -> string)
    requires Enumerates(st, now, order)
    ensures
      var r := Handle(st, now, order, NoFaults, stamps);
      && r.response == Processed(|order|)
      && forall k :: !IsDue(r.store, now, k)
  {
    FilterAll(order, k => k !in NoFaults.postUpdateFails);
  }

  /** A second sweep right after an infallible one finds nothing and changes nothing. */
  lemma SecondSweepIdle(st: Store, now: int, order: seq<string>, stamps: string -> string,
                        order2: seq<string>, faults2: Faults, stamps2: string -> string)
    requires Enumerates(st, now, order)
    requires Enumerates(Handle(st, now, order, NoFaults, stamps).store, now, order2)
    requires !faults2.fetchFails
    ensures
      var once := Handle(st, now, order, NoFaults, stamps).store;
      Handle(once, now, order2, faults2, stamps2) == Reply(once, Processed(0))
  {
    ProcessesAllDue(st, now, order, stamps);
    var once := Handle(st, now, order, NoFaults, stamps).store;
    assert Elements(order2) == {};
    DistinctCardinality(order2);
    assert order2 == [];
    EmptySweep(once, now, faults2, stamps2);
  }

  /** A sweep that selects nothing answers 0 and changes nothing. */
  lemma EmptySweep(st: Store, now: int, faults: Faults, stamps: string -> string)
    requires Enumerates(st, now, []) && !faults.fetchFails
    ensures Handle(st, now, [], faults, stamps) == Reply(st, Processed(0))
  {
    var empty: seq<string> := [];
    assert Updated(empty, faults) == [];
    assert Touched(st, empty) == {};
    var posts := MarkedPosts(st.posts, [], stamps);
    assert posts == st.posts;
    assert PromotedDrafts(st.drafts, posts, {}, faults, now) == st.drafts;
    assert PostedEvents(st, []) == [];
  }

  /**
   * A draft with a selected post ends up `posted` exactly when it was, or
   * when the promotion step ran for it and its update went through; any
   * other draft is left as it was.
   */
  lemma PromotionRule(st: Store, now: int, order: seq<string>, faults: Faults, stamps: string -> string, d: string)
    requires Enumerates(st, now, order) && !faults.fetchFails && d in st.drafts
    ensures var r := Handle(st, now, order, faults, stamps).store;
      && ((exists k | k in order :: st.posts[k].draftId == d) ==>
            (r.drafts[d].status == Posted <==>
               st.drafts[d].status == Posted || (Promotes(r.posts, d, faults) && d !in faults.draftUpdateFails)))
      && ((forall k | k in order :: st.posts[k].draftId != d) ==> r.drafts[d] == st.drafts[d])
  {
    if exists k | k in order :: st.posts[k].draftId == d {
      var k :| k in order && st.posts[k].draftId == d;
      assert d in Touched(st, order);
    }
  }

  /** Marking posts never gives a draft an unposted post. */
  lemma MarkingKeepsNoneRemaining(posts: map<string, ScheduledPost>, updated: seq<string>, stamps: string -> string, d: string)
    requires NoneRemaining(posts, d)
    ensures NoneRemaining(MarkedPosts(posts, updated, stamps), d)
  {
  }

  /** Without query failures a draft comes out `posted` only if it was, or none of its posts remains. */
  lemma PromotedOnlyComplete(drafts: map<string, Draft>, posts: map<string, ScheduledPost>, touched: set<string>,
                             faults: Faults, now: int, d: string)
    requires faults.remainingQueryFails == {} && d in drafts
    requires PromotedDrafts(drafts, posts, touched, faults, now)[d].status == Posted
    ensures drafts[d].status == Posted || NoneRemaining(posts, d)
  {
  }

  /**
   * Unless a remaining-posts query fails, the sweep keeps every store
   * invariant; a failed post update leaves its draft unpromoted.
   */
  lemma PreservesConsistency(st: Store, now: int, order: seq<string>, faults: Faults, stamps: string -> string)
    requires Enumerates(st, now, order)
    requires Consistent(st)
    requires faults.remainingQueryFails == {}
    ensures Consistent(Handle(st, now, order, faults, stamps).store)
  {
    if !faults.fetchFails {
      var updated := Updated(order, faults);
      var posts := MarkedPosts(st.posts, updated, stamps);
      var drafts := PromotedDrafts(st.drafts, posts, Touched(st, order), faults, now);
      var r := Handle(st, now, order, faults, stamps).store;
      assert r == Store(drafts, posts, st.events + PostedEvents(st, updated), st.profiles);
      forall d | d in drafts && drafts[d].status == Posted
        ensures NoneRemaining(posts, d)
      {
        PromotedOnlyComplete(st.drafts, posts, Touched(st, order), faults, now, d);
        if !NoneRemaining(posts, d) {
          MarkingKeepsNoneRemaining(st.posts, updated, stamps, d);
        }
      }
    }
  }
}
