/**
 * The rows the lifecycle handlers read and write (drafts, scheduled posts,
 * events, profiles), the store holding them, and what a handler answers.
 */
module Entities {
  import opened Wrappers
  import opened JsonValue
  import Signature

  /** Draft status, in the order of the lifecycle: `draft`, `editing`, `caption_ready`, `scheduled`, `posted`, `failed`. */
  datatype DraftStatus = InDraft | Editing | CaptionReady | Scheduled | Posted | Failed

  /** The status as stored in the `status` column. */
  function StatusName(s: DraftStatus): string {
    match s
    case InDraft => "draft"
    case Editing => "editing"
    case CaptionReady => "caption_ready"
    case Scheduled => "scheduled"
    case Posted => "posted"
    case Failed => "failed"
  }

  /** Different statuses are stored as different strings. */
  lemma StatusNameInjective(a: DraftStatus, b: DraftStatus)
    requires StatusName(a) == StatusName(b)
    ensures a == b
  {
    match a
    case InDraft => assert StatusName(a)[0] == 'd';
    case Editing => assert StatusName(a)[0] == 'e';
    case CaptionReady => assert StatusName(a)[0] == 'c';
    case Scheduled => assert StatusName(a)[0] == 's';
    case Posted => assert StatusName(a)[0] == 'p';
    case Failed => assert StatusName(a)[0] == 'f';
  }

  const AllStatuses: seq<DraftStatus> := [InDraft, Editing, CaptionReady, Scheduled, Posted, Failed]

  /** A row of `drafts`. Timestamps are integers. */
  datatype Draft = Draft(
    id: string,
    owner: string,
    title: Option<string>,
    caption: Option<string>,
    hashtags: Option<string>,
    mediaType: string,
    mediaPath: string,
    targetInstagram: bool,
    targetTiktok: bool,
    desiredPublishAt: Option<string>,
    status: DraftStatus,
    metadata: Json,
    createdAt: int,
    updatedAt: int)

  /** The statuses the handlers give a scheduled post. */
  datatype PostStatus = PostScheduled | PostPosted

  /** A row of `scheduled_posts`: one platform-specific publish intent of a draft. */
  datatype ScheduledPost = ScheduledPost(
    id: string,
    draftId: string,
    platform: string,
    scheduledFor: int,
    status: PostStatus,
    externalPostId: Option<string>)

  /** A row of the append-only `events` log. */
  datatype Event = Event(owner: string, kind: string, refId: Option<string>, payload: Json)

  /** A row of `profiles`. */
  datatype Profile = Profile(id: string, displayName: Option<string>, styleProfile: Json)

  /** The tables the handlers touch, keyed by row id. */
  datatype Store = Store(
    drafts: map<string, Draft>,
    posts: map<string, ScheduledPost>,
    events: seq<Event>,
    profiles: map<string, Profile>)

  datatype ErrorCode = Unauthorized | BadRequest | NotFound | ServerError {
    function HttpStatus(): int {
      match this
      case Unauthorized => 401
      case BadRequest => 400
      case NotFound => 404
      case ServerError => 500
    }
  }

  /** `{ok: true}`, `{ok: true, processed}`, `{ok: true, profile}` or `{error}` with its status. */
  datatype Response = Ok | Processed(count: nat) | Built(profile: map<string, Json>) | Err(code: ErrorCode)

  /** What a handler leaves behind: the store after its writes and its answer. */
  datatype Reply = Reply(store: Store, response: Response)

  /**
   * Which store calls fail during one invocation. Lookups that fail are
   * modelled as missing rows (the handlers answer 404 for both).
   */
  datatype Faults = Faults(
    fetchFails: bool,                 // the due-post query of the sweep
    insertFails: bool,                // inserting scheduled-post rows
    postUpdateFails: set<string>,     // scheduled-post updates, by post id
    draftUpdateFails: set<string>,    // draft updates, by draft id
    remainingQueryFails: set<string>, // "remaining non-posted posts" queries, by draft id
    profileUpdateFails: bool)         // the profile update of the style handlers

  const NoFaults: Faults := Faults(false, false, {}, {}, {}, false)

  /** Server configuration and the clock: the webhook secret, HMAC, and the current time. */
  datatype Env = Env(secret: Option<string>, mac: Signature.Mac, now: int)

  /**
   * A signed webhook request: the raw body, the `x-signature` header, and
   * the fields `JSON.parse` extracts from the body (`None` when it throws).
   */
  datatype Signed<T> = Signed(body: string, signature: Option<string>, fields: Option<T>)

  predicate Authentic<T>(req: Signed<T>, env: Env) {
    Signature.VerifyAutomationSignature(req.body, req.signature, env.secret, env.mac)
  }

  /** No scheduled post of `draftId` has a status other than posted. */
  predicate NoneRemaining(posts: map<string, ScheduledPost>, draftId: string) {
    forall id | id in posts :: posts[id].draftId == draftId ==> posts[id].status == PostPosted
  }

  /**
   * Whether a handler's promotion step updates the draft: the
   * remaining-posts query found nothing, or it failed (a missing result
   * counts as "none remaining").
   */
  predicate Promotes(posts: map<string, ScheduledPost>, draftId: string, faults: Faults) {
    NoneRemaining(posts, draftId) || draftId in faults.remainingQueryFails
  }

  /** Every row is stored under its own id. */
  ghost predicate KeysMatch(st: Store) {
    && (forall k | k in st.drafts :: st.drafts[k].id == k)
    && (forall k | k in st.posts :: st.posts[k].id == k)
    && (forall k | k in st.profiles :: st.profiles[k].id == k)
  }

  /** Every scheduled post references an existing draft (the foreign key). */
  ghost predicate PostsLinked(st: Store) {
    forall k | k in st.posts :: st.posts[k].draftId in st.drafts
  }

  /** A posted draft has no scheduled post left that is not posted. */
  ghost predicate PostedComplete(st: Store) {
    forall d | d in st.drafts :: st.drafts[d].status == Posted ==> NoneRemaining(st.posts, d)
  }

  ghost predicate Consistent(st: Store) {
    KeysMatch(st) && PostsLinked(st) && PostedComplete(st)
  }

  /** A store that changes only profile contents other than their ids, and events, stays consistent. */
  lemma ProfilesOnlyKeepConsistent(st: Store, st': Store)
    requires Consistent(st)
    requires st'.drafts == st.drafts && st'.posts == st.posts && st'.profiles.Keys == st.profiles.Keys
    requires forall k | k in st.profiles :: st'.profiles[k].id == st.profiles[k].id
    ensures Consistent(st')
  {
  }

  /** The two maps have the same keys and agree everywhere except possibly at `k`. */
  ghost predicate AgreeExcept<V>(a: map<string, V>, b: map<string, V>, k: string) {
    a.Keys == b.Keys && forall x | x in a && x != k :: a[x] == b[x]
  }
}
