/**
 * The `style-build` endpoint: a signed-in user submits writing samples, a
 * language model turns them into a style profile, and the endpoint stamps
 * it, stores it on the user's profile, logs `style.built` and returns it.
 */
module StyleBuild {
  import opened Wrappers
  import opened Seqs
  import opened Text
  import opened JsonValue
  import opened Entities
  import opened StyleTypes

  /** The parsed body; `samples` is `None` when the key is missing. */
  datatype Request = Request(samples: Option<string>)

  /**
   * What the language-model call yields: a failed HTTP call, content that
   * `JSON.parse` rejects (or a response without that content), or the
   * parsed value.
   */
  datatype Analysis = ApiError | Unparsable | Parsed(value: Json)

  /** Fewest characters of trimmed sample text accepted. */
  const MinSampleLength: nat := 50

  /** A sample line counts when it holds more than ten characters once trimmed. */
  predicate CountsAsSample(line: string) {
    |Trim(line)| > 10
  }

  /** `samples.split('\n').filter(line => line.trim().length > 10).length`. */
  function SampleCount(samples: string): (n: nat)
    ensures n <= Occurrences(samples, '\n') + 1
  {
    |Filter(Split(samples, '\n'), CountsAsSample)|
  }

  /** Single-line samples count once exactly when the trimmed text exceeds ten characters. */
  lemma SingleLineCount(samples: string)
    requires '\n' !in samples
    ensures SampleCount(samples) == if CountsAsSample(samples) then 1 else 0
  {
    SplitNoSeparator(samples, '\n');
    var parts := Split(samples, '\n');
    assert parts == [samples];
    assert parts[1..] == [];
    assert Filter(parts[1..], CountsAsSample) == [];
  }

  /**
   * The count adds up line by line: two texts joined by a newline count as
   * many samples as the two texts separately.
   */
  lemma SampleCountConcat(a: string, b: string)
    ensures SampleCount(a + "\n" + b) == SampleCount(a) + SampleCount(b)
  {
    assert a + "\n" + b == a + ['\n'] + b;
    SplitConcat(a, b, '\n');
    FilterConcat(Split(a, '\n'), Split(b, '\n'), CountsAsSample);
  }

  /**
   * The stored profile: the model's keys, overridden by the four stamped ones.
   * `sampleCount` is `SampleCount(samples)`, computed by the caller.
   */
  function FinalProfile(analysis: Json, sampleCount: nat, now: int): (m: map<string, Json>)
    ensures m.Keys == Spread(analysis).Keys + {"status", "source", "analyzed_at", "sample_count"}
    ensures m["status"] == JStr("analyzed") && m["source"] == JStr("manual_samples")
    ensures m["analyzed_at"] == JNum(now) && m["sample_count"] == JNum(sampleCount)
    ensures forall k | k in Spread(analysis) && k !in {"status", "source", "analyzed_at", "sample_count"} ::
      m[k] == Spread(analysis)[k]
    ensures IsStyleProfile(JObj(m))
  {
    Spread(analysis)["status" := JStr("analyzed")]["source" := JStr("manual_samples")]
      ["analyzed_at" := JNum(now)]["sample_count" := JNum(sampleCount)]
  }

  /** The `style.built` event; `tone` is left out of the payload when the profile has none. */
  function BuiltEvent(user: string, profile: map<string, Json>): (e: Event)
    requires "sample_count" in profile
    ensures e.owner == user && e.kind == "style.built" && e.refId == None && e.payload.JObj?
    ensures "sample_count" in e.payload.fields && e.payload.fields["sample_count"] == profile["sample_count"]
    ensures "tone" in e.payload.fields <==> "tone" in profile
    ensures "tone" in profile ==> "tone" in e.payload.fields && e.payload.fields["tone"] == profile["tone"]
    ensures e.payload.fields.Keys <= {"sample_count", "tone"}
  {
    var base := map["sample_count" := profile["sample_count"]];
    Event(user, "style.built", None, JObj(if "tone" in profile then base["tone" := profile["tone"]] else base))
  }

  /**
   * `sessions` maps the authorization headers the auth service accepts to
   * their user ids; `body` is `None` when `req.json()` throws; `analyze`
   * stands for the language-model call on the samples.
   */
  function Handle(st: Store, authorization: Option<string>, sessions: map<string, string>, body: Option<Request>,
                  apiKey: Option<string>, analyze: string -> Analysis, now: int, faults: Faults): (r: Reply)
    ensures !Truthy(authorization) ==> r == Reply(st, Err(Unauthorized))
    ensures Truthy(authorization) && authorization.value !in sessions ==> r == Reply(st, Err(Unauthorized))
    ensures Truthy(authorization) && authorization.value in sessions && body.None? ==> r == Reply(st, Err(ServerError))
    ensures (Truthy(authorization) && authorization.value in sessions && body.Some? &&
             (!Truthy(body.value.samples) || |Trim(body.value.samples.value)| < MinSampleLength))
      ==> r == Reply(st, Err(BadRequest))
    ensures !r.response.Built? ==> r.store == st
    ensures r.response.Built? <==>
      && Truthy(authorization) && authorization.value in sessions && body.Some?
      && Truthy(body.value.samples) && |Trim(body.value.samples.value)| >= MinSampleLength
      && Truthy(apiKey) && analyze(body.value.samples.value).Parsed? && !faults.profileUpdateFails
    ensures r.response.Built? ==>
      var user := sessions[authorization.value];
      var samples := body.value.samples.value;
      && r.response.profile == FinalProfile(analyze(samples).value, SampleCount(samples), now)
      && r.store.events == st.events + [BuiltEvent(user, r.response.profile)]
      && r.store.drafts == st.drafts && r.store.posts == st.posts
      && r.store.profiles.Keys == st.profiles.Keys
      && (forall k | k in st.profiles && k != user :: r.store.profiles[k] == st.profiles[k])
      && (user in st.profiles ==> r.store.profiles[user] == st.profiles[user].(styleProfile := JObj(r.response.profile)))
    // past the 400 gate every failure (configuration, model, storage) is a 500
    ensures (r.response.Err? && Truthy(authorization) && authorization.value in sessions && body.Some? &&
             Truthy(body.value.samples) && |Trim(body.value.samples.value)| >= MinSampleLength)
      ==> r.response == Err(ServerError)
  {
    if !Truthy(authorization) then Reply(st, Err(Unauthorized))
    else if authorization.value !in sessions then Reply(st, Err(Unauthorized))
    else if body.None? then Reply(st, Err(ServerError))
    else if !Truthy(body.value.samples) || |Trim(body.value.samples.value)| < MinSampleLength then Reply(st, Err(BadRequest))
    else if !Truthy(apiKey) then Reply(st, Err(ServerError))
    else
      var user := sessions[authorization.value];
      var samples := body.value.samples.value;
      match analyze(samples)
      case ApiError => Reply(st, Err(ServerError))
      case Unparsable => Reply(st, Err(ServerError))
      case Parsed(analysis) =>
        if faults.profileUpdateFails then Reply(st, Err(ServerError))
        else
          var profile := FinalProfile(analysis, SampleCount(samples), now);
          var profiles := if user in st.profiles
                          then st.profiles[user := st.profiles[user].(styleProfile := JObj(profile))]
                          else st.profiles;
          Reply(st.(profiles := profiles, events := st.events + [BuiltEvent(user, profile)]), Built(profile))
  }

  /** The returned profile is what is stored, and the client's `isStyleProfile` accepts it. */
  lemma StoredEqualsReturned(st: Store, authorization: Option<string>, sessions: map<string, string>, body: Option<Request>,
                             apiKey: Option<string>, analyze: string -> Analysis, now: int, faults: Faults)
    requires Handle(st, authorization, sessions, body, apiKey, analyze, now, faults).response.Built?
    requires sessions[authorization.value] in st.profiles
    ensures
      var r := Handle(st, authorization, sessions, body, apiKey, analyze, now, faults);
      var stored := r.store.profiles[sessions[authorization.value]].styleProfile;
      stored == JObj(r.response.profile) && IsStyleProfile(stored)
  {
  }

  /** Only a profile row's style profile changes and one event is appended, so the store invariant is kept whatever fails. */
  lemma PreservesConsistency(st: Store, authorization: Option<string>, sessions: map<string, string>, body: Option<Request>,
                             apiKey: Option<string>, analyze: string -> Analysis, now: int, faults: Faults)
    requires Consistent(st)
    ensures Consistent(Handle(st, authorization, sessions, body, apiKey, analyze, now, faults).store)
  {
    var r := Handle(st, authorization, sessions, body, apiKey, analyze, now, faults);
    if r.response.Built? {
      var user := sessions[authorization.value];
      assert forall k | k in st.profiles :: r.store.profiles[k].id == st.profiles[k].id by {
        forall k | k in st.profiles ensures r.store.profiles[k].id == st.profiles[k].id {
          if k != user {
            assert r.store.profiles[k] == st.profiles[k];
          }
        }
      }
      ProfilesOnlyKeepConsistent(st, r.store);
    }
  }
}
