/**
 * The `analyze-style` webhook: no analysis runs; after the signature and
 * the caller's session are checked it stores a fixed placeholder style
 * profile on the caller's profile row.
 */
module AnalyzeStyle {
  import opened Wrappers
  import opened JsonValue
  import opened Text
  import opened Entities
  import opened StyleTypes

  datatype Request = Request(source: Option<string>)

  /** The fixed insights of the placeholder. */
  const Insights: Json := JObj(map[
    "posting_frequency" := JStr("Weekly"),
    "common_themes" := JArr([JStr("Content Creation"), JStr("Technology")]),
    "engagement_patterns" := JStr("Placeholder data"),
    "best_posting_times" := JArr([JStr("18:00"), JStr("20:00")])])

  /** The placeholder profile; `analyzed_at` is the current time. */
  function Placeholder(source: Option<string>, now: int): (p: Json)
    ensures IsStyleProfile(p)
    ensures p.fields.Keys == {"status", "source", "analyzed_at", "insights"}
    ensures p.fields["status"] == JStr("placeholder")
    ensures Truthy(source) ==> p.fields["source"] == JStr(source.value)
    ensures !Truthy(source) ==> p.fields["source"] == JStr("manual")
    ensures p.fields["analyzed_at"] == JNum(now) && p.fields["insights"] == Insights
  {
    JObj(map[
      "status" := JStr("placeholder"),
      "source" := JStr(if Truthy(source) then source.value else "manual"),
      "analyzed_at" := JNum(now),
      "insights" := Insights])
  }

  /** `authHeader?.replace('Bearer ', '')`: the first `Bearer ` anywhere in the header is removed. */
  function Token(authorization: Option<string>): (t: Option<string>)
    ensures t.Some? <==> authorization.Some?
  {
    if authorization.None? then None else Some(ReplaceFirst(authorization.value, "Bearer ", ""))
  }

  /**
   * `sessions` maps the access tokens the auth service accepts to their
   * user ids; a missing token stands for a failed or empty lookup.
   */
  function Handle(st: Store, req: Signed<Request>, authorization: Option<string>, sessions: map<string, string>,
                  env: Env, faults: Faults): (r: Reply)
    ensures !Authentic(req, env) ==> r == Reply(st, Err(Unauthorized))
    ensures Authentic(req, env) && req.fields.None? ==> r == Reply(st, Err(ServerError))
    ensures Authentic(req, env) && req.fields.Some? && !Truthy(Token(authorization)) ==> r == Reply(st, Err(Unauthorized))
    ensures (Authentic(req, env) && req.fields.Some? && Truthy(Token(authorization)) &&
             Token(authorization).value !in sessions) ==> r == Reply(st, Err(Unauthorized))
    ensures r.response != Ok ==> r.store == st
    ensures r.response == Ok <==>
      Authentic(req, env) && req.fields.Some? && Truthy(Token(authorization))
      && Token(authorization).value in sessions && !faults.profileUpdateFails
    // only the caller's profile row changes, and it gets the placeholder
    ensures r.response == Ok ==>
      var user := sessions[Token(authorization).value];
      && r.store.drafts == st.drafts && r.store.posts == st.posts && r.store.events == st.events
      && r.store.profiles.Keys == st.profiles.Keys
      && (forall k | k in st.profiles && k != user :: r.store.profiles[k] == st.profiles[k])
      && (user in st.profiles ==>
            r.store.profiles[user] == st.profiles[user].(styleProfile := Placeholder(req.fields.value.source, env.now)))
  {
    if !Authentic(req, env) then Reply(st, Err(Unauthorized))
    else if req.fields.None? then Reply(st, Err(ServerError))
    else
      var token := Token(authorization);
      if !Truthy(token) then Reply(st, Err(Unauthorized))
      else if token.value !in sessions then Reply(st, Err(Unauthorized))
      else if faults.profileUpdateFails then Reply(st, Err(ServerError))
      else
        var user := sessions[token.value];
        var styleProfile := Placeholder(req.fields.value.source, env.now);
        if user in st.profiles
        then Reply(st.(profiles := st.profiles[user := st.profiles[user].(styleProfile := styleProfile)]), Ok)
        else Reply(st, Ok)
  }

  /** A `Bearer <token>` header yields the token, whatever the token holds. */
  lemma BearerStripped(t: string)
    ensures Token(Some("Bearer " + t)) == Some(t)
  {
    var s := "Bearer " + t;
    assert OccursAt(s, "Bearer ", 0);
    ReplaceFirstAt(s, "Bearer ", "", 0);
    assert |"Bearer "| == 7;
    assert s[..0] + "" + s[7..] == s[7..] == t;
  }

  /** A header without `Bearer ` is used as the token unchanged. */
  lemma BareTokenKept(h: string)
    requires !Contains(h, "Bearer ")
    ensures Token(Some(h)) == Some(h)
  {
    ReplaceFirstAbsent(h, "Bearer ", "");
  }

  /** A header that is only the scheme leaves an empty token, which is refused. */
  lemma SchemeOnlyRefused(st: Store, req: Signed<Request>, sessions: map<string, string>, env: Env, faults: Faults)
    requires Authentic(req, env) && req.fields.Some?
    ensures Handle(st, req, Some("Bearer "), sessions, env, faults) == Reply(st, Err(Unauthorized))
  {
    BearerStripped("");
    assert "Bearer " + "" == "Bearer ";
  }

  /** After a successful call the caller's stored profile passes the client's `isStyleProfile` guard. */
  lemma StoredProfileRecognised(st: Store, req: Signed<Request>, authorization: Option<string>,
                                sessions: map<string, string>, env: Env, faults: Faults)
    requires Handle(st, req, authorization, sessions, env, faults).response == Ok
    requires sessions[Token(authorization).value] in st.profiles
    ensures
      var user := sessions[Token(authorization).value];
      var p := Handle(st, req, authorization, sessions, env, faults).store.profiles[user].styleProfile;
      IsStyleProfile(p) && p.fields["status"] == JStr("placeholder")
  {
  }

  /** Repeating a successful call at the same time changes nothing more. */
  lemma Idempotent(st: Store, req: Signed<Request>, authorization: Option<string>,
                   sessions: map<string, string>, env: Env, faults: Faults)
    requires Handle(st, req, authorization, sessions, env, faults).response == Ok
    ensures
      var once := Handle(st, req, authorization, sessions, env, faults).store;
      Handle(once, req, authorization, sessions, env, faults) == Reply(once, Ok)
  {
    var once := Handle(st, req, authorization, sessions, env, faults).store;
    var user := sessions[Token(authorization).value];
    if user in st.profiles {
      assert once.profiles[user := once.profiles[user]] == once.profiles;
    }
  }

  /** Only a profile row's style profile changes, so the store invariant is kept whatever fails. */
  lemma PreservesConsistency(st: Store, req: Signed<Request>, authorization: Option<string>,
                             sessions: map<string, string>, env: Env, faults: Faults)
    requires Consistent(st)
    ensures Consistent(Handle(st, req, authorization, sessions, env, faults).store)
  {
    var r := Handle(st, req, authorization, sessions, env, faults);
    if r.response == Ok {
      var user := sessions[Token(authorization).value];
      assert forall k | k in st.profiles :: r.store.profiles[k].id == st.profiles[k].id by {
        forall k | k in st.profiles ensures r.store.profiles[k].id == st.profiles[k].id {
          if k != user {
            assert r.store.profiles[k] == st.profiles[k];
          }
        }
      }
      ProfilesOnlyKeepConsistent(st, r.store);
    }
  }
}
