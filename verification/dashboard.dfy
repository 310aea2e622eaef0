/**
 * The dashboard: the three headline counts, the first-login welcome, and
 * the greeting taken from the signed-in user's email.
 */
module Dashboard {
  import opened Wrappers
  import opened Seqs
  import opened Text
  import opened Entities
  import opened ContentQueue

  datatype Stats = Stats(drafts: nat, scheduled: nat, posted: nat)

  /** `stats`; `drafts` is `None` before the query resolves, which counts as no drafts. */
  function StatsOf(drafts: Option<seq<Draft>>): (s: Stats)
    ensures s.drafts == |drafts.GetOr([])|
    ensures s.scheduled == CountOf(drafts.GetOr([]), Scheduled)
    ensures s.posted == CountOf(drafts.GetOr([]), Posted)
  {
    var ds := drafts.GetOr([]);
    Stats(|ds|, |Filter(ds, HasStatus(Scheduled))|, |Filter(ds, HasStatus(Posted))|)
  }

  /** `isFirstLogin`: the welcome replaces the cards exactly when there is no draft. */
  function IsFirstLogin(drafts: Option<seq<Draft>>): (b: bool)
    ensures b <==> drafts.GetOr([]) == []
  {
    StatsOf(drafts).drafts == 0
  }

  /** The scheduled and posted counts never exceed the number of drafts together. */
  lemma StatsBounded(drafts: Option<seq<Draft>>)
    ensures StatsOf(drafts).scheduled + StatsOf(drafts).posted <= StatsOf(drafts).drafts
  {
    TotalAll(drafts.GetOr([]));
  }

  /** The dashboard's counts agree with the content-queue tiles. */
  lemma StatsMatchTiles(drafts: Option<seq<Draft>>)
    ensures StatsOf(drafts).scheduled == Shown(drafts)[3]
    ensures StatsOf(drafts).posted == Shown(drafts)[4]
  {
  }

  /** `user?.email?.split('@')[0] || 'there'`. */
  function Greeting(email: Option<string>): (g: string)
    ensures g != ""
    ensures '@' !in g || g == "there"
  {
    if email.Some? && Split(email.value, '@')[0] != "" then Split(email.value, '@')[0] else "there"
  }

  /** An address greets by its local part. */
  lemma GreetsLocalPart(local: string, domain: string)
    requires local != "" && '@' !in local
    ensures Greeting(Some(local + "@" + domain)) == local
  {
    var e := local + "@" + domain;
    assert e[|local|] == '@' && e[..|local|] == local;
    SplitFirst(e, '@', |local|);
  }

  /** An address with nothing before the `@` falls back to `there`. */
  lemma EmptyLocalPartFallsBack(domain: string)
    ensures Greeting(Some("@" + domain)) == "there"
  {
    var e := "@" + domain;
    assert e[0] == '@' && e[..0] == "";
    SplitFirst(e, '@', 0);
  }
}
