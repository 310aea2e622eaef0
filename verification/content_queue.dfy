/**
 * The dashboard's content-queue card: the drafts are tallied by their
 * stored status string and five of the six statuses get a tile.
 */
module ContentQueue {
  import opened Wrappers
  import opened Seqs
  import opened Entities

  function HasStatus(s: DraftStatus): Draft -> bool {
    (d: Draft) => d.status == s
  }

  /** How many drafts have status `s`: the reference the tally is checked against. */
  function CountOf(drafts: seq<Draft>, s: DraftStatus): nat {
    |Filter(drafts, HasStatus(s))|
  }

  /** `drafts.reduce((acc, d) => { acc[d.status] = (acc[d.status] || 0) + 1; ... }, {})`. */
  function Tally(drafts: seq<Draft>): map<string, nat>
    decreases |drafts|
  {
    if drafts == [] then map[]
    else
      var acc := Tally(drafts[..|drafts| - 1]);
      var name := StatusName(drafts[|drafts| - 1].status);
      acc[name := (if name in acc then acc[name] else 0) + 1]
  }

  /** The tally holds, for each status, the number of drafts with it, and no key for an absent status. */
  lemma {:induction false} TallyCounts(drafts: seq<Draft>, s: DraftStatus)
    ensures StatusName(s) in Tally(drafts) <==> CountOf(drafts, s) > 0
    ensures StatusName(s) in Tally(drafts) ==> Tally(drafts)[StatusName(s)] == CountOf(drafts, s)
    decreases |drafts|
  {
    if drafts != [] {
      var init := drafts[..|drafts| - 1];
      var d := drafts[|drafts| - 1];
      assert drafts == init + [d];
      TallyCounts(init, s);
      FilterSnoc(init, d, HasStatus(s));
      if d.status != s && StatusName(d.status) == StatusName(s) {
        StatusNameInjective(d.status, s);
      }
    }
  }

  /** Every key of the tally is a stored status string. */
  lemma {:induction false} TallyKeys(drafts: seq<Draft>)
    ensures forall k | k in Tally(drafts) :: exists s :: StatusName(s) == k
    decreases |drafts|
  {
    if drafts != [] {
      TallyKeys(drafts[..|drafts| - 1]);
    }
  }

  /** The tiles, in order: status, label. `failed` has no tile. */
  const Tiles: seq<(DraftStatus, string)> :=
    [(InDraft, "Drafts"), (Editing, "Editing"), (CaptionReady, "Ready"), (Scheduled, "Scheduled"), (Posted, "Posted")]

  /** `statusCounts[status] || 0`; `drafts` is `None` before the query resolves. */
  function TileCount(drafts: Option<seq<Draft>>, s: DraftStatus): (n: nat)
    ensures n == CountOf(drafts.GetOr([]), s)
  {
    var tally := Tally(drafts.GetOr([]));
    TallyCounts(drafts.GetOr([]), s);
    if StatusName(s) in tally then tally[StatusName(s)] else 0
  }

  /** The counts shown on the tiles. */
  function Shown(drafts: Option<seq<Draft>>): (r: seq<nat>)
    ensures |r| == |Tiles|
    ensures forall i | 0 <= i < |Tiles| :: r[i] == CountOf(drafts.GetOr([]), Tiles[i].0)
  {
    seq(|Tiles|, i requires 0 <= i < |Tiles| => TileCount(drafts, Tiles[i].0))
  }

  /** Sum of the counts of the statuses in `ss`. */
  function Total(drafts: seq<Draft>, ss: seq<DraftStatus>): nat
    decreases |ss|
  {
    if ss == [] then 0 else CountOf(drafts, ss[0]) + Total(drafts, ss[1..])
  }

  /** Appending a draft raises the total by how often its status is listed. */
  lemma {:induction false} TotalSnoc(drafts: seq<Draft>, d: Draft, ss: seq<DraftStatus>)
    ensures Total(drafts + [d], ss) == Total(drafts, ss) + multiset(ss)[d.status]
    decreases |ss|
  {
    if ss != [] {
      FilterSnoc(drafts, d, HasStatus(ss[0]));
      TotalSnoc(drafts, d, ss[1..]);
      assert ss == [ss[0]] + ss[1..];
    }
  }

  /** Over a list naming every status exactly once, the counts add up to the number of drafts. */
  lemma {:induction false} TotalOnce(drafts: seq<Draft>, ss: seq<DraftStatus>)
    requires forall s: DraftStatus :: multiset(ss)[s] == 1
    ensures Total(drafts, ss) == |drafts|
    decreases |drafts|
  {
    if drafts != [] {
      var init := drafts[..|drafts| - 1];
      var d := drafts[|drafts| - 1];
      assert drafts == init + [d];
      TotalOnce(init, ss);
      TotalSnoc(init, d, ss);
    } else {
      TotalNone(ss);
    }
  }

  /** With no drafts every total is zero. */
  lemma {:induction false} TotalNone(ss: seq<DraftStatus>)
    ensures Total([], ss) == 0
    decreases |ss|
  {
    if ss != [] {
      TotalNone(ss[1..]);
    }
  }

  /** Every status appears once in `AllStatuses`. */
  lemma AllStatusesOnce(s: DraftStatus)
    ensures multiset(AllStatuses)[s] == 1
  {
  }

  /** Over every status the counts add up to the number of drafts. */
  lemma TotalAll(drafts: seq<Draft>)
    ensures Total(drafts, AllStatuses) == |drafts|
  {
    forall s: DraftStatus ensures multiset(AllStatuses)[s] == 1 {
      AllStatusesOnce(s);
    }
    TotalOnce(drafts, AllStatuses);
  }

  /** The tiles leave out exactly the failed drafts. */
  lemma TilesMissFailed(drafts: seq<Draft>)
    ensures var r := Shown(Some(drafts));
      r[0] + r[1] + r[2] + r[3] + r[4] + CountOf(drafts, Failed) == |drafts|
  {
    TotalAll(drafts);
  }
}
