/**
 * The drafts list: the status and search filter over the loaded drafts and
 * the multi-selection toggle.
 */
module DraftsPage {
  import opened Wrappers
  import opened Seqs
  import opened Text
  import opened Entities

  /** `statusFilter === 'all' || draft.status === statusFilter`. */
  predicate MatchesStatus(statusFilter: string, d: Draft) {
    statusFilter == "all" || StatusName(d.status) == statusFilter
  }

  /** `draft.title?.toLowerCase().includes(searchQuery.toLowerCase()) || false`. */
  predicate MatchesSearch(query: string, d: Draft) {
    d.title.Some? && Contains(Lower(d.title.value), Lower(query))
  }

  function Shown(statusFilter: string, query: string): Draft -> bool {
    d => MatchesStatus(statusFilter, d) && MatchesSearch(query, d)
  }

  /** `filteredDrafts`. */
  function Visible(drafts: seq<Draft>, statusFilter: string, query: string): (r: seq<Draft>)
    ensures forall d :: d in r <==> d in drafts && MatchesStatus(statusFilter, d) && MatchesSearch(query, d)
    ensures forall d | d in r :: d.title.Some?
  {
    Filter(drafts, Shown(statusFilter, query))
  }

  /** The visible drafts keep the order of the loaded list. */
  lemma VisibleIsSubsequence(drafts: seq<Draft>, statusFilter: string, query: string)
    ensures Subsequence(Visible(drafts, statusFilter, query), drafts)
  {
    FilterIsSubsequence(drafts, Shown(statusFilter, query));
  }

  /** With the empty query and the `all` filter every titled draft is shown, and only those. */
  lemma EmptyQueryShowsTitled(drafts: seq<Draft>)
    ensures forall d :: d in Visible(drafts, "all", "") <==> d in drafts && d.title.Some?
  {
    forall d | d in drafts && d.title.Some? ensures MatchesSearch("", d) {
      assert OccursAt(Lower(d.title.value), Lower(""), 0);
    }
  }

  /** A status filter other than `all` shows only drafts whose status is stored as exactly that string. */
  lemma FilterByStatus(drafts: seq<Draft>, s: DraftStatus, query: string, d: Draft)
    requires d in Visible(drafts, StatusName(s), query)
    ensures d.status == s
  {
    StatusNameInjective(d.status, s);
  }

  function Other(id: string): string -> bool {
    x => x != id
  }

  /** `toggleDraftSelection`: drop every occurrence of a selected id, or append an unselected one. */
  function Toggle(selected: seq<string>, id: string): (r: seq<string>)
    ensures id in r <==> id !in selected
    ensures forall x | x != id :: x in r <==> x in selected
    ensures id !in selected ==> r == selected + [id]
    ensures id in selected ==> |r| < |selected|
  {
    if id in selected then
      var r := Filter(selected, Other(id));
      assert |r| < |selected| by {
        FilterShorter(selected, Other(id), id);
      }
      r
    else selected + [id]
  }

  /** Filtering out a present element shortens the sequence. */
  lemma {:induction false} FilterShorter(s: seq<string>, keep: string -> bool, x: string)
    requires x in s && !keep(x)
    ensures |Filter(s, keep)| < |s|
    decreases |s|
  {
    if s[0] != x {
      FilterShorter(s[1..], keep, x);
    }
  }

  /** A selection without repetitions stays without repetitions. */
  lemma ToggleKeepsDistinct(selected: seq<string>, id: string)
    requires Distinct(selected)
    ensures Distinct(Toggle(selected, id))
  {
    if id in selected {
      FilterKeepsDistinct(selected, Other(id));
    }
  }

  /** Selecting and then deselecting an id restores the selection. */
  lemma ToggleTwiceRestores(selected: seq<string>, id: string)
    requires id !in selected
    ensures Toggle(Toggle(selected, id), id) == selected
  {
    FilterSnoc(selected, id, Other(id));
    FilterAll(selected, Other(id));
  }
}
