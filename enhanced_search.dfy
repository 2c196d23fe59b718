/**
 * The catalogue search with a category dropdown: the distinct category
 * list, the query-and-category filter and the checkbox update of the
 * selected categories.
 */
module EnhancedSearch {
  import opened Text
  import opened Seqs
  import opened Catalogue

  /**
   * The dropdown's categories: each hook's category once, in the order the
   * categories first appear in the catalogue.
   */
  function Categories(hooks: seq<Hook>): (r: seq<string>)
    ensures NoDuplicates(r)
    ensures forall i | 0 <= i < |hooks| :: hooks[i].category in r
    ensures forall c | c in r :: c in CategoriesOf(hooks)
    ensures forall i, j | 0 <= i < j < |r| ::
      FirstIndex(CategoriesOf(hooks), r[i]) < FirstIndex(CategoriesOf(hooks), r[j])
  {
    DistinctInFirstOccurrenceOrder(CategoriesOf(hooks));
    Distinct(CategoriesOf(hooks))
  }

  /** The query condition: an empty query, or a case-insensitive substring of the name or description. */
  predicate MatchesQuery(h: Hook, query: string) {
    query == "" || MentionsQuery(h, query)
  }

  /** The category condition: nothing selected, or the hook's category is selected. */
  predicate MatchesCategory(h: Hook, selected: seq<string>) {
    |selected| == 0 || h.category in selected
  }

  /** The hooks shown for a query and a category selection, in catalogue order. */
  function Search(hooks: seq<Hook>, query: string, selected: seq<string>): (r: seq<Hook>)
    ensures IsSubsequence(r, hooks)
    ensures forall h {:trigger multiset(r)[h]} ::
      multiset(r)[h] == (if MatchesQuery(h, query) && MatchesCategory(h, selected) then multiset(hooks)[h] else 0)
  {
    Filter(hooks, (h: Hook) => MatchesQuery(h, query) && MatchesCategory(h, selected))
  }

  /** A hook is shown exactly when it is catalogued and meets both conditions. */
  lemma SearchMembership(hooks: seq<Hook>, query: string, selected: seq<string>, h: Hook)
    ensures h in Search(hooks, query, selected) <==>
      h in hooks && MatchesQuery(h, query) && MatchesCategory(h, selected)
  {
    FilterMembership(hooks, (h: Hook) => MatchesQuery(h, query) && MatchesCategory(h, selected), h);
  }

  /**
   * Every result contains a non-empty query in its lowercased name or
   * description, and lies in the selection when one is made.
   */
  lemma SearchResultsSatisfyFilters(hooks: seq<Hook>, query: string, selected: seq<string>, h: Hook)
    requires h in Search(hooks, query, selected)
    ensures query != "" ==> Contains(Lower(h.name), Lower(query)) || Contains(Lower(h.description), Lower(query))
    ensures |selected| > 0 ==> h.category in selected
  {
    SearchMembership(hooks, query, selected, h);
  }

  /** With an empty query and nothing selected the whole catalogue is shown, in order. */
  lemma {:induction false} UnfilteredSearchIsCatalogue(hooks: seq<Hook>)
    ensures Search(hooks, "", []) == hooks
  {
    FilterAll(hooks, (h: Hook) => MatchesQuery(h, "") && MatchesCategory(h, []));
  }

  /**
   * The query is not trimmed: a query of one space is not treated as empty
   * but keeps exactly the hooks whose name or description has a space.
   */
  lemma SpaceQueryIsNotTrimmed(hooks: seq<Hook>, h: Hook)
    ensures h in Search(hooks, " ", []) <==> h in hooks && (' ' in h.name || ' ' in h.description)
  {
    SearchMembership(hooks, " ", [], h);
    assert Lower(" ") == " ";
    ContainsChar(Lower(h.name), ' ');
    ContainsChar(Lower(h.description), ' ');
    assert ' ' in Lower(h.name) <==> ' ' in h.name by {
      assert forall i | 0 <= i < |h.name| :: Lower(h.name)[i] == ' ' <==> h.name[i] == ' ';
    }
    assert ' ' in Lower(h.description) <==> ' ' in h.description by {
      assert forall i | 0 <= i < |h.description| :: Lower(h.description)[i] == ' ' <==> h.description[i] == ' ';
    }
  }

  /** Matching ignores the letter case of the query. */
  lemma {:induction false} SearchIgnoresQueryCase(hooks: seq<Hook>, query: string, selected: seq<string>)
    ensures Search(hooks, query, selected) == Search(hooks, Lower(query), selected)
  {
    LowerIdempotent(query);
    FilterAgree(hooks,
      (h: Hook) => MatchesQuery(h, query) && MatchesCategory(h, selected),
      (h: Hook) => MatchesQuery(h, Lower(query)) && MatchesCategory(h, selected));
  }

  /**
   * The checkbox update: checking appends the category, unchecking removes
   * every occurrence of it and keeps the other entries in order.
   */
  function Toggle(prev: seq<string>, category: string, checked: bool): (r: seq<string>)
    ensures checked ==> |r| == |prev| + 1 && r[..|prev|] == prev && r[|prev|] == category
    ensures !checked ==> category !in r && IsSubsequence(r, prev)
    ensures !checked ==> forall c {:trigger multiset(r)[c]} | c != category :: multiset(r)[c] == multiset(prev)[c]
  {
    if checked then prev + [category] else Filter(prev, (c: string) => c != category)
  }

  /** Which categories are selected after a toggle. */
  lemma ToggleMembership(prev: seq<string>, category: string, checked: bool, c: string)
    ensures c in Toggle(prev, category, checked) <==>
      if checked then c in prev || c == category else c in prev && c != category
  {
    if !checked {
      FilterMembership(prev, (x: string) => x != category, c);
    }
  }

  /** Checking a category that was not selected and unchecking it again restores the selection. */
  lemma {:induction false} ToggleRoundTrip(prev: seq<string>, category: string)
    requires category !in prev
    ensures Toggle(Toggle(prev, category, true), category, false) == prev
  {
    FilterSnoc(prev, category, (c: string) => c != category);
    FilterAll(prev, (c: string) => c != category);
  }

  /**
   * The dropdown checks a box exactly when its category is selected, so a
   * click checks an unselected category or unchecks a selected one; such
   * clicks keep the selection free of duplicates.
   */
  lemma ToggleKeepsNoDuplicates(prev: seq<string>, category: string, checked: bool)
    requires NoDuplicates(prev)
    requires checked <==> category !in prev
    ensures NoDuplicates(Toggle(prev, category, checked))
  {
    if !checked {
      SubsequenceKeepsNoDuplicates(Toggle(prev, category, checked), prev);
    }
  }
}
