/**
 * The plain search box: a blank query clears the results, any other query
 * keeps the hooks whose name or description mentions it.
 */
module SearchBar {
  import opened Text
  import opened Seqs
  import opened Catalogue
  import EnhancedSearch

  /**
   * `handleSearch`: trimming decides only whether the query is blank; the
   * match itself uses the query as typed.
   */
  function HandleSearch(hooks: seq<Hook>, query: string): (r: seq<Hook>)
    ensures IsBlank(query) ==> r == []
    ensures IsSubsequence(r, hooks)
    ensures forall h {:trigger multiset(r)[h]} ::
      multiset(r)[h] == (if !IsBlank(query) && MentionsQuery(h, query) then multiset(hooks)[h] else 0)
  {
    TrimEmptyIffBlank(query);
    if Trim(query) == "" then [] else Filter(hooks, (h: Hook) => MentionsQuery(h, query))
  }

  /** For a query that is not blank, a hook is a result exactly when it mentions the query. */
  lemma HandleSearchMembership(hooks: seq<Hook>, query: string, h: Hook)
    requires !IsBlank(query)
    ensures h in HandleSearch(hooks, query) <==> h in hooks && MentionsQuery(h, query)
  {
    FilterMembership(hooks, (h: Hook) => MentionsQuery(h, query), h);
    TrimEmptyIffBlank(query);
  }

  /**
   * For a query that is not blank, the plain search box shows what the
   * category search shows with no category selected.
   */
  lemma {:induction false} AgreesWithUnselectedSearch(hooks: seq<Hook>, query: string)
    requires !IsBlank(query)
    ensures HandleSearch(hooks, query) == EnhancedSearch.Search(hooks, query, [])
  {
    TrimEmptyIffBlank(query);
    assert query != "";
    FilterAgree(hooks,
      (h: Hook) => MentionsQuery(h, query),
      (h: Hook) => EnhancedSearch.MatchesQuery(h, query) && EnhancedSearch.MatchesCategory(h, []));
  }

  /** A query that lower-cases to the same text matches the same hooks. */
  lemma {:induction false} CaseVariantsMatchAlike(hooks: seq<Hook>, q1: string, q2: string)
    requires Lower(q1) == Lower(q2)
    ensures Filter(hooks, (h: Hook) => MentionsQuery(h, q1)) == Filter(hooks, (h: Hook) => MentionsQuery(h, q2))
  {
    FilterAgree(hooks, (h: Hook) => MentionsQuery(h, q1), (h: Hook) => MentionsQuery(h, q2));
  }

  /** Queries that differ only in letter case give the same results. */
  lemma CaseVariantsAgree(hooks: seq<Hook>, q1: string, q2: string)
    requires Lower(q1) == Lower(q2)
    ensures HandleSearch(hooks, q1) == HandleSearch(hooks, q2)
  {
    LowerKeepsBlank(q1);
    LowerKeepsBlank(q2);
    TrimEmptyIffBlank(q1);
    TrimEmptyIffBlank(q2);
    CaseVariantsMatchAlike(hooks, q1, q2);
  }

  /** The results do not depend on the letter case of the query. */
  lemma HandleSearchIgnoresCase(hooks: seq<Hook>, query: string)
    ensures HandleSearch(hooks, query) == HandleSearch(hooks, Lower(query))
  {
    LowerIdempotent(query);
    CaseVariantsAgree(hooks, query, Lower(query));
  }

  lemma ContainsFirstChar(haystack: string, needle: string)
    requires Contains(haystack, needle) && needle != []
    ensures needle[0] in haystack
  {
    var i :| 0 <= i <= |haystack| - |needle| && OccursAt(haystack, needle, i);
    assert haystack[i] == haystack[i..i + |needle|][0];
  }

  /** Lowercasing never produces a character that is not a lowercase letter and was not there. */
  lemma LowerKeepsAbsent(s: string, c: char)
    requires c !in s && !('a' <= c <= 'z')
    ensures c !in Lower(s)
  {
    forall i | 0 <= i < |s| ensures Lower(s)[i] != c {
      assert s[i] != c;
    }
  }

  lemma FormIsFound(h: Hook)
    requires h.name == "useForm"
    ensures HandleSearch([h], "form") == [h]
  {
    var q := "form";
    assert Lower(q) == q;
    assert Lower(h.name) == "useform";
    assert OccursAt(Lower(h.name), Lower(q), 3);
    assert !IsBlank(q) by { assert !IsWhitespace(q[0]); }
    FilterAll([h], (x: Hook) => MentionsQuery(x, q));
  }

  /**
   * A tab before "form" is kept in the match, so it finds useForm only when
   * the name or the description has a tab. The catalogue's useForm has none:
   * its description is "A hook for form state management and validation".
   */
  lemma TabbedFormIsNotFound(h: Hook)
    requires h.name == "useForm" && '\t' !in h.description
    ensures HandleSearch([h], "\tform") == []
  {
    var q := "\tform";
    assert Lower(q)[0] == '\t';
    LowerKeepsAbsent(h.name, '\t');
    LowerKeepsAbsent(h.description, '\t');
    if Contains(Lower(h.name), Lower(q)) {
      ContainsFirstChar(Lower(h.name), Lower(q));
    }
    if Contains(Lower(h.description), Lower(q)) {
      ContainsFirstChar(Lower(h.description), Lower(q));
    }
    FilterNone([h], (x: Hook) => MentionsQuery(x, q));
  }

  /**
   * Matching uses the untrimmed query: "form" finds useForm, while "\tform",
   * which trims to the same text, does not find a useForm whose name and
   * description have no tab.
   */
  lemma UntrimmedQueryMatters(h: Hook)
    requires h.name == "useForm" && '\t' !in h.description
    ensures Trim("\tform") == "form"
    ensures HandleSearch([h], "form") == [h]
    ensures HandleSearch([h], "\tform") == []
  {
    FormIsFound(h);
    TabbedFormIsNotFound(h);
    TabbedFormTrims();
  }

  lemma TabbedFormTrims()
    ensures Trim("\tform") == "form"
  {
    var q := "\tform";
    assert IsWhitespace(q[0]) && q[1..] == "form";
    assert !IsWhitespace("form"[0]) && !IsWhitespace("form"[3]);
    assert TrimStart(q) == TrimStart("form") == "form";
    assert TrimEnd("form") == "form";
  }

  lemma FormDescriptionHasNoTab()
    ensures '\t' !in FormDescription
  {
    assert '\t' !in "A hook for " && '\t' !in "form state ";
    assert '\t' !in "management " && '\t' !in "and validation";
  }

  /**
   * In the catalogue, "form" finds useForm while "\tform" does not, though
   * both trim to "form".
   */
  lemma CatalogueUntrimmedQueryMatters()
    ensures HandleSearch([Fixture()[5]], "form") == [Fixture()[5]]
    ensures HandleSearch([Fixture()[5]], "\tform") == []
  {
    var h := Fixture()[5];
    assert h.name == "useForm" && h.description == FormDescription;
    FormDescriptionHasNoTab();
    UntrimmedQueryMatters(h);
  }

  /** The catalogue's useForm description has " form" at index 10. */
  lemma SpacedFormInFormDescription()
    ensures OccursAt(Lower(FormDescription), " form", 10)
  {
    var d := FormDescription;
    assert d[10] == ' ' && d[11] == 'f' && d[12] == 'o' && d[13] == 'r' && d[14] == 'm';
    var l := Lower(d);
    assert l[10] == ' ' && l[11] == 'f' && l[12] == 'o' && l[13] == 'r' && l[14] == 'm';
    assert l[10..15] == " form";
  }

  /** A one-hook catalogue shows its hook for a non-blank query the hook mentions. */
  lemma FoundWhenMentioned(h: Hook, q: string)
    requires !IsBlank(q) && MentionsQuery(h, q)
    ensures HandleSearch([h], q) == [h]
  {
    FilterAll([h], (x: Hook) => MentionsQuery(x, q));
  }

  /** A description equal to useForm's mentions " form". */
  lemma FormDescriptionMentionsSpacedForm(h: Hook)
    requires h.description == FormDescription
    ensures MentionsQuery(h, " form")
  {
    var q := " form";
    assert Lower(q) == q;
    SpacedFormInFormDescription();
  }

  /** A space before "form" still finds a hook whose description is useForm's. */
  lemma SpacedFormFindsFormDescription(h: Hook)
    requires h.description == FormDescription
    ensures HandleSearch([h], " form") == [h]
  {
    FormDescriptionMentionsSpacedForm(h);
    assert !IsBlank(" form") by { assert !IsWhitespace(" form"[1]); }
    FoundWhenMentioned(h, " form");
  }

  /**
   * So " form" finds the catalogue's useForm: trimming does not matter for
   * this entry, whose description has " form" in it.
   */
  lemma SpacedFormFindsCatalogueUseForm()
    ensures HandleSearch([Fixture()[5]], " form") == [Fixture()[5]]
  {
    SpacedFormFindsFormDescription(Fixture()[5]);
  }
}
