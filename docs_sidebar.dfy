/**
 * The documentation sidebar: the catalogue grouped by category with a
 * `reduce` whose accumulator object is filled in place, then one heading
 * per group and one link per hook.
 */
module DocsSidebar {
  import opened Wrappers
  import opened Seqs
  import opened Catalogue
  import opened PropertyOrder
  import EnhancedSearch

  /**
   * The own properties of the accumulator object: `keys` in the order the
   * properties were created, `values` the array each holds.
   */
  datatype Record = Record(keys: seq<string>, values: map<string, seq<Hook>>)

  ghost predicate Valid(rec: Record) {
    && NoDuplicates(rec.keys)
    && forall c :: c in rec.values <==> c in rec.keys
  }

  /**
   * The names an empty object literal `{}` inherits from Object.prototype.
   * Each reads as a function or an object, so `!acc[name]` is false for it.
   */
  const ObjectPrototypeKeys: set<string> := {
    "constructor", "hasOwnProperty", "isPrototypeOf", "propertyIsEnumerable",
    "toLocaleString", "toString", "valueOf", "__proto__",
    "__defineGetter__", "__defineSetter__", "__lookupGetter__", "__lookupSetter__" }

  const PushNotAFunction := "TypeError: acc[hook.category].push is not a function"

  /** The hooks of one category, in catalogue order. */
  function GroupOf(hooks: seq<Hook>, category: string): (r: seq<Hook>)
    ensures IsSubsequence(r, hooks)
    ensures forall h | h in r :: h.category == category
    ensures forall h: Hook {:trigger multiset(r)[h]} | h.category == category :: multiset(r)[h] == multiset(hooks)[h]
  {
    Filter(hooks, (h: Hook) => h.category == category)
  }

  /**
   * The accumulator the reduce is meant to build: one property per
   * category, created in order of first appearance, holding that category's
   * hooks in catalogue order.
   */
  function Grouped(hooks: seq<Hook>): (rec: Record)
    ensures Valid(rec)
    ensures rec.keys == Distinct(CategoriesOf(hooks))
  {
    var keys := Distinct(CategoriesOf(hooks));
    Record(keys, map c | c in keys :: GroupOf(hooks, c))
  }

  lemma GroupOfSnoc(hooks: seq<Hook>, hook: Hook, category: string)
    ensures GroupOf(hooks + [hook], category) ==
      GroupOf(hooks, category) + if hook.category == category then [hook] else []
  {
    FilterSnoc(hooks, hook, (h: Hook) => h.category == category);
  }

  lemma GroupOfAbsent(hooks: seq<Hook>, category: string)
    requires category !in CategoriesOf(hooks)
    ensures GroupOf(hooks, category) == []
  {
    FilterNone(hooks, (h: Hook) => h.category == category);
  }

  /**
   * When the hooks of a category sit side by side in the catalogue, from
   * `lo` up to `hi`, its group is exactly that run.
   */
  lemma {:induction false} GroupOfRun(hooks: seq<Hook>, category: string, lo: nat, hi: nat)
    requires lo <= hi <= |hooks|
    requires forall i | 0 <= i < |hooks| :: hooks[i].category == category <==> lo <= i < hi
    ensures GroupOf(hooks, category) == hooks[lo..hi]
  {
    if lo == hi {
      forall i | 0 <= i < |hooks| ensures CategoriesOf(hooks)[i] != category {
        assert hooks[i].category != category;
      }
      GroupOfAbsent(hooks, category);
    } else {
      var init, last := hooks[..|hooks| - 1], hooks[|hooks| - 1];
      assert hooks == init + [last];
      GroupOfSnoc(init, last, category);
      if hi < |hooks| {
        GroupOfRun(init, category, lo, hi);
        assert init[lo..hi] == hooks[lo..hi];
      } else {
        GroupOfRun(init, category, lo, hi - 1);
        assert init[lo..hi - 1] + [last] == hooks[lo..hi];
      }
    }
  }

  /** Adding one hook to the catalogue creates its category's property if that is new. */
  lemma GroupedKeysSnoc(hooks: seq<Hook>, hook: Hook)
    ensures var keys := Grouped(hooks).keys;
      Grouped(hooks + [hook]).keys == if hook.category in keys then keys else keys + [hook.category]
  {
    CategoriesOfSnoc(hooks, hook);
    DistinctSnoc(CategoriesOf(hooks), hook.category);
  }

  /** A map that agrees with `m[k := v]` on its keys and its values is `m[k := v]`. */
  lemma MapUpdateFrom<K, V>(next: map<K, V>, m: map<K, V>, k: K, v: V)
    requires forall d :: d in next <==> d == k || d in m
    requires forall d | d in next :: next[d] == if d == k then v else m[d]
    ensures next == m[k := v]
  {
  }

  /** One more hook adds its category to the grouped object's properties, and nothing else. */
  lemma GroupedDomainSnoc(hooks: seq<Hook>, hook: Hook)
    ensures forall d :: d in Grouped(hooks + [hook]).values <==> d == hook.category || d in Grouped(hooks).values
  {
    GroupedKeysSnoc(hooks, hook);
  }

  /** One more hook extends its own category's array and leaves the other arrays alone. */
  lemma GroupedArraysSnoc(hooks: seq<Hook>, hook: Hook)
    ensures var next, prev, c := Grouped(hooks + [hook]).values, Grouped(hooks).values, hook.category;
      forall d | d in next :: next[d] == if d == c then GroupOf(hooks, c) + [hook] else prev[d]
  {
    var next, prev, c := Grouped(hooks + [hook]).values, Grouped(hooks).values, hook.category;
    GroupedDomainSnoc(hooks, hook);
    forall d | d in next ensures next[d] == if d == c then GroupOf(hooks, c) + [hook] else prev[d] {
      GroupOfSnoc(hooks, hook, d);
    }
  }

  /** Adding one hook to the catalogue appends it to its category's group and changes no other group. */
  lemma GroupedValuesSnoc(hooks: seq<Hook>, hook: Hook)
    ensures var c := hook.category;
      Grouped(hooks + [hook]).values == Grouped(hooks).values[c := GroupOf(hooks, c) + [hook]]
  {
    var c := hook.category;
    GroupedDomainSnoc(hooks, hook);
    GroupedArraysSnoc(hooks, hook);
    MapUpdateFrom(Grouped(hooks + [hook]).values, Grouped(hooks).values, c, GroupOf(hooks, c) + [hook]);
  }

  /**
   * One step of the reduce: the next hook's category gets a new empty array
   * if it has none yet, and the hook is appended to that category's array.
   */
  lemma GroupedStep(hooks: seq<Hook>, i: nat)
    requires i < |hooks|
    ensures var prev, next, c := Grouped(hooks[..i]), Grouped(hooks[..i + 1]), hooks[i].category;
      && next.keys == (if c in prev.values then prev.keys else prev.keys + [c])
      && next.values == prev.values[c := (if c in prev.values then prev.values[c] else []) + [hooks[i]]]
  {
    var p, h := hooks[..i], hooks[i];
    assert hooks[..i + 1] == p + [h];
    GroupedKeysSnoc(p, h);
    GroupedValuesSnoc(p, h);
    if h.category !in Grouped(p).values {
      GroupOfAbsent(p, h.category);
    }
  }

  /** Every hook's category is a property of the grouped object. */
  lemma CategoriesAreKeys(hooks: seq<Hook>)
    ensures forall j | 0 <= j < |hooks| :: hooks[j].category in Grouped(hooks).keys
  {
    forall j | 0 <= j < |hooks| ensures hooks[j].category in Grouped(hooks).keys {
      assert hooks[j].category == CategoriesOf(hooks)[j];
    }
  }

  /**
   * The reducer's step on an accumulator that does not inherit the hook's
   * category: create an empty array for a new category, then push.
   */
  function AddHook(acc: Record, hook: Hook): Record {
    var c := hook.category;
    if c in acc.values then Record(acc.keys, acc.values[c := acc.values[c] + [hook]])
    else Record(acc.keys + [c], acc.values[c := [hook]])
  }

  /** `hooks.reduce(AddHook, {})` when no category is inherited. */
  function Reduce(hooks: seq<Hook>): Record {
    if hooks == [] then Record([], map[])
    else AddHook(Reduce(hooks[..|hooks| - 1]), hooks[|hooks| - 1])
  }

  lemma GroupedEmpty()
    ensures Grouped([]) == Record([], map[])
  {
    assert Grouped([]).values == map[];
  }

  /** The reducer's step turns the grouping of a prefix into the grouping of the next prefix. */
  lemma AddHookToGrouped(hooks: seq<Hook>, n: nat)
    requires n < |hooks|
    ensures AddHook(Grouped(hooks[..n]), hooks[n]) == Grouped(hooks[..n + 1])
  {
    GroupedStep(hooks, n);
    assert [] + [hooks[n]] == [hooks[n]];
  }

  /**
   * The reduce builds the grouped object: one property per category, in
   * order of first appearance, each holding its hooks in catalogue order.
   */
  lemma {:induction false} ReduceIsGrouped(hooks: seq<Hook>)
    ensures Reduce(hooks) == Grouped(hooks)
  {
    if hooks == [] {
      GroupedEmpty();
    } else {
      var n := |hooks| - 1;
      ReduceIsGrouped(hooks[..n]);
      AddHookToGrouped(hooks, n);
      assert hooks[..n + 1] == hooks;
    }
  }

  /**
   * `hooks.reduce(...)` over an initial accumulator with no own properties
   * that inherits the names `inherited`; the sidebar passes `{}`, which
   * inherits `ObjectPrototypeKeys`. A category the accumulator already has
   * an array for gets the hook pushed onto it; a new category first gets an
   * empty array. A category naming an inherited member is neither: that
   * member is truthy, so no array is created, and the push throws.
   */
  method GroupByCategory(hooks: seq<Hook>, inherited: set<string>) returns (r: Result<Record, string>)
    ensures r.Failure? <==> exists i | 0 <= i < |hooks| :: hooks[i].category in inherited
    ensures r.Failure? ==> r.error == PushNotAFunction
    ensures r.Success? ==> r.value == Grouped(hooks)
  {
    var keys: seq<string> := [];
    var groups: map<string, seq<Hook>> := map[];
    var i := 0;
    while i < |hooks|
      invariant 0 <= i <= |hooks|
      invariant forall k | k in keys :: k !in inherited
      invariant Record(keys, groups) == Reduce(hooks[..i])
    {
      var hook := hooks[i];
      var c := hook.category;
      ghost var acc := Record(keys, groups);
      if c !in groups {
        if c in inherited {
          assert hooks[i].category in inherited;
          return Failure(PushNotAFunction);
        }
        groups := groups[c := []];
        keys := keys + [c];
      }
      groups := groups[c := groups[c] + [hook]];
      assert [] + [hook] == [hook];
      assert Record(keys, groups) == AddHook(acc, hook);
      assert hooks[..i + 1][..i] == hooks[..i];
      i := i + 1;
    }
    assert hooks[..i] == hooks;
    ReduceIsGrouped(hooks);
    CategoriesAreKeys(hooks);
    r := Success(Record(keys, groups));
  }

  /** One `[category, categoryHooks]` pair of `Object.entries(hooksByCategory)`. */
  datatype GroupEntry = GroupEntry(category: string, hooks: seq<Hook>)

  /**
   * The headings the sidebar shows, one per entry: the first component of
   * each `[category, categoryHooks]` pair, in entry order.
   */
  function EntryCategories(entries: seq<GroupEntry>): (r: seq<string>)
    ensures |r| == |entries|
    ensures forall i | 0 <= i < |entries| :: r[i] == entries[i].category
  {
    seq(|entries|, i requires 0 <= i < |entries| => entries[i].category)
  }

  /** `Object.entries(acc)`: one pair per own property, in own-key order. */
  function Entries(rec: Record): (r: seq<GroupEntry>)
    requires Valid(rec)
    ensures EntryCategories(r) == OwnPropertyKeys(rec.keys)
    ensures forall i | 0 <= i < |r| :: r[i].category in rec.values && r[i].hooks == rec.values[r[i].category]
  {
    var ks := OwnPropertyKeys(rec.keys);
    OwnPropertyKeysMembers(rec.keys);
    seq(|ks|, i requires 0 <= i < |ks| => GroupEntry(ks[i], rec.values[ks[i]]))
  }

  /** All hooks of all entries, group after group. */
  function Flatten(entries: seq<GroupEntry>): seq<Hook> {
    if entries == [] then [] else Flatten(entries[..|entries| - 1]) + entries[|entries| - 1].hooks
  }

  /** The number of links the sidebar lists. */
  function SizeSum(entries: seq<GroupEntry>): nat {
    if entries == [] then 0 else SizeSum(entries[..|entries| - 1]) + |entries[|entries| - 1].hooks|
  }

  lemma {:induction false} FlattenSize(entries: seq<GroupEntry>)
    ensures |Flatten(entries)| == SizeSum(entries)
  {
    if entries != [] {
      FlattenSize(entries[..|entries| - 1]);
    }
  }

  /**
   * Concatenating the groups of distinct categories yields every hook of
   * those categories as often as the catalogue has it, and nothing else.
   */
  lemma {:induction false} FlattenGroups(entries: seq<GroupEntry>, hooks: seq<Hook>)
    requires forall i | 0 <= i < |entries| :: entries[i].hooks == GroupOf(hooks, entries[i].category)
    requires NoDuplicates(EntryCategories(entries))
    ensures forall h {:trigger multiset(Flatten(entries))[h]} ::
      multiset(Flatten(entries))[h] == (if h.category in EntryCategories(entries) then multiset(hooks)[h] else 0)
  {
    if entries != [] {
      var init, last := entries[..|entries| - 1], entries[|entries| - 1];
      assert EntryCategories(init) == EntryCategories(entries)[..|entries| - 1];
      FlattenGroups(init, hooks);
      assert EntryCategories(entries) == EntryCategories(init) + [last.category];
      assert last.category !in EntryCategories(init);
      forall h ensures multiset(Flatten(entries))[h] ==
        (if h.category in EntryCategories(entries) then multiset(hooks)[h] else 0)
      {
        assert multiset(Flatten(entries)) == multiset(Flatten(init)) + multiset(last.hooks);
      }
    }
  }

  /** The sidebar's entries are the groups of distinct categories, one per category of the catalogue. */
  lemma EntriesAreGroups(hooks: seq<Hook>)
    ensures var entries := Entries(Grouped(hooks));
      && (forall i | 0 <= i < |entries| :: entries[i].hooks == GroupOf(hooks, entries[i].category))
      && NoDuplicates(EntryCategories(entries))
      && forall c :: c in EntryCategories(entries) <==> c in CategoriesOf(hooks)
  {
    var rec := Grouped(hooks);
    OwnPropertyKeysMembers(rec.keys);
  }

  /** Groups of exactly the catalogue's categories, each once, cover the catalogue. */
  lemma GroupsCoverCatalogue(entries: seq<GroupEntry>, hooks: seq<Hook>)
    requires forall i | 0 <= i < |entries| :: entries[i].hooks == GroupOf(hooks, entries[i].category)
    requires NoDuplicates(EntryCategories(entries))
    requires forall c :: c in EntryCategories(entries) <==> c in CategoriesOf(hooks)
    ensures multiset(Flatten(entries)) == multiset(hooks)
    ensures SizeSum(entries) == |hooks|
  {
    FlattenGroups(entries, hooks);
    assert multiset(Flatten(entries)) == multiset(hooks);
    FlattenSize(entries);
    calc {
      SizeSum(entries);
      |Flatten(entries)|;
      |multiset(Flatten(entries))|;
      |multiset(hooks)|;
      |hooks|;
    }
  }

  /**
   * Every hook is listed exactly once: the sidebar's groups, taken in
   * order, are a permutation of the catalogue, so their sizes add up to the
   * catalogue's size.
   */
  lemma SidebarPartitionsCatalogue(hooks: seq<Hook>)
    ensures multiset(Flatten(Entries(Grouped(hooks)))) == multiset(hooks)
    ensures SizeSum(Entries(Grouped(hooks))) == |hooks|
  {
    EntriesAreGroups(hooks);
    GroupsCoverCatalogue(Entries(Grouped(hooks)), hooks);
  }

  /** Each hook sits in the group of its own category, and in no other group. */
  lemma HookInOwnGroupOnly(hooks: seq<Hook>, h: Hook)
    requires h in hooks
    ensures h.category in Grouped(hooks).values
    ensures multiset(Grouped(hooks).values[h.category])[h] == multiset(hooks)[h]
    ensures forall c | c in Grouped(hooks).values && c != h.category :: h !in Grouped(hooks).values[c]
  {
    var i :| 0 <= i < |hooks| && hooks[i] == h;
    assert h.category == CategoriesOf(hooks)[i];
  }

  /** Every group lists its hooks in catalogue order and is not empty. */
  lemma GroupsAreOrderedAndNonEmpty(hooks: seq<Hook>, c: string)
    requires c in Grouped(hooks).values
    ensures IsSubsequence(Grouped(hooks).values[c], hooks)
    ensures Grouped(hooks).values[c] != []
  {
    var i :| 0 <= i < |hooks| && CategoriesOf(hooks)[i] == c;
    assert hooks[i] in GroupOf(hooks, c) by {
      assert multiset(GroupOf(hooks, c))[hooks[i]] == multiset(hooks)[hooks[i]];
    }
  }

  /**
   * The group headings are distinct and, when no category is an array index
   * such as "0" or "42", come in the order the categories first appear in
   * the catalogue, the same order as the search dropdown's categories.
   */
  lemma HeadingsInFirstOccurrenceOrder(hooks: seq<Hook>)
    requires forall i | 0 <= i < |hooks| :: !IsArrayIndex(hooks[i].category)
    ensures EntryCategories(Entries(Grouped(hooks))) == EnhancedSearch.Categories(hooks)
    ensures NoDuplicates(EntryCategories(Entries(Grouped(hooks))))
  {
    var keys := Grouped(hooks).keys;
    forall i | 0 <= i < |keys| ensures !IsArrayIndex(keys[i]) {
      assert keys[i] in CategoriesOf(hooks);
    }
    NoIndexKeysKeepCreationOrder(keys);
  }

  /** The address a hook's sidebar link points to. */
  const DocsPrefix := "/docs/hooks/"

  datatype Link = Link(text: string, href: string, active: bool)

  datatype Section = Section(heading: string, links: seq<Link>)

  /** A hook's link: labelled by its name, highlighted when the current path is its page. */
  function HookLink(hook: Hook, pathname: string): (l: Link)
    ensures l.text == hook.name && l.href == DocsPrefix + hook.id
    ensures l.active <==> pathname == l.href
  {
    var href := DocsPrefix + hook.id;
    Link(hook.name, href, pathname == href)
  }

  function RenderSection(e: GroupEntry, pathname: string): (s: Section)
    ensures s.heading == e.category && |s.links| == |e.hooks|
    ensures forall i | 0 <= i < |e.hooks| :: s.links[i] == HookLink(e.hooks[i], pathname)
  {
    Section(e.category, seq(|e.hooks|, i requires 0 <= i < |e.hooks| => HookLink(e.hooks[i], pathname)))
  }

  function Render(entries: seq<GroupEntry>, pathname: string): (r: seq<Section>)
    ensures |r| == |entries|
    ensures forall i | 0 <= i < |entries| :: r[i] == RenderSection(entries[i], pathname)
  {
    seq(|entries|, i requires 0 <= i < |entries| => RenderSection(entries[i], pathname))
  }

  /** A highlighted link tells which hook's page is open: hooks with distinct ids are never highlighted together. */
  lemma ActiveLinkNamesThePage(a: Hook, b: Hook, pathname: string)
    requires HookLink(a, pathname).active
    ensures a.id == pathname[|DocsPrefix|..]
    ensures HookLink(b, pathname).active ==> a.id == b.id
  {
    assert a.id == (DocsPrefix + a.id)[|DocsPrefix|..];
    assert b.id == (DocsPrefix + b.id)[|DocsPrefix|..];
  }

  /**
   * The sidebar as written: group with `{}` as accumulator, then render the
   * entries. It fails when a category names an Object.prototype member.
   */
  method Sidebar(hooks: seq<Hook>, pathname: string) returns (r: Result<seq<Section>, string>)
    ensures r.Failure? <==> exists i | 0 <= i < |hooks| :: hooks[i].category in ObjectPrototypeKeys
    ensures r.Failure? ==> r.error == PushNotAFunction
    ensures r.Success? ==> r.value == Render(Entries(Grouped(hooks)), pathname)
  {
    var grouped := GroupByCategory(hooks, ObjectPrototypeKeys);
    match grouped {
      case Failure(e) => r := Failure(e);
      case Success(rec) => r := Success(Render(Entries(rec), pathname));
    }
  }

  /** A catalogue with a hook in category "constructor" makes the sidebar throw. */
  method ConstructorCategoryThrows() returns (r: Result<seq<Section>, string>)
    ensures r == Failure(PushNotAFunction)
  {
    var hooks := [Entry("use-builder", "useBuilder", "constructor", "")];
    assert hooks[0].category in ObjectPrototypeKeys;
    r := Sidebar(hooks, DocsPrefix + "use-builder");
  }

  /**
   * The sidebar with an accumulator that inherits nothing
   * (`Object.create(null)`): it never throws and lists every hook in its
   * category's group.
   */
  method SidebarWithoutPrototype(hooks: seq<Hook>, pathname: string) returns (sections: seq<Section>)
    ensures sections == Render(Entries(Grouped(hooks)), pathname)
  {
    var grouped := GroupByCategory(hooks, {});
    sections := Render(Entries(grouped.value), pathname);
  }
}

module DocsSidebarFixture {
  import opened Seqs
  import opened Catalogue
  import opened PropertyOrder
  import opened DocsSidebar

  lemma FixtureCategories()
    ensures CategoriesOf(Fixture()) == ["State", "Performance", "Performance", "Layout", "Layout", "Custom"]
  {
  }

  /** Three distinct values, the second one repeated, collapse to one copy each. */
  lemma DistinctOfFirstRuns<T(!new)>(a: T, b: T, c: T)
    requires a != b && a != c && b != c
    ensures Distinct([a, b, b, c]) == [a, b, c]
  {
    assert Distinct([a]) == [a] by {
      DistinctSnoc([], a);
      assert [] + [a] == [a];
    }
    assert Distinct([a, b]) == [a, b] by {
      DistinctSnoc([a], b);
      assert [a] + [b] == [a, b];
    }
    assert Distinct([a, b, b]) == [a, b] by {
      DistinctSnoc([a, b], b);
      assert [a, b] + [b] == [a, b, b];
    }
    assert Distinct([a, b, b, c]) == [a, b, c] by {
      DistinctSnoc([a, b, b], c);
      assert [a, b, b] + [c] == [a, b, b, c];
    }
  }

  /** Runs of four distinct values, the middle two repeated, collapse to one copy each. */
  lemma DistinctOfRuns<T(!new)>(a: T, b: T, c: T, d: T)
    requires a != b && a != c && a != d && b != c && b != d && c != d
    ensures Distinct([a, b, b, c, c, d]) == [a, b, c, d]
  {
    DistinctOfFirstRuns(a, b, c);
    assert Distinct([a, b, b, c, c]) == [a, b, c] by {
      DistinctSnoc([a, b, b, c], c);
      assert [a, b, b, c] + [c] == [a, b, b, c, c];
    }
    DistinctSnoc([a, b, b, c, c], d);
    assert [a, b, b, c, c] + [d] == [a, b, b, c, c, d];
  }

  lemma FixtureCategoriesDistinct()
    ensures Distinct(CategoriesOf(Fixture())) == ["State", "Performance", "Layout", "Custom"]
  {
    FixtureCategories();
    assert "Layout"[0] != "Custom"[0];
    DistinctOfRuns("State", "Performance", "Layout", "Custom");
  }

  /** The fixture's sidebar headings, in order of first appearance. */
  lemma FixtureHeadings()
    ensures Grouped(Fixture()).keys == ["State", "Performance", "Layout", "Custom"]
    ensures EntryCategories(Entries(Grouped(Fixture()))) == ["State", "Performance", "Layout", "Custom"]
  {
    FixtureCategoriesDistinct();
    var keys := Grouped(Fixture()).keys;
    assert !IsArrayIndex("State") && !IsArrayIndex("Performance") && !IsArrayIndex("Layout") && !IsArrayIndex("Custom");
    NoIndexKeysKeepCreationOrder(keys);
  }

  /** The fixture's "State" group holds useLocalStorage alone. */
  lemma FixtureStateGroup()
    ensures GroupOf(Fixture(), "State") == [Fixture()[0]]
  {
    var f := Fixture();
    FixtureCategories();
    assert forall i | 0 <= i < |f| :: f[i].category == CategoriesOf(f)[i];
    GroupOfRun(f, "State", 0, 1);
  }

  /** The fixture's "Performance" group holds its two debounce hooks, in catalogue order. */
  lemma FixturePerformanceGroup()
    ensures GroupOf(Fixture(), "Performance") == [Fixture()[1], Fixture()[2]]
  {
    var f := Fixture();
    FixtureCategories();
    assert forall i | 0 <= i < |f| :: f[i].category == CategoriesOf(f)[i];
    GroupOfRun(f, "Performance", 1, 3);
  }

  /** The fixture's "Layout" group holds useIntersectionObserver then useMediaQuery. */
  lemma FixtureLayoutGroup()
    ensures GroupOf(Fixture(), "Layout") == [Fixture()[3], Fixture()[4]]
  {
    var f := Fixture();
    FixtureCategories();
    assert forall i | 0 <= i < |f| :: f[i].category == CategoriesOf(f)[i];
    assert "Custom"[0] != "Layout"[0];
    GroupOfRun(f, "Layout", 3, 5);
  }

  /** The fixture's "Custom" group holds useForm alone. */
  lemma FixtureCustomGroup()
    ensures GroupOf(Fixture(), "Custom") == [Fixture()[5]]
  {
    var f := Fixture();
    FixtureCategories();
    assert forall i | 0 <= i < |f| :: f[i].category == CategoriesOf(f)[i];
    assert "Custom"[0] != "Layout"[0];
    GroupOfRun(f, "Custom", 5, 6);
  }

  /** Four headings whose groups are known give the four entries. */
  lemma EntriesOfFour(entries: seq<GroupEntry>, hooks: seq<Hook>, a: string, b: string, c: string, d: string,
                      ga: seq<Hook>, gb: seq<Hook>, gc: seq<Hook>, gd: seq<Hook>)
    requires forall i | 0 <= i < |entries| :: entries[i].hooks == GroupOf(hooks, entries[i].category)
    requires EntryCategories(entries) == [a, b, c, d]
    requires GroupOf(hooks, a) == ga && GroupOf(hooks, b) == gb
    requires GroupOf(hooks, c) == gc && GroupOf(hooks, d) == gd
    ensures entries == [GroupEntry(a, ga), GroupEntry(b, gb), GroupEntry(c, gc), GroupEntry(d, gd)]
  {
    assert |entries| == 4;
    assert entries[0].category == a && entries[1].category == b;
    assert entries[2].category == c && entries[3].category == d;
  }

  /**
   * `Object.entries` of the fixture's grouped object: State with one hook,
   * Performance with two, Layout with two and Custom with one.
   */
  lemma FixtureEntries()
    ensures var f := Fixture();
      Entries(Grouped(f)) == [
        GroupEntry("State", [f[0]]), GroupEntry("Performance", [f[1], f[2]]),
        GroupEntry("Layout", [f[3], f[4]]), GroupEntry("Custom", [f[5]])]
  {
    var f := Fixture();
    FixtureHeadings();
    FixtureStateGroup();
    FixturePerformanceGroup();
    FixtureLayoutGroup();
    FixtureCustomGroup();
    EntriesAreGroups(f);
    EntriesOfFour(Entries(Grouped(f)), f, "State", "Performance", "Layout", "Custom",
      [f[0]], [f[1], f[2]], [f[3], f[4]], [f[5]]);
  }

  /** The fixture's sidebar: four sections with one, two, two and one links. */
  lemma FixtureSectionSizes(pathname: string)
    ensures var sections := Render(Entries(Grouped(Fixture())), pathname);
      && |sections| == 4
      && sections[0].heading == "State" && |sections[0].links| == 1
      && sections[1].heading == "Performance" && |sections[1].links| == 2
      && sections[2].heading == "Layout" && |sections[2].links| == 2
      && sections[3].heading == "Custom" && |sections[3].links| == 1
  {
    FixtureEntries();
  }

  /**
   * On the page of `useDebounce`, the sidebar highlights that hook's link,
   * the first one under "Performance", and no other link of that section.
   */
  lemma FixtureActiveLink()
    ensures var sections := Render(Entries(Grouped(Fixture())), DocsPrefix + "use-debounce");
      && |sections| == 4
      && sections[1].heading == "Performance"
      && |sections[1].links| == 2
      && sections[1].links[0] == Link("useDebounce", DocsPrefix + "use-debounce", true)
      && sections[1].links[1] == Link("useDebounceCallback", DocsPrefix + "use-debounce-callback", false)
  {
    FixtureHeadings();
    FixturePerformanceGroup();
    var entries := Entries(Grouped(Fixture()));
    assert entries[1].category == "Performance";
    assert DocsPrefix + "use-debounce" != DocsPrefix + "use-debounce-callback" by {
      assert |DocsPrefix + "use-debounce"| != |DocsPrefix + "use-debounce-callback"|;
    }
  }
}
