# hook-vault components, modelled in Dafny

hook-vault is a documentation site for React hooks. This project models the logic of five of its components.

- **Category search** (`components/enhanced-search.tsx`):
  - the dropdown's category list, which holds each category once, in order of first appearance;
  - the filter that keeps a hook when the query is empty or occurs, case-insensitively, in the hook's name or description, and when no category is selected or the hook's category is selected;
  - the checkbox update of the selected categories.
- **Plain search box** (`components/search-bar.tsx`): a blank query clears the results. Any other query keeps the hooks whose name or description mentions the query as typed, untrimmed.
- **Documentation sidebar** (`components/docs-sidebar.tsx`):
  - the `reduce` that groups the catalogue by category into an object filled in place;
  - the `Object.entries` walk over that object, whose order follows the ECMAScript own-property order (section 10.1.11.1 of ECMA-262): integer-like keys first, ascending, then the other keys in creation order;
  - one link per hook, highlighted when the current path is that hook's page.
- **Live editor sanitiser** (`components/live-editor.tsx`): the `replace(/use[A-Z]\w+/g, …)` that keeps five allowed hook names and turns every other match into `/* blocked */`. It is a left-to-right scan with greedy matches.
- **Playground builder** (`components/hook-playground.tsx`): the template that wraps a hook's code and its first example's code into the sandbox's `App.tsx`.

Modules and files:

| module | file | what it holds |
|---|---|---|
| `Wrappers` | `wrappers.dfy` | `Option` and `Result` |
| `Text` | `text.dfy` | ASCII `toLowerCase`, `trim` over ECMAScript whitespace and line terminators, and `includes` |
| `Seqs` | `seqs.dfy` | order-preserving `filter`, `[...new Set(…)]`, and subsequences |
| `Catalogue` | `catalogue.dfy` | the hook record of `types/types.ts`, and the six entries of `lib/hooks.ts` (identity, category and description) |
| `EnhancedSearch` | `enhanced_search.dfy` | the category search |
| `SearchBar` | `search_bar.dfy` | the plain search box |
| `PropertyOrder` | `property_order.dfy` | the order of `Object.entries` |
| `DocsSidebar` | `docs_sidebar.dfy` | the sidebar; the grouping `reduce` is a method with a loop over the catalogue |
| `DocsSidebarFixture` | `docs_sidebar.dfy` | the sidebar worked out for the catalogue of `lib/hooks.ts` |
| `LiveEditor` | `live_editor.dfy` | the sanitiser |
| `LiveEditorCases` | `live_editor.dfy` | worked cases of the sanitiser |
| `HookPlayground` | `hook_playground.dfy` | the playground builder |

The `{}` accumulator of the sidebar's `reduce` is an ordinary object, so it inherits the members of `Object.prototype`. `DocsSidebar.GroupByCategory` takes the set of inherited names as a parameter. For a category equal to one of them, `!acc[category]` is false and `.push` is not a function, so the method returns the `TypeError` as a `Failure`.

## Model

| member | source | states |
|---|---|---|
| `Text.LowerChar` | components/enhanced-search.tsx:19 | `toLowerCase` on one character lowers an ASCII capital by moving it 32 code points up, leaves any other character as it is, and never yields a capital |
| `Text.Lower` | components/enhanced-search.tsx:19 | `toLowerCase` keeps the length, lowers each ASCII capital and leaves every other character as it is |
| `Text.LowerIdempotent` | components/enhanced-search.tsx:19 | lowercasing twice is lowercasing once |
| `Text.LowerKeepsWhitespace` | components/search-bar.tsx:12 | lowercasing neither creates nor removes whitespace, so it does not change whether a query is blank |
| `Text.LowerKeepsBlank` | components/search-bar.tsx:12 | a query is blank exactly when its lowercase form is |
| `Text.TrimStart` | components/search-bar.tsx:12 | the leading-whitespace cut is a suffix of the string, starts with a non-whitespace character unless empty, and only whitespace was cut |
| `Text.TrimEnd` | components/search-bar.tsx:12 | the trailing-whitespace cut is a prefix of the string, ends with a non-whitespace character unless empty, and only whitespace was cut |
| `Text.Trim` | components/search-bar.tsx:12 | the trimmed query neither starts nor ends with whitespace |
| `Text.BlankEndsCut` | components/search-bar.tsx:12 | cutting a whitespace prefix and then a whitespace suffix leaves a contiguous piece of the string with only whitespace around it |
| `Text.TrimIsInfix` | components/search-bar.tsx:12 | the trimmed query is the piece of the query that starts after its leading whitespace, and only whitespace lies before and after it |
| `Text.TrimEmptyIffBlank` | components/search-bar.tsx:12 | `!query.trim()` holds exactly when every character of the query is whitespace |
| `Text.ContainsEmpty` | components/enhanced-search.tsx:19 | every string includes the empty string |
| `Text.ContainsChar` | components/enhanced-search.tsx:19 | a one-character needle is included exactly when that character occurs |
| `Seqs.Filter` | components/enhanced-search.tsx:18-24 | `filter` returns a subsequence, in input order, holding each element that satisfies the predicate as often as the input does, and nothing else |
| `Seqs.FilterMembership` | components/enhanced-search.tsx:18-24 | an element is in the filtered array exactly when it is in the input and satisfies the predicate |
| `Seqs.FilterSnoc` | components/enhanced-search.tsx:18-24 | filtering an array with one more element at the end appends that element exactly when it satisfies the predicate |
| `Seqs.FilterAll` | components/enhanced-search.tsx:18-24 | a predicate that holds for every element keeps the whole array |
| `Seqs.FilterNone` | components/enhanced-search.tsx:18-24 | a predicate that holds for no element gives the empty array |
| `Seqs.FilterAgree` | components/enhanced-search.tsx:18-24 | predicates that agree on every element give the same result |
| `Seqs.SubsequenceMembers` | components/enhanced-search.tsx:18-24 | every element of a subsequence is an element of the array |
| `Seqs.SubsequenceKeepsNoDuplicates` | components/enhanced-search.tsx:43 | a subsequence of an array without duplicates has none either |
| `Seqs.NoDuplicatesCountsOnce` | components/enhanced-search.tsx:15 | in an array without duplicates every value occurs at most once |
| `Seqs.PermutationKeepsNoDuplicates` | components/docs-sidebar.tsx:34 | a reordering of an array without duplicates has none either |
| `Seqs.FirstIndex` | components/enhanced-search.tsx:15 | the position of a value's first occurrence |
| `Seqs.FirstIndexPrefix` | components/enhanced-search.tsx:15 | a value's first occurrence is the same in an array and in any prefix that contains the value |
| `Seqs.Distinct` | components/enhanced-search.tsx:15 | `[...new Set(xs)]` has no duplicates and holds exactly the values of `xs` |
| `Seqs.DistinctInFirstOccurrenceOrder` | components/enhanced-search.tsx:15 | the distinct values come in the order of their first occurrence |
| `Seqs.FilterInFirstOccurrenceOrder` | components/enhanced-search.tsx:18-24 | in an array without duplicates, `filter` keeps the kept elements in the order they occur |
| `Seqs.DistinctSnoc` | components/enhanced-search.tsx:15 | one more element adds a new value at the end, or nothing if the value was already there |
| `Catalogue.CategoriesOf` | components/enhanced-search.tsx:15 | `hooks.map(h => h.category)` gives one category per hook, in catalogue order |
| `Catalogue.CategoriesOfSnoc` | components/enhanced-search.tsx:15 | one more hook adds its category at the end |
| `EnhancedSearch.Categories` | components/enhanced-search.tsx:15 | the dropdown lists every hook's category once, only categories of hooks, in order of first appearance |
| `EnhancedSearch.Search` | components/enhanced-search.tsx:18-24 | the results are a subsequence of the catalogue, in its order, holding each hook that matches both conditions and nothing else |
| `EnhancedSearch.SearchMembership` | components/enhanced-search.tsx:18-24 | a hook is shown exactly when it is catalogued, matches the query condition and matches the category condition |
| `EnhancedSearch.SearchResultsSatisfyFilters` | components/enhanced-search.tsx:19-21 | a result mentions a non-empty query in its lowercased name or description, and its category is selected when a selection exists |
| `EnhancedSearch.UnfilteredSearchIsCatalogue` | components/enhanced-search.tsx:19-21 | an empty query with nothing selected shows the whole catalogue, in order |
| `EnhancedSearch.SpaceQueryIsNotTrimmed` | components/enhanced-search.tsx:19 | a query of one space is not empty; it shows exactly the hooks with a space in the name or description |
| `EnhancedSearch.SearchIgnoresQueryCase` | components/enhanced-search.tsx:19 | the results do not depend on the letter case of the query |
| `EnhancedSearch.Toggle` | components/enhanced-search.tsx:43 | checking appends the category. Unchecking removes every occurrence of it, keeps the other entries in order and keeps their counts |
| `EnhancedSearch.ToggleMembership` | components/enhanced-search.tsx:43 | after checking, a category is selected if it was or is the toggled one; after unchecking, if it was and is not the toggled one |
| `EnhancedSearch.ToggleRoundTrip` | components/enhanced-search.tsx:43 | checking and then unchecking an unselected category restores the selection |
| `EnhancedSearch.ToggleKeepsNoDuplicates` | components/enhanced-search.tsx:41-43 | checking an unselected box or unchecking a selected one keeps the selection free of duplicates |
| `SearchBar.HandleSearch` | components/search-bar.tsx:11-19 | a blank query gives no results. Otherwise the results are a subsequence of the catalogue holding each hook that mentions the untrimmed query, and nothing else |
| `SearchBar.HandleSearchMembership` | components/search-bar.tsx:17 | for a non-blank query, a hook is a result exactly when it is catalogued and mentions the query |
| `SearchBar.AgreesWithUnselectedSearch` | components/search-bar.tsx:17 | for a non-blank query the search box shows what the category search shows with nothing selected |
| `SearchBar.HandleSearchIgnoresCase` | components/search-bar.tsx:11-19 | the results for a query and for its lowercase form are the same |
| `SearchBar.CaseVariantsMatchAlike` | components/search-bar.tsx:17 | queries with the same lowercase form keep the same hooks |
| `SearchBar.CaseVariantsAgree` | components/search-bar.tsx:11-19 | queries that differ only in letter case give the same results |
| `SearchBar.ContainsFirstChar` | components/search-bar.tsx:17 | an included non-empty needle has its first character in the haystack |
| `SearchBar.LowerKeepsAbsent` | components/search-bar.tsx:17 | lowercasing does not create a character that is not a lowercase letter |
| `SearchBar.FormIsFound` | components/search-bar.tsx:17 | "form" finds useForm |
| `SearchBar.TabbedFormIsNotFound` | components/search-bar.tsx:17 | "\tform" does not find useForm when neither its name nor its description has a tab |
| `SearchBar.TabbedFormTrims` | components/search-bar.tsx:12 | "\tform" trims to "form" |
| `SearchBar.UntrimmedQueryMatters` | components/search-bar.tsx:12-17 | trimming only decides blankness: "\tform" trims to "form", yet for a useForm whose name and description have no tab, "form" finds it and "\tform" does not |
| `SearchBar.FormDescriptionHasNoTab` | lib/hooks.ts:326 | the catalogue's useForm description has no tab |
| `SearchBar.CatalogueUntrimmedQueryMatters` | components/search-bar.tsx:12-17 | for the catalogue's useForm, "form" finds it and "\tform" does not |
| `SearchBar.FoundWhenMentioned` | components/search-bar.tsx:12-17 | a non-blank query that a hook mentions shows that hook |
| `SearchBar.SpacedFormInFormDescription` | lib/hooks.ts:326 | the lowercased useForm description has " form" at index 10 |
| `SearchBar.FormDescriptionMentionsSpacedForm` | components/search-bar.tsx:17 | a hook with useForm's description mentions " form" |
| `SearchBar.SpacedFormFindsFormDescription` | components/search-bar.tsx:12-17 | " form" is not blank and finds a hook with useForm's description |
| `SearchBar.SpacedFormFindsCatalogueUseForm` | components/search-bar.tsx:12-17 | " form" finds the catalogue's useForm, through its description |
| `PropertyOrder.Insert` | components/docs-sidebar.tsx:34 | inserting a key into keys sorted by numeric value keeps them sorted and adds that one key |
| `PropertyOrder.SortedCons` | components/docs-sidebar.tsx:34 | a key no larger than every key of a sorted list can be put in front of it |
| `PropertyOrder.InsertPermutes` | components/docs-sidebar.tsx:34 | insertion adds exactly the inserted key to the multiset of keys |
| `PropertyOrder.SortByValue` | components/docs-sidebar.tsx:34 | integer-like keys are listed in ascending numeric order |
| `PropertyOrder.SortPermutes` | components/docs-sidebar.tsx:34 | sorting is a permutation |
| `PropertyOrder.OwnPropertyKeysPermutes` | components/docs-sidebar.tsx:34 | `Object.entries` lists every own key once, whatever the order |
| `PropertyOrder.OwnPropertyKeysMembers` | components/docs-sidebar.tsx:34 | the listed keys are the created keys, and distinct keys stay distinct |
| `PropertyOrder.OwnPropertyKeysIndicesFirst` | components/docs-sidebar.tsx:34 | integer-like keys come first, in ascending numeric order, followed by the other keys |
| `PropertyOrder.OtherKeysKeepCreationOrder` | components/docs-sidebar.tsx:34 | the keys that are not integer-like close the list, as a subsequence of creation order |
| `PropertyOrder.OtherKeysInCreationOrder` | components/docs-sidebar.tsx:34 | for distinct created keys, any two listed keys that are not integer-like appear in the order they were created |
| `PropertyOrder.SortedKeysAreIndices` | components/docs-sidebar.tsx:34 | the sorted front of the list holds integer-like keys only |
| `PropertyOrder.IndicesThenOrdered` | components/docs-sidebar.tsx:34 | integer-like keys followed by keys in creation order list every two non-integer-like keys in creation order |
| `PropertyOrder.NoIndexKeysKeepCreationOrder` | components/docs-sidebar.tsx:34 | with no integer-like key, `Object.entries` follows creation order exactly |
| `DocsSidebar.GroupOf` | components/docs-sidebar.tsx:11-17 | a category's group holds, in catalogue order, every hook of that category as often as the catalogue has it, and no other hook |
| `DocsSidebar.Grouped` | components/docs-sidebar.tsx:11-17 | the grouped object has one property per category, created in order of first appearance |
| `DocsSidebar.GroupOfSnoc` | components/docs-sidebar.tsx:15 | one more hook is pushed onto its own category's group and no other |
| `DocsSidebar.GroupOfAbsent` | components/docs-sidebar.tsx:12-13 | the group of a category not seen so far is empty |
| `DocsSidebar.GroupOfRun` | components/docs-sidebar.tsx:11-17 | when a category's hooks sit side by side in the catalogue, its group is exactly that run |
| `DocsSidebar.GroupedKeysSnoc` | components/docs-sidebar.tsx:12-13 | one more hook creates a property exactly when its category is new |
| `DocsSidebar.GroupedValuesSnoc` | components/docs-sidebar.tsx:12-15 | one more hook changes only its own category's array, by appending the hook |
| `DocsSidebar.GroupedDomainSnoc` | components/docs-sidebar.tsx:12-13 | one more hook adds its category to the properties and no other name |
| `DocsSidebar.GroupedArraysSnoc` | components/docs-sidebar.tsx:15 | one more hook extends its own category's array by itself and leaves every other array as it was |
| `DocsSidebar.GroupedStep` | components/docs-sidebar.tsx:12-15 | one reduce step adds the hook's category as a new key when it has no array yet, creating an empty array for it, and appends the hook to that category's array |
| `DocsSidebar.CategoriesAreKeys` | components/docs-sidebar.tsx:11-17 | every hook's category is a key of the grouped object |
| `DocsSidebar.GroupedEmpty` | components/docs-sidebar.tsx:17 | the reduce starts from an object with no keys |
| `DocsSidebar.AddHookToGrouped` | components/docs-sidebar.tsx:12-16 | the callback applied to the object grouped so far gives the object grouped with one more hook |
| `DocsSidebar.ReduceIsGrouped` | components/docs-sidebar.tsx:11-17 | folding the callback over the catalogue from `{}` gives the grouped object |
| `DocsSidebar.GroupByCategory` | components/docs-sidebar.tsx:11-17 | the `reduce` fails with the `push` TypeError exactly when some category is an inherited name. Otherwise it builds the grouped object |
| `DocsSidebar.EntryCategories` | components/docs-sidebar.tsx:34 | the headings of the entries, one per entry |
| `DocsSidebar.Entries` | components/docs-sidebar.tsx:34 | `Object.entries` pairs each own key, in own-key order, with the array it holds |
| `DocsSidebar.FlattenSize` | components/docs-sidebar.tsx:34-44 | the number of links is the sum of the group sizes |
| `DocsSidebar.FlattenGroups` | components/docs-sidebar.tsx:34-44 | the links of the groups of distinct categories are each hook of those categories, as often as catalogued |
| `DocsSidebar.EntriesAreGroups` | components/docs-sidebar.tsx:34 | the entries are the groups of the catalogue's categories, each category once |
| `DocsSidebar.GroupsCoverCatalogue` | components/docs-sidebar.tsx:34-44 | groups of exactly the catalogue's categories list the catalogue, and their sizes sum to its size |
| `DocsSidebar.SidebarPartitionsCatalogue` | components/docs-sidebar.tsx:11-44 | the sidebar lists every hook exactly as often as the catalogue does, so the group sizes add up to the catalogue's size |
| `DocsSidebar.HookInOwnGroupOnly` | components/docs-sidebar.tsx:11-17 | each hook is in its own category's group, with every catalogue occurrence, and in no other group |
| `DocsSidebar.GroupsAreOrderedAndNonEmpty` | components/docs-sidebar.tsx:11-17 | every group keeps catalogue order and is not empty |
| `DocsSidebar.HeadingsInFirstOccurrenceOrder` | components/docs-sidebar.tsx:34-36 | with no integer-like category, the headings are distinct and equal the search dropdown's categories, in order of first appearance |
| `DocsSidebar.HookLink` | components/docs-sidebar.tsx:40 | a link is labelled by the hook's name, points to `/docs/hooks/<id>`, and is highlighted exactly when the path is that address |
| `DocsSidebar.RenderSection` | components/docs-sidebar.tsx:35-44 | one heading per entry and one link per hook of it, in the group's order |
| `DocsSidebar.Render` | components/docs-sidebar.tsx:34-44 | one section per entry, in entry order |
| `DocsSidebar.ActiveLinkNamesThePage` | components/docs-sidebar.tsx:40 | a highlighted link's id is the path after `/docs/hooks/`, so hooks with distinct ids are never highlighted together |
| `DocsSidebar.Sidebar` | components/docs-sidebar.tsx:11-44 | the sidebar as written fails exactly when a category is an `Object.prototype` member name. Otherwise it renders the grouped catalogue |
| `DocsSidebar.ConstructorCategoryThrows` | components/docs-sidebar.tsx:12-15 | a catalogue with category "constructor" makes the sidebar throw the `push` TypeError |
| `DocsSidebar.SidebarWithoutPrototype` | components/docs-sidebar.tsx:11-44 | with an accumulator that inherits nothing, the sidebar always renders the grouped catalogue |
| `DocsSidebarFixture.FixtureCategories` | lib/hooks.ts:5-325 | the catalogue's categories are State, Performance, Performance, Layout, Layout, Custom |
| `DocsSidebarFixture.DistinctOfFirstRuns` | components/enhanced-search.tsx:15 | three distinct values with the second repeated collapse to one copy each |
| `DocsSidebarFixture.DistinctOfRuns` | components/enhanced-search.tsx:15 | runs of four distinct values collapse to one copy each |
| `DocsSidebarFixture.FixtureCategoriesDistinct` | components/enhanced-search.tsx:15 | the catalogue's distinct categories are State, Performance, Layout, Custom |
| `DocsSidebarFixture.FixtureHeadings` | components/docs-sidebar.tsx:34-36 | the catalogue's sidebar headings are State, Performance, Layout, Custom, in that order |
| `DocsSidebarFixture.FixturePerformanceGroup` | components/docs-sidebar.tsx:11-17 | the Performance group holds useDebounce then useDebounceCallback |
| `DocsSidebarFixture.FixtureStateGroup` | components/docs-sidebar.tsx:11-17 | the State group holds useLocalStorage alone |
| `DocsSidebarFixture.FixtureLayoutGroup` | components/docs-sidebar.tsx:11-17 | the Layout group holds useIntersectionObserver then useMediaQuery |
| `DocsSidebarFixture.FixtureCustomGroup` | components/docs-sidebar.tsx:11-17 | the Custom group holds useForm alone |
| `DocsSidebarFixture.EntriesOfFour` | components/docs-sidebar.tsx:34 | four entries whose headings and groups are known are exactly those four pairs |
| `DocsSidebarFixture.FixtureEntries` | components/docs-sidebar.tsx:34 | `Object.entries` of the grouped catalogue is State with useLocalStorage; Performance with useDebounce and useDebounceCallback; Layout with useIntersectionObserver and useMediaQuery; Custom with useForm |
| `DocsSidebarFixture.FixtureSectionSizes` | components/docs-sidebar.tsx:34-44 | on any page the sidebar has the sections State, Performance, Layout and Custom, with 1, 2, 2 and 1 links |
| `DocsSidebarFixture.FixtureActiveLink` | components/docs-sidebar.tsx:34-44 | on the useDebounce page, the sidebar has four sections. The second is Performance, with two links: useDebounce highlighted and useDebounceCallback not |
| `LiveEditor.WordRun` | components/live-editor.tsx:18 | `\w*` takes the longest run of word characters |
| `LiveEditor.MatchLength` | components/live-editor.tsx:18 | a match is "use", a capital and at least one word character, and it extends over every word character that follows |
| `LiveEditor.NonWordIsCopied` | components/live-editor.tsx:18 | a character that cannot start a match is copied |
| `LiveEditor.WordPrefixIsCopied` | components/live-editor.tsx:18 | a run of word characters at the start of the output was copied from the input |
| `LiveEditor.OnlyAllowedSkip` | components/live-editor.tsx:18 | text without the letter u holds no match |
| `LiveEditor.ScanAfterKeptMatch` | components/live-editor.tsx:18 | a kept allowed name is found again, whole, by a second scan |
| `LiveEditor.ScanAfterCopiedChar` | components/live-editor.tsx:18 | where the scan copied a character, no match starts in the output either |
| `LiveEditor.SanitiseSafe` | components/live-editor.tsx:16-18 | after sanitising, every match of the pattern left in the code is one of the five allowed hook names |
| `LiveEditor.WordRunStopsAt` | components/live-editor.tsx:18 | the word run ends at the first non-word character |
| `LiveEditor.SanitiseFixpoint` | components/live-editor.tsx:17-18 | the code is unchanged exactly when every match in it is allowed |
| `LiveEditor.SanitiseIdempotent` | components/live-editor.tsx:17-18 | sanitising twice equals sanitising once |
| `LiveEditor.NoMatchUnchanged` | components/live-editor.tsx:18 | code in which the pattern matches nowhere is returned unchanged |
| `LiveEditor.SameMatchWithSuffix` | components/live-editor.tsx:18 | text after a non-word character does not change a match before it |
| `LiveEditor.SanitiseSplitsAtNonWord` | components/live-editor.tsx:18 | code split after a non-word character is sanitised piece by piece |
| `LiveEditorCases.AllowedHookIsKept` | components/live-editor.tsx:17-18 | "useState(0)" is left unchanged |
| `LiveEditorCases.GreedyMatchIsBlocked` | components/live-editor.tsx:18 | "useStateful" is one match and becomes `/* blocked */` |
| `LiveEditorCases.MatchInsideWordIsBlocked` | components/live-editor.tsx:18 | "reuseFoo" becomes "re/* blocked */", since there is no word boundary |
| `LiveEditorCases.ShortNameIsNotMatched` | components/live-editor.tsx:18 | "useA)" holds no match and is left unchanged |
| `HookPlayground.Layout` | components/hook-playground.tsx:13-22 | the file is the two import lines and the "// Hook Definition" comment, then the hook's code verbatim, then the usage comment, then the first example's code, then a line break |
| `HookPlayground.SameFileIffSameInputs` | components/hook-playground.tsx:13-22 | for code of equal length, two hooks give the same file exactly when their code and first example's code agree |
| `HookPlayground.OnlyCodeAndFirstExampleMatter` | components/hook-playground.tsx:13-22 | the file depends only on the hook's code and its first example's code |
| `HookPlayground.LaterExamplesIgnored` | components/hook-playground.tsx:20 | replacing or adding examples after the first leaves the file unchanged |
| `HookPlayground.EmptyUsageSlot` | components/hook-playground.tsx:19-21 | with no examples, or an empty first example, the file ends with "// Example Usage" and a blank line |

## Left out

- Rendering and React scheduling are left out. The search filter runs in a `useEffect` and the playground file is memoised with `useMemo`; the model computes both as pure functions of their inputs. The animations, class names and UI components are not modelled.
- `Text.Lower`: only ASCII capitals are lowered. JavaScript's `toLowerCase` follows the full Unicode case mapping, which can change a string's length; that mapping is not modelled.
- `Text.Trim`, `Text.Lower`, `Text.Contains` and `HookPlayground.Layout` count one character per Unicode code point, where JavaScript strings count UTF-16 units. A character outside the Basic Multilingual Plane is one character here and two in JavaScript, so lengths and positions differ for such text, and lone surrogates cannot be expressed at all. The whitespace set is that of ECMAScript.
- The code execution in the live editor (`new Function`, `eval`, `require`), the `onResult` callback and the toasts are left out. They run arbitrary code and have UI side effects; only the string rewrite is modelled.
- `HookPlayground.FirstExampleCode`: `examples` is typed as always present, so an absent array is modelled as an empty one. Optional chaining and `|| ""` both yield "" in that case, and an empty first example's code is "" either way.
- The sandbox component and its `/styles.css` file are left out. They are static data handed to a third-party component.
- The catalogue entries of `lib/hooks.ts` carry their id, name, category and description. Their code, usage notes, parameters and examples are left empty, since no modelled property about the catalogue depends on them.
- The markdown loader of `lib/mdx.ts` is not part of this model.
- `PropertyOrder`: symbol-keyed properties are left out. The accumulator never gets one.

## Findings

| source | as written | input that shows it | evidently intended | confidence | as-written member | corrected member |
|---|---|---|---|---|---|---|
| components/docs-sidebar.tsx:11-17 | the accumulator `{}` inherits `Object.prototype`, so `!acc[category]` is false for a category named like one of its members, and `acc[category].push` throws a TypeError | a catalogue with a hook whose category is "constructor" | group every hook under its category whatever the category's name, e.g. with `Object.create(null)` or a `Map` | low: the defect is latent. The sidebar groups the static catalogue of lib/hooks.ts (imported at components/docs-sidebar.tsx:6), whose categories are State, Performance, Layout and Custom, so no input reachable from these sources triggers it; not executed | `DocsSidebar.ConstructorCategoryThrows` | `DocsSidebar.SidebarWithoutPrototype` |
