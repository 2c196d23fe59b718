/**
 * The hook records the site catalogues, and the catalogue itself reduced to
 * the fields the sidebar uses.
 */
module Catalogue {
  import opened Wrappers
  import opened Text

  datatype Parameter = Parameter(
    name: string,
    paramType: string,
    description: string,
    required: bool,
    defaultValue: Option<string>)

  datatype ReturnValue = ReturnValue(valueType: string, description: string)

  datatype Example = Example(title: string, description: string, code: string)

  /**
   * One catalogued hook. `category` is an arbitrary string: the catalogue
   * uses "Custom", which the declared category union does not list.
   */
  datatype Hook = Hook(
    id: string,
    name: string,
    category: string,
    description: string,
    code: string,
    usage: seq<string>,
    parameters: seq<Parameter>,
    returnValue: ReturnValue,
    bestPractices: seq<string>,
    pitfalls: seq<string>,
    examples: seq<Example>,
    performance: seq<string>,
    codeSandbox: Option<seq<Example>>,
    content: Option<string>)

  /** `hooks.map((hook) => hook.category)`. */
  function CategoriesOf(hooks: seq<Hook>): (r: seq<string>)
    ensures |r| == |hooks|
    ensures forall i | 0 <= i < |hooks| :: r[i] == hooks[i].category
  {
    seq(|hooks|, i requires 0 <= i < |hooks| => hooks[i].category)
  }

  lemma CategoriesOfSnoc(hooks: seq<Hook>, h: Hook)
    ensures CategoriesOf(hooks + [h]) == CategoriesOf(hooks) + [h.category]
  {
  }

  /**
   * The text condition both search boxes use: the lowercased query occurs in
   * the lowercased name or in the lowercased description.
   */
  predicate MentionsQuery(h: Hook, query: string) {
    Contains(Lower(h.name), Lower(query)) || Contains(Lower(h.description), Lower(query))
  }

  /** A catalogue entry that carries its identity, category and description, and no code. */
  function Entry(id: string, name: string, category: string, description: string): Hook {
    Hook(id, name, category, description, "", [], [], ReturnValue("", ""), [], [], [], [], None, None)
  }

  /** The descriptions of the six catalogue entries, in catalogue order. */
  const LocalStorageDescription := "A hook for persisting state in localStorage with type safety"
  const DebounceDescription := "A hook for debouncing values to optimize performance"
  const DebounceCallbackDescription := "A hook that debounces a callback function to limit its execution frequency"
  const IntersectionObserverDescription := "A hook for tracking element visibility in the viewport"
  const MediaQueryDescription := "A hook for responsive design using media queries"
  const FormDescription := "A hook for " + "form state " + "management " + "and validation"

  /** The six catalogue entries, in catalogue order, with their ids, names, categories and descriptions. */
  function Fixture(): seq<Hook> {
    [ Entry("use-local-storage", "useLocalStorage", "State", LocalStorageDescription),
      Entry("use-debounce", "useDebounce", "Performance", DebounceDescription),
      Entry("use-debounce-callback", "useDebounceCallback", "Performance", DebounceCallbackDescription),
      Entry("use-intersection-observer", "useIntersectionObserver", "Layout", IntersectionObserverDescription),
      Entry("use-media-query", "useMediaQuery", "Layout", MediaQueryDescription),
      Entry("use-form", "useForm", "Custom", FormDescription) ]
  }
}
