/**
 * Category Store: the module-level `chatCategories` object, mapping a
 * conversation title to the category chosen for it, and its mirror in
 * extension storage under the key "chatCategories".
 */
module CategoryStore {
  import opened Wrappers

  type CategoryMap = map<string, string>

  /** The title used when the page has no heading, or an empty one. */
  const NewChatTitle: string := "New Chat"

  /**
   * The map the store starts from once storage has answered: the stored
   * record, or the empty map when storage holds none.
   */
  function Hydrate(stored: Option<CategoryMap>): (m: CategoryMap)
    ensures stored.Some? ==> m == stored.value
    ensures stored.None? ==> m == map[]
  {
    match stored
    case Some(record) => record
    case None => map[]
  }

  /**
   * The key a submitted message is filed under: the heading's text, or
   * "New Chat" when there is no heading or its text is empty (a falsy string).
   */
  function TitleKey(heading: Option<string>): (key: string)
    ensures key != ""
    ensures key == NewChatTitle || (heading.Some? && key == heading.value)
    ensures heading.Some? && heading.value != "" ==> key == heading.value
  {
    if heading.Some? && heading.value != "" then heading.value else NewChatTitle
  }

  class Store {
    /** The in-memory `chatCategories`. */
    var chatCategories: CategoryMap
    /** What extension storage holds under "chatCategories" (None: no record). */
    var persisted: Option<CategoryMap>

    /** Script start: the map is `{}` before storage has been read. */
    constructor (stored: Option<CategoryMap>)
      ensures chatCategories == map[] && persisted == stored
    {
      chatCategories := map[];
      persisted := stored;
    }

    /** The storage read of `initialize`: the map becomes the stored record or `{}`. */
    method Initialize()
      modifies this`chatCategories
      ensures chatCategories == Hydrate(persisted)
      ensures persisted.None? ==> chatCategories == map[]
    {
      chatCategories := Hydrate(persisted);
    }

    /**
     * `chatCategories[title] = category` followed by writing the whole map to
     * storage. Every other key keeps its category.
     */
    method Record(title: string, category: string)
      modifies this
      ensures chatCategories == old(chatCategories)[title := category]
      ensures title in chatCategories && chatCategories[title] == category
      ensures forall t :: t != title ==> (t in chatCategories <==> t in old(chatCategories))
      ensures forall t :: t != title && t in chatCategories ==> chatCategories[t] == old(chatCategories)[t]
      ensures persisted == Some(chatCategories)
    {
      chatCategories := chatCategories[title := category];
      persisted := Some(chatCategories);
    }
  }

  /**
   * A later page load sees what the last store wrote: hydrating from the
   * persisted copy of a map with `title` set to `category` yields `category`
   * for `title`, and every other title keeps its category.
   */
  lemma {:induction false} RecordThenHydrate(m: CategoryMap, title: string, category: string)
    ensures var h := Hydrate(Some(m[title := category]));
      title in h && h[title] == category &&
      forall t :: t != title ==> (t in h <==> t in m) && (t in m ==> h[t] == m[t])
  {
  }
}
