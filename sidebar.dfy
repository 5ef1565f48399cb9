/**
 * The conversation sidebar: the filter-tab bar injected into the nav element,
 * the filter that shows or hides conversation-list entries, the badges that
 * show each entry's category, and the guard that builds the category picker
 * once. The DOM is abstracted to an array of entry records (the `nav a.flex`
 * elements), an array of tab records (the `.category-tab` buttons) and the
 * sequence of the nav element's children.
 */
module Sidebar {
  import opened Wrappers
  import opened Watcher
  import opened CategoryStore

  /** An entry's `style.display`: as the host page rendered it, 'flex' or 'none'. */
  datatype Display = HostDefault | Flex | Hidden

  /**
   * A conversation-list entry. `text` is its whole `textContent`, so once a
   * badge is appended its text is part of `text`; `badge` is the text of its
   * `.chat-item-category` child, if it has one.
   */
  datatype Entry = Entry(text: string, display: Display, badge: Option<string>)

  /** A `.category-tab` button: its label and whether it has the `active` class. */
  datatype Tab = Tab(name: string, active: bool)

  /** A child of the nav element: the injected `.category-tabs` bar or a node of the host page. */
  datatype NavNode = TabBar | HostNode(id: nat)

  /** What `waitForElement('#prompt-textarea')` finds: whether it has a parent and an enclosing form. */
  datatype Textarea = Textarea(hasParent: bool, inForm: bool)

  /** The filter value that matches every entry. */
  const AllCategory: string := "All"

  /** The tab labels, in the order the bar shows them. */
  const TabLabels: seq<string> := ["All", "Design", "Dev", "Oth.."]

  /** The rule of `filterChats`: "All", or the category stored under the entry's text. */
  predicate Shows(text: string, cats: CategoryMap, category: string)
  {
    category == AllCategory || (text in cats && cats[text] == category)
  }

  /** The entries after `filterChats(category)`: the same entries, each shown or hidden by `Shows`. */
  function Filtered(entries: seq<Entry>, cats: CategoryMap, category: string): (r: seq<Entry>)
    ensures |r| == |entries|
    ensures forall i :: 0 <= i < |r| ==> r[i].text == entries[i].text && r[i].badge == entries[i].badge
    ensures forall i :: 0 <= i < |r| ==> (r[i].display == Flex <==> Shows(entries[i].text, cats, category))
    ensures forall i :: 0 <= i < |r| ==> (r[i].display == Hidden <==> !Shows(entries[i].text, cats, category))
  {
    seq(|entries|, i requires 0 <= i < |entries| =>
      entries[i].(display := if Shows(entries[i].text, cats, category) then Flex else Hidden))
  }

  /**
   * One entry after `addCategoryLabels`: an entry without a badge whose text
   * has a non-empty stored category gets a badge with that category, and the
   * badge's text is appended to its text content.
   */
  function LabelEntry(e: Entry, cats: CategoryMap): Entry
  {
    if e.badge.None? && e.text in cats && cats[e.text] != "" then
      Entry(e.text + cats[e.text], e.display, Some(cats[e.text]))
    else
      e
  }

  /** The entries after `addCategoryLabels`. */
  function Labelled(entries: seq<Entry>, cats: CategoryMap): (r: seq<Entry>)
    ensures |r| == |entries|
    ensures forall i :: 0 <= i < |r| && (entries[i].badge.Some? || entries[i].text !in cats || cats[entries[i].text] == "") ==>
      r[i] == entries[i]
    ensures forall i :: 0 <= i < |r| && entries[i].badge.None? && entries[i].text in cats && cats[entries[i].text] != "" ==>
      r[i].badge == Some(cats[entries[i].text]) && r[i].text == entries[i].text + cats[entries[i].text] &&
      r[i].display == entries[i].display
  {
    seq(|entries|, i requires 0 <= i < |entries| => LabelEntry(entries[i], cats))
  }

  function Labels(tabs: seq<Tab>): (r: seq<string>)
    ensures |r| == |tabs| && forall i :: 0 <= i < |r| ==> r[i] == tabs[i].name
  {
    seq(|tabs|, i requires 0 <= i < |tabs| => tabs[i].name)
  }

  /** The tab bar as built: the four labels in order, only "All" active. */
  function DefaultTabs(): (r: seq<Tab>)
    ensures Labels(r) == TabLabels
    ensures forall i :: 0 <= i < |r| ==> (r[i].active <==> i == 0)
  {
    seq(|TabLabels|, i requires 0 <= i < |TabLabels| => Tab(TabLabels[i], TabLabels[i] == AllCategory))
  }

  /** The tabs after `filterChats(category)`: a tab is active exactly when its label is `category`. */
  function Toggled(tabs: seq<Tab>, category: string): (r: seq<Tab>)
    ensures |r| == |tabs| && Labels(r) == Labels(tabs)
    ensures forall i :: 0 <= i < |r| ==> r[i].name == tabs[i].name && (r[i].active <==> tabs[i].name == category)
  {
    seq(|tabs|, i requires 0 <= i < |tabs| => tabs[i].(active := tabs[i].name == category))
  }

  /** Running the annotator again changes nothing. */
  lemma {:induction false} LabelledIdempotent(entries: seq<Entry>, cats: CategoryMap)
    ensures Labelled(Labelled(entries, cats), cats) == Labelled(entries, cats)
  {
    var once := Labelled(entries, cats);
    var twice := Labelled(once, cats);
    forall i | 0 <= i < |entries|
      ensures twice[i] == once[i]
    {
      if entries[i].badge.None? && entries[i].text in cats && cats[entries[i].text] != "" {
        assert once[i].badge.Some?;
      } else {
        assert once[i] == entries[i];
      }
    }
  }

  /** Filtering by "All" shows every entry, whatever is stored. */
  lemma FilterAllShowsEvery(entries: seq<Entry>, cats: CategoryMap)
    ensures forall i :: 0 <= i < |entries| ==> Filtered(entries, cats, AllCategory)[i].display == Flex
  {
  }

  /**
   * Once the entry's text is filed under `c`, filtering by `c` shows it and
   * filtering by any other real category hides it.
   */
  lemma FilterAfterRecord(entries: seq<Entry>, cats: CategoryMap, i: nat, c: string, other: string)
    requires i < |entries|
    requires other != c && other != AllCategory
    ensures Filtered(entries, cats[entries[i].text := c], c)[i].display == Flex
    ensures Filtered(entries, cats[entries[i].text := c], other)[i].display == Hidden
  {
  }

  /**
   * The lookup key is the whole text content, badge included: an entry that
   * the annotator has just labelled with its category `c` no longer matches
   * its title, so unless its new text is itself a key filed under `c`,
   * filtering by `c` hides it, where it was shown before labelling.
   */
  lemma LabelledEntryHiddenByItsCategory(entries: seq<Entry>, cats: CategoryMap, i: nat)
    requires i < |entries| && entries[i].badge.None?
    requires entries[i].text in cats && cats[entries[i].text] != "" && cats[entries[i].text] != AllCategory
    requires var c := cats[entries[i].text]; entries[i].text + c !in cats || cats[entries[i].text + c] != c
    ensures var c := cats[entries[i].text];
      Filtered(entries, cats, c)[i].display == Flex &&
      Filtered(Labelled(entries, cats), cats, c)[i].display == Hidden
  {
  }

  /** No two tabs of the bar share a label. */
  lemma TabLabelsDistinct()
    ensures forall i, j :: 0 <= i < j < |TabLabels| ==> TabLabels[i] != TabLabels[j]
  {
  }

  /**
   * On the tab bar, after filtering by `category` at most one tab is active;
   * one is exactly when `category` is one of the four labels.
   */
  lemma {:induction false} ToggledActiveTab(tabs: seq<Tab>, category: string)
    requires Labels(tabs) == TabLabels
    ensures forall i, j :: 0 <= i < |tabs| && 0 <= j < |tabs| && Toggled(tabs, category)[i].active && Toggled(tabs, category)[j].active ==> i == j
    ensures (exists i :: 0 <= i < |tabs| && Toggled(tabs, category)[i].active) <==> category in TabLabels
  {
    TabLabelsDistinct();
    var r := Toggled(tabs, category);
    forall i, j | 0 <= i < |tabs| && 0 <= j < |tabs| && r[i].active && r[j].active
      ensures i == j
    {
      assert Labels(tabs)[i] == Labels(tabs)[j];
    }
    if category in TabLabels {
      var k :| 0 <= k < |TabLabels| && TabLabels[k] == category;
      assert Labels(tabs)[k] == category;
      assert r[k].active;
    }
  }

  /**
   * A worked example: two entries, only "Bug fix" filed under "Dev".
   * Filtering by "Dev" leaves only "Bug fix" visible, and the annotator
   * badges only "Bug fix", with "Dev".
   */
  lemma ScenarioTripAndBugFix()
    ensures var entries := [Entry("Trip planning", HostDefault, None), Entry("Bug fix", HostDefault, None)];
      var cats := map["Bug fix" := "Dev"];
      Filtered(entries, cats, "Dev") == [Entry("Trip planning", Hidden, None), Entry("Bug fix", Flex, None)] &&
      Labelled(entries, cats) == [entries[0], Entry("Bug fixDev", HostDefault, Some("Dev"))]
  {
    var entries := [Entry("Trip planning", HostDefault, None), Entry("Bug fix", HostDefault, None)];
    var cats := map["Bug fix" := "Dev"];
    assert "Trip planning" !in cats;
    var shown := Filtered(entries, cats, "Dev");
    assert shown[0] == Entry("Trip planning", Hidden, None);
    assert shown[1] == Entry("Bug fix", Flex, None);
    var badged := Labelled(entries, cats);
    assert badged[0] == entries[0];
    assert badged[1] == Entry("Bug fixDev", HostDefault, Some("Dev"));
  }

  /** The page: its conversation entries, its category tabs, its nav element and the picker marker. */
  class Document {
    /** The `nav a.flex` entries, updated in place. */
    const chats: array<Entry>
    /** The `.category-tab` buttons of the document. */
    var tabs: array<Tab>
    /** The nav element's children, first child first. */
    var navChildren: seq<NavNode>
    /** Whether a `.category-dropdown` is in the document. */
    var hasDropdown: bool

    predicate HasTabBar()
      reads this
    {
      TabBar in navChildren
    }

    /** At most one tab bar; its buttons are the tabs, with the four labels; without a bar there are no tabs. */
    ghost predicate Valid()
      reads this, tabs
    {
      && multiset(navChildren)[TabBar] <= 1
      && (HasTabBar() ==> Labels(tabs[..]) == TabLabels)
      && (!HasTabBar() ==> tabs.Length == 0)
    }

    /** The host page before the script has injected anything. */
    constructor (entries: seq<Entry>, nav: seq<NavNode>)
      requires TabBar !in nav
      ensures Valid() && fresh(chats) && fresh(tabs)
      ensures chats[..] == entries && navChildren == nav && !hasDropdown
    {
      chats := new Entry[|entries|](i requires 0 <= i < |entries| => entries[i]);
      tabs := new Tab[0];
      navChildren := nav;
      hasDropdown := false;
    }

    /**
     * `filterChats(category)`: every entry is shown or hidden by `Shows`
     * (none added, removed or otherwise changed), and every tab is active
     * exactly when its label is `category`.
     */
    method FilterChats(category: string, cats: CategoryMap)
      requires Valid()
      modifies chats, tabs
      ensures Valid()
      ensures chats[..] == Filtered(old(chats[..]), cats, category)
      ensures tabs[..] == Toggled(old(tabs[..]), category)
    {
      ghost var entries := chats[..];
      for i := 0 to chats.Length
        invariant forall k :: 0 <= k < i ==> chats[k] == Filtered(entries, cats, category)[k]
        invariant forall k :: i <= k < chats.Length ==> chats[k] == entries[k]
        invariant tabs[..] == old(tabs[..])
      {
        var chat := chats[i];
        if Shows(chat.text, cats, category) {
          chats[i] := chat.(display := Flex);
        } else {
          chats[i] := chat.(display := Hidden);
        }
      }
      ghost var bar := tabs[..];
      for j := 0 to tabs.Length
        invariant forall k :: 0 <= k < j ==> tabs[k] == Toggled(bar, category)[k]
        invariant forall k :: j <= k < tabs.Length ==> tabs[k] == bar[k]
        invariant chats[..] == Filtered(entries, cats, category)
      {
        tabs[j] := tabs[j].(active := tabs[j].name == category);
      }
      assert tabs[..] == Toggled(bar, category);
    }

    /**
     * A tab's click handler: filtering by its own label leaves exactly that
     * tab active.
     */
    method ClickTab(i: nat, cats: CategoryMap)
      requires Valid() && i < tabs.Length
      modifies chats, tabs
      ensures Valid()
      ensures chats[..] == Filtered(old(chats[..]), cats, old(tabs[i].name))
      ensures forall j :: 0 <= j < tabs.Length ==> (tabs[j].active <==> j == i)
    {
      ghost var before := tabs[..];
      assert Labels(before)[i] == before[i].name;
      FilterChats(tabs[i].name, cats);
      ToggledActiveTab(before, before[i].name);
      assert tabs[..][i].active;
    }

    /**
     * `addCategoryLabels`: each entry without a badge whose text has a
     * non-empty stored category gets exactly one badge with that category;
     * every other entry is left as it was.
     */
    method AddCategoryLabels(cats: CategoryMap)
      modifies chats
      ensures chats[..] == Labelled(old(chats[..]), cats)
    {
      ghost var entries := chats[..];
      for i := 0 to chats.Length
        invariant forall k :: 0 <= k < i ==> chats[k] == Labelled(entries, cats)[k]
        invariant forall k :: i <= k < chats.Length ==> chats[k] == entries[k]
      {
        var chat := chats[i];
        if chat.badge.Some? {
          continue;
        }
        var title := chat.text;
        if title in cats && cats[title] != "" {
          var category := cats[title];
          chats[i] := Entry(chat.text + category, chat.display, Some(category));
        }
      }
    }

    /**
     * The callback of `createCategoryTabs`: when the nav holds no tab bar,
     * build one with the four tabs, only "All" active, and make it the nav's
     * first child; otherwise change nothing.
     */
    method InsertCategoryTabs()
      requires Valid()
      modifies this
      ensures Valid() && hasDropdown == old(hasDropdown) && HasTabBar()
      ensures old(HasTabBar()) ==> navChildren == old(navChildren) && tabs == old(tabs)
      ensures !old(HasTabBar()) ==> navChildren == [TabBar] + old(navChildren) && fresh(tabs) && tabs[..] == DefaultTabs()
    {
      if HasTabBar() {
        return;
      }
      var bar := new Tab[|TabLabels|];
      for i := 0 to |TabLabels|
        modifies bar
        invariant forall k :: 0 <= k < i ==> bar[k] == DefaultTabs()[k]
      {
        var category := TabLabels[i];
        bar[i] := Tab(category, category == AllCategory);
      }
      assert bar[..] == DefaultTabs();
      tabs := bar;
      navChildren := [TabBar] + navChildren;
      assert multiset(navChildren)[TabBar] == 1;
    }

    /**
     * `createCategoryTabs`: wait for the nav element with the default budget,
     * then run the callback. `navPoll(k)` says whether the k-th poll finds it.
     */
    method CreateCategoryTabs(navPoll: nat -> bool) returns (found: bool)
      requires Valid()
      modifies this
      ensures Valid() && hasDropdown == old(hasDropdown)
      ensures found <==> exists k :: 0 <= k < DefaultMaxAttempts && navPoll(k)
      ensures !found || old(HasTabBar()) ==> navChildren == old(navChildren) && tabs == old(tabs)
      ensures found && !old(HasTabBar()) ==> navChildren == [TabBar] + old(navChildren) && fresh(tabs) && tabs[..] == DefaultTabs()
    {
      var poll := (k: nat) => if navPoll(k) then Some(()) else None;
      var calls, attempts := WaitForElement(poll, DefaultMaxAttempts);
      found := calls != [];
      if found {
        assert navPoll(attempts - 1);
        InsertCategoryTabs();
      } else {
        assert forall k :: 0 <= k < DefaultMaxAttempts ==> poll(k).None?;
      }
    }

    /**
     * The guard of `addCategoryDropdown`: wait for the compose textarea; build
     * the picker only when none exists yet and the textarea has a parent; the
     * send-button and submit handlers are bound (`bound`) only when the
     * textarea is inside a form.
     */
    method AddCategoryDropdown(textareaPoll: nat -> Option<Textarea>) returns (bound: bool)
      modifies this`hasDropdown
      ensures var t := FirstFound(textareaPoll, 0, Budget(DefaultMaxAttempts));
        hasDropdown == (old(hasDropdown) || (t.Some? && t.value.hasParent))
      ensures var t := FirstFound(textareaPoll, 0, Budget(DefaultMaxAttempts));
        bound == (!old(hasDropdown) && t.Some? && t.value.hasParent && t.value.inForm)
    {
      var calls, _ := WaitForElement(textareaPoll, DefaultMaxAttempts);
      bound := false;
      if calls == [] {
        return;
      }
      var textarea := calls[0];
      if hasDropdown {
        return;
      }
      if !textarea.hasParent {
        return;
      }
      hasDropdown := true;
      bound := textarea.inForm;
    }

    /**
     * `setupExtension`: the tab bar, the picker and the badges, in that order,
     * with the categories known at this point.
     */
    method SetupExtension(navPoll: nat -> bool, textareaPoll: nat -> Option<Textarea>, cats: CategoryMap)
      returns (formBound: bool)
      requires Valid()
      modifies this, chats
      ensures Valid() && multiset(navChildren)[TabBar] <= 1
      ensures chats[..] == Labelled(old(chats[..]), cats)
      ensures old(HasTabBar()) || !(exists k :: 0 <= k < DefaultMaxAttempts && navPoll(k)) ==>
        navChildren == old(navChildren) && tabs == old(tabs)
      ensures !old(HasTabBar()) && (exists k :: 0 <= k < DefaultMaxAttempts && navPoll(k)) ==>
        navChildren == [TabBar] + old(navChildren) && fresh(tabs) && tabs[..] == DefaultTabs()
      ensures var t := FirstFound(textareaPoll, 0, Budget(DefaultMaxAttempts));
        hasDropdown == (old(hasDropdown) || (t.Some? && t.value.hasParent))
      ensures var t := FirstFound(textareaPoll, 0, Budget(DefaultMaxAttempts));
        formBound == (!old(hasDropdown) && t.Some? && t.value.hasParent && t.value.inForm)
    {
      var _ := CreateCategoryTabs(navPoll);
      formBound := AddCategoryDropdown(textareaPoll);
      AddCategoryLabels(cats);
    }
  }
}
