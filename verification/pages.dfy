/**
  The page list and the active-page context of the second sidebar
  (components/Sidebar2.tsx). The clock is not modelled: the locale-formatted date and
  time strings a handler would read from it are parameters.
 */
module Pages {
  import opened Optional
  import opened Decimal

  datatype Page = Page(id: nat, name: string, date: string, time: string)

  datatype Registry = Registry(
    pages: seq<Page>,
    nextPageId: nat,
    selectedPage: Option<string>,
    currentPageName: string,
    currentDate: string,
    currentTime: string)

  /** What the provider publishes to the title header and the content area. */
  datatype PageContext = PageContext(pageName: string, date: string, time: string)

  /** The state before the mount effect has run. */
  const Init: Registry := Registry([], 1, None, "Untitled", "", "")

  /** The provider value. */
  function Context(r: Registry): PageContext {
    PageContext(r.currentPageName, r.currentDate, r.currentTime)
  }

  /** Page ids increase strictly, stay below the counter, and each page keeps its generated name. */
  predicate Valid(r: Registry) {
    && 1 <= r.nextPageId
    && (forall i, j :: 0 <= i < j < |r.pages| ==> r.pages[i].id < r.pages[j].id)
    && (forall i :: 0 <= i < |r.pages| ==>
          && 1 <= r.pages[i].id < r.nextPageId
          && r.pages[i].name == Label("Page ", r.pages[i].id))
  }

  /** Pages are numbered 1, 2, ..., n with no gap, the counter at n + 1. */
  predicate Dense(r: Registry) {
    && r.nextPageId == |r.pages| + 1
    && forall i :: 0 <= i < |r.pages| ==> r.pages[i].id == i + 1
  }

  /** The mount effect: stamps the context with the moment the workspace opened. */
  function Mount(r: Registry, date: string, time: string): (r': Registry)
    ensures Context(r') == PageContext(r.currentPageName, date, time)
    ensures r'.(currentDate := r.currentDate, currentTime := r.currentTime) == r
    ensures Valid(r) ==> Valid(r')
    ensures Dense(r) ==> Dense(r')
  {
    r.(currentDate := date, currentTime := time)
  }

  /**
    Appends a page with the next id, the generated name and the given creation stamp.
    Neither the selection nor the published context changes.
   */
  function AddNewPage(r: Registry, date: string, time: string): (r': Registry)
    ensures |r'.pages| == |r.pages| + 1
    ensures r'.pages[..|r.pages|] == r.pages
    ensures r'.pages[|r.pages|] == Page(r.nextPageId, Label("Page ", r.nextPageId), date, time)
    ensures r'.nextPageId == r.nextPageId + 1
    ensures r'.selectedPage == r.selectedPage
    ensures Context(r') == Context(r)
    ensures Valid(r) ==> Valid(r')
    ensures Dense(r) ==> Dense(r')
  {
    var id := r.nextPageId;
    r.(pages := r.pages + [Page(id, Label("Page ", id), date, time)], nextPageId := id + 1)
  }

  /** Marks the page selected by name and publishes its name, date and time. */
  function SelectPage(r: Registry, p: Page): (r': Registry)
    ensures r'.selectedPage == Some(p.name)
    ensures Context(r') == PageContext(p.name, p.date, p.time)
    ensures r'.pages == r.pages && r'.nextPageId == r.nextPageId
    ensures Valid(r) ==> Valid(r')
    ensures Dense(r) ==> Dense(r')
  {
    r.(selectedPage := Some(p.name), currentPageName := p.name, currentDate := p.date, currentTime := p.time)
  }

  /** The title input's `setPageName`: overwrites the published name and nothing else. */
  function SetPageName(r: Registry, name: string): (r': Registry)
    ensures Context(r') == Context(r).(pageName := name)
    ensures r'.(currentPageName := r.currentPageName) == r
    ensures Valid(r) ==> Valid(r')
    ensures Dense(r) ==> Dense(r')
  {
    r.(currentPageName := name)
  }

  /** A page's list entry is highlighted when the selection marker equals its name. */
  predicate IsHighlighted(r: Registry, p: Page) {
    r.selectedPage == Some(p.name)
  }

  /**
    The list as rendered: one entry per page, in order, each flagged when it gets the
    highlighted style. With the generated names at most one entry is flagged.
   */
  function HighlightedEntries(r: Registry): (hs: seq<bool>)
    ensures |hs| == |r.pages|
    ensures forall k :: 0 <= k < |hs| ==> (hs[k] <==> IsHighlighted(r, r.pages[k]))
    ensures r.selectedPage == None ==> forall k :: 0 <= k < |hs| ==> !hs[k]
    ensures Valid(r) ==> forall i, j :: 0 <= i < |hs| && 0 <= j < |hs| && hs[i] && hs[j] ==> i == j
  {
    var hs := seq(|r.pages|, k requires 0 <= k < |r.pages| => r.selectedPage == Some(r.pages[k].name));
    assert Valid(r) ==> forall i, j :: 0 <= i < |hs| && 0 <= j < |hs| && hs[i] && hs[j] ==> i == j by {
      if Valid(r) {
        forall i, j | 0 <= i < |hs| && 0 <= j < |hs| && hs[i] && hs[j]
          ensures i == j
        {
          AtMostOneHighlighted(r, i, j);
        }
      }
    }
    hs
  }

  /** Clicking entry `k` highlights that entry and no other. */
  lemma SelectHighlightsExactly(r: Registry, k: nat)
    requires Valid(r) && k < |r.pages|
    ensures forall j :: 0 <= j < |r.pages| ==> (HighlightedEntries(SelectPage(r, r.pages[k]))[j] <==> j == k)
  {
    var r' := SelectPage(r, r.pages[k]);
    forall j | 0 <= j < |r.pages|
      ensures HighlightedEntries(r')[j] <==> j == k
    {
      if HighlightedEntries(r')[j] {
        AtMostOneHighlighted(r', j, k);
      }
    }
  }

  lemma SelectPageIdempotent(r: Registry, p: Page)
    ensures SelectPage(SelectPage(r, p), p) == SelectPage(r, p)
  {
  }

  /** Generated names come from distinct ids and are never edited, so at most one entry is highlighted. */
  lemma AtMostOneHighlighted(r: Registry, i: nat, j: nat)
    requires Valid(r)
    requires i < |r.pages| && j < |r.pages|
    requires IsHighlighted(r, r.pages[i]) && IsHighlighted(r, r.pages[j])
    ensures i == j
  {
    LabelInjective("Page ", r.pages[i].id, r.pages[j].id);
  }

  datatype Action =
    | AddPageClicked(date: string, time: string)
    | PageClicked(index: nat)
    | TitleEdited(name: string)

  /** A click on a list entry selects the page shown there; an out-of-range index is no click. */
  function Step(r: Registry, a: Action): Registry {
    match a
    case AddPageClicked(date, time) => AddNewPage(r, date, time)
    case PageClicked(k) => if k < |r.pages| then SelectPage(r, r.pages[k]) else r
    case TitleEdited(name) => SetPageName(r, name)
  }

  function Run(r: Registry, actions: seq<Action>): Registry
    decreases |actions|
  {
    if |actions| == 0 then r else Run(Step(r, actions[0]), actions[1..])
  }

  /** From mount onwards the page list stays gap-free and correctly named. */
  lemma {:induction false} RunKeepsInvariants(r: Registry, actions: seq<Action>)
    requires Valid(r) && Dense(r)
    ensures Valid(Run(r, actions)) && Dense(Run(r, actions))
    decreases |actions|
  {
    if |actions| > 0 {
      RunKeepsInvariants(Step(r, actions[0]), actions[1..]);
    }
  }

  /** The page list only ever grows at its end: every earlier page survives unchanged. */
  lemma {:induction false} RunOnlyAppends(r: Registry, actions: seq<Action>)
    ensures |r.pages| <= |Run(r, actions).pages|
    ensures Run(r, actions).pages[..|r.pages|] == r.pages
    decreases |actions|
  {
    if |actions| > 0 {
      var r1 := Step(r, actions[0]);
      RunOnlyAppends(r1, actions[1..]);
      assert r1.pages[..|r.pages|] == r.pages;
    }
  }

  /** The published name is the starting one or the name of a listed page. */
  predicate NameFromList(r: Registry, start: string) {
    Context(r).pageName == start || exists k :: 0 <= k < |r.pages| && r.pages[k].name == Context(r).pageName
  }

  /**
    Unless the title is typed into, the header shows the name it started with or the
    name of a page in the list: adding pages and clicking entries publish nothing else.
   */
  lemma {:induction false} RunWithoutEditsShowsListedName(r: Registry, actions: seq<Action>, start: string)
    requires NameFromList(r, start)
    requires forall i :: 0 <= i < |actions| ==> !actions[i].TitleEdited?
    ensures NameFromList(Run(r, actions), start)
    decreases |actions|
  {
    if |actions| > 0 {
      var r1 := Step(r, actions[0]);
      if Context(r).pageName != start {
        var k :| 0 <= k < |r.pages| && r.pages[k].name == Context(r).pageName;
        if actions[0].AddPageClicked? {
          assert r1.pages[k] == r.pages[k];
        }
      }
      assert NameFromList(r1, start);
      RunWithoutEditsShowsListedName(r1, actions[1..], start);
    }
  }

  lemma InitIsValid()
    ensures Valid(Init) && Dense(Init)
    ensures Init.selectedPage == None && Context(Init).pageName == "Untitled" && Init.pages == []
  {
  }

  /** Selecting a page publishes exactly its three fields. */
  lemma SelectPublishesExactly()
    ensures var p := Page(3, "Page 3", "Monday, January 1, 2024", "3:00 PM");
      Context(SelectPage(Init, p)) == PageContext("Page 3", "Monday, January 1, 2024", "3:00 PM")
  {
  }
}
