/**
  The notebook/section tree of the workspace sidebar (components/Sidebaar.tsx).

  Every React state handler of the sidebar is modelled as a pure function from the
  old `Tree` to the new one. The two id counters, the expansion list and the three
  single-open slots (`number | null`) are fields of the same record.
 */
module Workspace {
  import opened Optional
  import opened Decimal

  /** The seven colours a new notebook may be given and the colour picker offers. */
  const Palette: seq<string> := ["purple", "yellow", "orange", "blue", "green", "red", "pink"]

  datatype Section = Section(id: nat, name: string)

  datatype Notebook = Notebook(
    id: nat,
    name: string,
    color: string,
    expanded: bool,
    sections: seq<Section>)

  datatype Tree = Tree(
    notebooks: seq<Notebook>,
    expandedIds: seq<int>,
    nextNotebookId: nat,
    nextSectionId: nat,
    editingNotebook: Option<int>,
    editingSection: Option<int>,
    colorPicker: Option<int>)

  /** The state the sidebar mounts with. */
  const Init: Tree := Tree([], [], 1, 1, None, None, None)

  // ---------------------------------------------------------------------------
  // Invariants
  // ---------------------------------------------------------------------------

  /** Notebook ids are strictly increasing in list order, positive and below the counter. */
  predicate NotebookIdsOk(nbs: seq<Notebook>, next: nat) {
    && 1 <= next
    && (forall i, j :: 0 <= i < j < |nbs| ==> nbs[i].id < nbs[j].id)
    && (forall i :: 0 <= i < |nbs| ==> 1 <= nbs[i].id < next)
  }

  /** Section ids are positive, below the counter and distinct across the whole tree. */
  predicate SectionIdsOk(nbs: seq<Notebook>, next: nat) {
    && 1 <= next
    && (forall i, a :: 0 <= i < |nbs| && 0 <= a < |nbs[i].sections| ==>
          1 <= nbs[i].sections[a].id < next)
    && (forall i, a, j, b ::
          && 0 <= i < |nbs| && 0 <= a < |nbs[i].sections|
          && 0 <= j < |nbs| && 0 <= b < |nbs[j].sections|
          && nbs[i].sections[a].id == nbs[j].sections[b].id
          ==> i == j && a == b)
  }

  predicate NoDuplicates(s: seq<int>) {
    forall i, j :: 0 <= i < j < |s| ==> s[i] != s[j]
  }

  /**
    The expansion list holds each id at most once, and only ids already handed out: a
    chevron is rendered only for an existing notebook.
   */
  predicate ExpandedIdsOk(s: seq<int>, next: nat) {
    && NoDuplicates(s)
    && forall x :: x in s ==> 1 <= x < next
  }

  predicate Valid(t: Tree) {
    && NotebookIdsOk(t.notebooks, t.nextNotebookId)
    && SectionIdsOk(t.notebooks, t.nextSectionId)
    && ExpandedIdsOk(t.expandedIds, t.nextNotebookId)
  }

  /** Every notebook's colour is one of the palette entries. */
  predicate ColoursOk(t: Tree) {
    forall i :: 0 <= i < |t.notebooks| ==> t.notebooks[i].color in Palette
  }

  /** There is no delete: notebook ids are exactly 1, 2, ..., n, with the counter at n + 1. */
  predicate Dense(t: Tree) {
    && t.nextNotebookId == |t.notebooks| + 1
    && forall i :: 0 <= i < |t.notebooks| ==> t.notebooks[i].id == i + 1
  }

  lemma InitIsValid()
    ensures Valid(Init) && Dense(Init)
  {
  }

  // ---------------------------------------------------------------------------
  // Notebook and section operations
  // ---------------------------------------------------------------------------

  /**
    Appends a notebook with the next id, the default name, the palette colour at
    `colorIndex` (the random draw) and no sections; the counter advances.
   */
  function AddNotebook(t: Tree, colorIndex: nat): (r: Tree)
    requires colorIndex < |Palette|
    ensures |r.notebooks| == |t.notebooks| + 1
    ensures r.notebooks[..|t.notebooks|] == t.notebooks
    ensures var nb := r.notebooks[|t.notebooks|];
      && nb.id == t.nextNotebookId
      && nb.name == Label("Notebook ", t.nextNotebookId)
      && nb.color == Palette[colorIndex] && nb.color in Palette
      && !nb.expanded
      && nb.sections == []
    ensures Valid(t) ==> r.notebooks[|t.notebooks|].id !in r.expandedIds
    ensures r.nextNotebookId == t.nextNotebookId + 1
    ensures r.(notebooks := t.notebooks, nextNotebookId := t.nextNotebookId) == t
    ensures Valid(t) ==> Valid(r)
    ensures Dense(t) ==> Dense(r)
  {
    var id := t.nextNotebookId;
    var nb := Notebook(id, Label("Notebook ", id), Palette[colorIndex], false, []);
    t.(notebooks := t.notebooks + [nb], nextNotebookId := id + 1)
  }

  /** The section `addSection` creates from the current counter. */
  function NewSection(id: nat): Section {
    Section(id, Label("Section ", id))
  }

  /**
    Appends a section to every notebook whose id is `notebookId` (at most one when the
    tree is valid). The section counter advances even when no notebook matches.
   */
  function AddSection(t: Tree, notebookId: int): (r: Tree)
    ensures |r.notebooks| == |t.notebooks|
    ensures forall i :: 0 <= i < |t.notebooks| ==>
      r.notebooks[i].(sections := t.notebooks[i].sections) == t.notebooks[i]
    ensures forall i :: 0 <= i < |t.notebooks| && t.notebooks[i].id != notebookId ==>
      r.notebooks[i] == t.notebooks[i]
    ensures forall i :: 0 <= i < |t.notebooks| && t.notebooks[i].id == notebookId ==>
      r.notebooks[i].sections == t.notebooks[i].sections + [NewSection(t.nextSectionId)]
    ensures (forall i :: 0 <= i < |t.notebooks| ==> t.notebooks[i].id != notebookId) ==>
      r.notebooks == t.notebooks
    ensures r.nextSectionId == t.nextSectionId + 1
    ensures r.(notebooks := t.notebooks, nextSectionId := t.nextSectionId) == t
    ensures Valid(t) ==> Valid(r)
    ensures Dense(t) ==> Dense(r)
  {
    var s := NewSection(t.nextSectionId);
    var nbs := seq(|t.notebooks|, i requires 0 <= i < |t.notebooks| =>
      var nb := t.notebooks[i];
      if nb.id == notebookId then nb.(sections := nb.sections + [s]) else nb);
    var r := t.(notebooks := nbs, nextSectionId := t.nextSectionId + 1);
    AddSectionKeepsSectionIds(t, notebookId, r);
    r
  }

  /** Appending the counter's section to the matching notebook keeps section ids distinct. */
  lemma AddSectionKeepsSectionIds(t: Tree, notebookId: int, r: Tree)
    requires |r.notebooks| == |t.notebooks|
    requires r.nextSectionId == t.nextSectionId + 1
    requires forall i :: 0 <= i < |t.notebooks| ==>
      r.notebooks[i] == (if t.notebooks[i].id == notebookId
                         then t.notebooks[i].(sections := t.notebooks[i].sections + [NewSection(t.nextSectionId)])
                         else t.notebooks[i])
    ensures Valid(t) ==> SectionIdsOk(r.notebooks, r.nextSectionId)
  {
    if Valid(t) {
      var o, n := t.notebooks, r.notebooks;
      forall i, a | 0 <= i < |n| && 0 <= a < |n[i].sections|
        ensures 1 <= n[i].sections[a].id < r.nextSectionId
      {
        if a < |o[i].sections| {
          assert n[i].sections[a] == o[i].sections[a];
        }
      }
      forall i, a, j, b |
          && 0 <= i < |n| && 0 <= a < |n[i].sections|
          && 0 <= j < |n| && 0 <= b < |n[j].sections|
          && n[i].sections[a].id == n[j].sections[b].id
        ensures i == j && a == b
      {
        var oldA := a < |o[i].sections|;
        var oldB := b < |o[j].sections|;
        if oldA {
          assert n[i].sections[a] == o[i].sections[a];
        }
        if oldB {
          assert n[j].sections[b] == o[j].sections[b];
        }
        if !oldA && !oldB {
          // Both are the new section: the notebooks matched, and notebook ids are distinct.
          assert o[i].id == notebookId == o[j].id;
        }
      }
    }
  }

  /** Replaces the name of the notebook `id` verbatim and leaves inline-edit mode. */
  function RenameNotebook(t: Tree, id: int, newName: string): (r: Tree)
    ensures |r.notebooks| == |t.notebooks|
    ensures forall i :: 0 <= i < |t.notebooks| ==>
      && r.notebooks[i].(name := t.notebooks[i].name) == t.notebooks[i]
      && r.notebooks[i].name == (if t.notebooks[i].id == id then newName else t.notebooks[i].name)
    ensures r.editingNotebook == None
    ensures r.(notebooks := t.notebooks, editingNotebook := t.editingNotebook) == t
    ensures Valid(t) ==> Valid(r)
    ensures Dense(t) ==> Dense(r)
  {
    var nbs := seq(|t.notebooks|, i requires 0 <= i < |t.notebooks| =>
      var nb := t.notebooks[i];
      if nb.id == id then nb.(name := newName) else nb);
    t.(notebooks := nbs, editingNotebook := None)
  }

  /** Replaces the colour of the notebook `id` (any string) and closes the colour picker. */
  function ChangeNotebookColor(t: Tree, id: int, newColor: string): (r: Tree)
    ensures |r.notebooks| == |t.notebooks|
    ensures forall i :: 0 <= i < |t.notebooks| ==>
      && r.notebooks[i].(color := t.notebooks[i].color) == t.notebooks[i]
      && r.notebooks[i].color == (if t.notebooks[i].id == id then newColor else t.notebooks[i].color)
    ensures r.colorPicker == None
    ensures r.(notebooks := t.notebooks, colorPicker := t.colorPicker) == t
    ensures Valid(t) ==> Valid(r)
    ensures Dense(t) ==> Dense(r)
    ensures ColoursOk(t) && newColor in Palette ==> ColoursOk(r)
  {
    var nbs := seq(|t.notebooks|, i requires 0 <= i < |t.notebooks| =>
      var nb := t.notebooks[i];
      if nb.id == id then nb.(color := newColor) else nb);
    t.(notebooks := nbs, colorPicker := None)
  }

  function RenameInSections(secs: seq<Section>, sectionId: int, newName: string): (r: seq<Section>)
    ensures |r| == |secs|
    ensures forall a :: 0 <= a < |secs| ==>
      && r[a].id == secs[a].id
      && r[a].name == (if secs[a].id == sectionId then newName else secs[a].name)
  {
    seq(|secs|, a requires 0 <= a < |secs| =>
      if secs[a].id == sectionId then secs[a].(name := newName) else secs[a])
  }

  /**
    Renames the section `sectionId` inside the notebook `notebookId` only and leaves
    inline-edit mode; no id, order or other name changes.
   */
  function RenameSection(t: Tree, notebookId: int, sectionId: int, newName: string): (r: Tree)
    ensures |r.notebooks| == |t.notebooks|
    ensures forall i :: 0 <= i < |t.notebooks| ==>
      && r.notebooks[i].(sections := t.notebooks[i].sections) == t.notebooks[i]
      && |r.notebooks[i].sections| == |t.notebooks[i].sections|
    ensures forall i, a :: 0 <= i < |t.notebooks| && 0 <= a < |t.notebooks[i].sections| ==>
      var old_s := t.notebooks[i].sections[a];
      && r.notebooks[i].sections[a].id == old_s.id
      && r.notebooks[i].sections[a].name ==
           (if t.notebooks[i].id == notebookId && old_s.id == sectionId then newName else old_s.name)
    ensures r.editingSection == None
    ensures r.(notebooks := t.notebooks, editingSection := t.editingSection) == t
    ensures Valid(t) ==> Valid(r)
    ensures Dense(t) ==> Dense(r)
  {
    var nbs := seq(|t.notebooks|, i requires 0 <= i < |t.notebooks| =>
      var nb := t.notebooks[i];
      if nb.id == notebookId then nb.(sections := RenameInSections(nb.sections, sectionId, newName)) else nb);
    t.(notebooks := nbs, editingSection := None)
  }

  // ---------------------------------------------------------------------------
  // Expansion list
  // ---------------------------------------------------------------------------

  /** `prev.filter(nId => nId !== x)`. */
  function RemoveAll(s: seq<int>, x: int): (r: seq<int>)
    ensures forall y :: y in r <==> y in s && y != x
    ensures NoDuplicates(s) ==> NoDuplicates(r)
    ensures x !in s ==> r == s
  {
    if |s| == 0 then []
    else
      var rest := RemoveAll(s[1..], x);
      assert NoDuplicates(s) ==> s[0] !in s[1..];
      if s[0] == x then rest else [s[0]] + rest
  }

  /** Removes `x` when present, appends it otherwise. */
  function ToggleMember(s: seq<int>, x: int): (r: seq<int>)
    ensures x in r <==> x !in s
    ensures forall y :: y != x ==> (y in r <==> y in s)
    ensures NoDuplicates(s) ==> NoDuplicates(r)
  {
    if x in s then RemoveAll(s, x) else s + [x]
  }

  /**
    Expands a collapsed notebook or collapses an expanded one; nothing else changes.
    The list keeps its ranges when the id is one already handed out.
   */
  function ToggleNotebook(t: Tree, id: int): (r: Tree)
    ensures id in r.expandedIds <==> id !in t.expandedIds
    ensures forall y :: y != id ==> (y in r.expandedIds <==> y in t.expandedIds)
    ensures r.(expandedIds := t.expandedIds) == t
    ensures NoDuplicates(t.expandedIds) ==> NoDuplicates(r.expandedIds)
    ensures Valid(t) && 1 <= id < t.nextNotebookId ==> Valid(r)
    ensures Dense(t) ==> Dense(r)
  {
    t.(expandedIds := ToggleMember(t.expandedIds, id))
  }

  lemma {:induction false} RemoveAppended(s: seq<int>, x: int)
    requires x !in s
    ensures RemoveAll(s + [x], x) == s
  {
    if |s| == 0 {
      assert RemoveAll([x], x) == RemoveAll([], x);
    } else {
      assert (s + [x])[1..] == s[1..] + [x];
      RemoveAppended(s[1..], x);
    }
  }

  /** Toggling twice restores membership of every id. */
  lemma ToggleTwiceMembership(t: Tree, id: int, y: int)
    ensures y in ToggleNotebook(ToggleNotebook(t, id), id).expandedIds <==> y in t.expandedIds
  {
  }

  /** Expanding a collapsed notebook and collapsing it again restores the list exactly. */
  lemma ToggleTwiceFromCollapsed(t: Tree, id: int)
    requires id !in t.expandedIds
    ensures ToggleNotebook(ToggleNotebook(t, id), id) == t
  {
    RemoveAppended(t.expandedIds, id);
  }

  // ---------------------------------------------------------------------------
  // Single-open slots and the colour lookup
  // ---------------------------------------------------------------------------

  /** The colour button (the coloured dot): opens this notebook's picker, or closes it when it is the open one. */
  function ToggleColorPicker(t: Tree, id: int): (r: Tree)
    ensures r.colorPicker == Some(id) <==> t.colorPicker != Some(id)
    ensures r.colorPicker == None || r.colorPicker == Some(id)
    ensures r.(colorPicker := t.colorPicker) == t
    ensures Valid(t) ==> Valid(r)
    ensures Dense(t) ==> Dense(r)
  {
    t.(colorPicker := if t.colorPicker == Some(id) then None else Some(id))
  }

  lemma ColorPickerTwiceFromClosed(t: Tree, id: int)
    requires t.colorPicker == None
    ensures ToggleColorPicker(ToggleColorPicker(t, id), id) == t
  {
  }

  /** Clicking a notebook's name opens its inline editor (replacing any other). */
  function StartEditingNotebook(t: Tree, id: int): (r: Tree)
    ensures r.editingNotebook == Some(id)
    ensures r.(editingNotebook := t.editingNotebook) == t
    ensures Valid(t) ==> Valid(r)
    ensures Dense(t) ==> Dense(r)
  {
    t.(editingNotebook := Some(id))
  }

  /** Clicking a section's name opens its inline editor (replacing any other). */
  function StartEditingSection(t: Tree, id: int): (r: Tree)
    ensures r.editingSection == Some(id)
    ensures r.(editingSection := t.editingSection) == t
    ensures Valid(t) ==> Valid(r)
    ensures Dense(t) ==> Dense(r)
  {
    t.(editingSection := Some(id))
  }

  /** The background class of each palette colour, as a lookup table. */
  const ColorClasses: map<string, string> := map[
    "purple" := "bg-purple-500",
    "yellow" := "bg-yellow-500",
    "orange" := "bg-orange-500",
    "blue" := "bg-blue-500",
    "green" := "bg-green-500",
    "red" := "bg-red-500",
    "pink" := "bg-pink-500"]

  /** Total: a palette colour gets its own class, anything else the neutral one. */
  function ColorClass(color: string): (r: string)
    ensures color in Palette ==> r == "bg-" + color + "-500"
    ensures color !in Palette ==> r == "bg-neutral-500"
  {
    if color in ColorClasses then ColorClasses[color] else "bg-neutral-500"
  }

  // ---------------------------------------------------------------------------
  // Arbitrary sequences of user actions
  // ---------------------------------------------------------------------------

  datatype Action =
    | NewNotebookClicked(colorIndex: nat)
    | NewSectionClicked(notebookId: int)
    | NotebookRenamed(id: int, name: string)
    | SwatchPicked(id: int, colorIndex: nat)
    | SectionRenamed(notebookId: int, sectionId: int, name: string)
    | ChevronClicked(index: nat)
    | PickerButtonClicked(id: int)
    | NotebookNameClicked(id: int)
    | SectionNameClicked(id: int)

  /** A new notebook's random draw and a swatch in the picker both index the palette. */
  predicate ActionOk(a: Action) {
    && (a.NewNotebookClicked? ==> a.colorIndex < |Palette|)
    && (a.SwatchPicked? ==> a.colorIndex < |Palette|)
  }

  /**
    One user action. A chevron belongs to a rendered notebook, so it is addressed by
    list position; an out-of-range position is no click.
   */
  function Step(t: Tree, a: Action): Tree
    requires ActionOk(a)
  {
    match a
    case NewNotebookClicked(c) => AddNotebook(t, c)
    case NewSectionClicked(n) => AddSection(t, n)
    case NotebookRenamed(id, name) => RenameNotebook(t, id, name)
    case SwatchPicked(id, c) => ChangeNotebookColor(t, id, Palette[c])
    case SectionRenamed(n, s, name) => RenameSection(t, n, s, name)
    case ChevronClicked(k) => if k < |t.notebooks| then ToggleNotebook(t, t.notebooks[k].id) else t
    case PickerButtonClicked(id) => ToggleColorPicker(t, id)
    case NotebookNameClicked(id) => StartEditingNotebook(t, id)
    case SectionNameClicked(id) => StartEditingSection(t, id)
  }

  function Run(t: Tree, actions: seq<Action>): Tree
    requires forall k :: 0 <= k < |actions| ==> ActionOk(actions[k])
    decreases |actions|
  {
    if |actions| == 0 then t else Run(Step(t, actions[0]), actions[1..])
  }

  /**
    Every action keeps notebook colours in the palette: a new notebook draws from it, a
    swatch offers only its entries, and no other action touches a colour.
   */
  lemma StepKeepsColours(t: Tree, a: Action)
    requires ActionOk(a) && ColoursOk(t)
    ensures ColoursOk(Step(t, a))
  {
    var r := Step(t, a);
    forall i | 0 <= i < |r.notebooks|
      ensures r.notebooks[i].color in Palette
    {
      if !a.NewNotebookClicked? || i < |t.notebooks| {
        assert r.notebooks[i].color == t.notebooks[i].color || a.SwatchPicked?;
      }
    }
  }

  /** Every reachable tree keeps the id invariants and gap-free notebook numbering. */
  lemma {:induction false} RunKeepsInvariants(t: Tree, actions: seq<Action>)
    requires forall k :: 0 <= k < |actions| ==> ActionOk(actions[k])
    requires Valid(t) && Dense(t)
    ensures Valid(Run(t, actions)) && Dense(Run(t, actions))
    ensures ColoursOk(t) ==> ColoursOk(Run(t, actions))
    decreases |actions|
  {
    if |actions| > 0 {
      if ColoursOk(t) {
        StepKeepsColours(t, actions[0]);
      }
      RunKeepsInvariants(Step(t, actions[0]), actions[1..]);
    }
  }

  /**
    From any tree whose notebooks have palette colours (the mounted one has none), every
    action sequence leaves each notebook with a palette colour and its own class.
   */
  lemma ReachableColourClasses(t: Tree, actions: seq<Action>)
    requires forall k :: 0 <= k < |actions| ==> ActionOk(actions[k])
    requires ColoursOk(t)
    ensures forall nb :: nb in Run(t, actions).notebooks ==>
      nb.color in Palette && ColorClass(nb.color) == "bg-" + nb.color + "-500"
  {
    RunKeepsColours(t, actions);
  }

  lemma {:induction false} RunKeepsColours(t: Tree, actions: seq<Action>)
    requires forall k :: 0 <= k < |actions| ==> ActionOk(actions[k])
    requires ColoursOk(t)
    ensures ColoursOk(Run(t, actions))
    decreases |actions|
  {
    if |actions| > 0 {
      StepKeepsColours(t, actions[0]);
      RunKeepsColours(Step(t, actions[0]), actions[1..]);
    }
  }

  lemma InitColoursOk()
    ensures ColoursOk(Init)
  {
  }

  /** One notebook followed by two sections in it: ids and names count from 1. */
  lemma NotebookWithTwoSections(colorIndex: nat)
    requires colorIndex < |Palette|
    ensures var t := AddSection(AddSection(AddNotebook(Init, colorIndex), 1), 1);
      && |t.notebooks| == 1
      && t.notebooks[0].id == 1
      && t.notebooks[0].name == "Notebook 1"
      && t.notebooks[0].sections == [Section(1, "Section 1"), Section(2, "Section 2")]
  {
    assert Show(1) == "1" && Show(2) == "2";
    assert NewSection(1) == Section(1, "Section 1");
    assert NewSection(2) == Section(2, "Section 2");
    var t1 := AddNotebook(Init, colorIndex);
    assert t1.notebooks[0].id == 1 && t1.notebooks[0].sections == [] && t1.nextSectionId == 1;
    var t2 := AddSection(t1, 1);
    assert t2.notebooks[0].sections == [Section(1, "Section 1")];
    var t3 := AddSection(t2, 1);
    assert t3.notebooks[0].sections == [Section(1, "Section 1")] + [Section(2, "Section 2")];
  }
}
