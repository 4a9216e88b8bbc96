# SyncIN workspace state, modelled in Dafny

SyncIN is a Next.js note-taking workspace. Its state logic is four in-memory state
machines, written as React `useState` handlers. Each handler is really a pure
"old state → new state" function, and this project models each one that way:

- **Workspace** (`workspace.dfy`, from `components/Sidebaar.tsx`): the notebook list,
  each notebook with its sections. It also holds the two id counters, the expansion
  list and the three `number | null` slots: inline notebook editor, inline section
  editor and colour picker. The colour→class lookup is here too.
- **Pages** (`pages.dfy`, from `components/Sidebar2.tsx`): the append-only page list
  with its id counter, the name-based selection marker, and the
  `{pageName, date, time}` context that the provider publishes.
- **Toolbar** (`toolbar.dfy`, from `components/ui/floating-duck.tsx`): the formatting
  toolbar's state, with four style flags, a three-valued alignment, size and colours,
  and three popup flags. Every click handler is modelled, as is the document
  mousedown listener, both as written and corrected (see "## Findings"). `Run` uses
  the corrected listener and `RunAsWritten` the listener as written. The `<font size="7">` rewrite loop is a
  method over an array.
- **Title** (`title.dfy`, from `app/page.tsx`): the placeholder test, the display-text
  fallback, the date/time text and the width of the title input.
- `decimal.dfy` models the decimal rendering of the template literals
  (`Notebook ${id}`, `Section ${id}`, `Page ${id}`). It has a parser that inverts it.
  This round trip is what makes generated names distinct.
- `optional.dfy` holds the `Option` type that stands for `T | null`.

Every state handler is a function with a named result; the two operations that walk
the document's font elements (`Toolbar.RewritePlaceholders` and
`Toolbar.SizeButtonClicked`) are methods. Each contract states how the result relates
to the old state: what changed, and that nothing else did. Every operation on a
`Workspace.Tree`, a `Pages.Registry` or a `Toolbar.State` says in its own contract that
it keeps the module's invariants (`Valid(t) ==> Valid(r)`). `Workspace.ToggleNotebook`
keeps the full invariant when the toggled id is one already handed out, which is the
case for every chevron the sidebar renders. For each of these three modules, `Run`
applies any sequence of user actions, and a lemma shows that the invariants hold after
every sequence. `Title` and `Decimal` hold pure helpers and have no event sequence.

The randomness, the clock and the DOM are parameters:

- The random colour is an index below 7.
- The locale date and time strings are opaque strings.
- Measured widths are natural numbers.
- Where a mousedown landed is a `ClickTarget`.
- The document's `<font>` elements are a sequence of records.

Behaviour of the code worth knowing:

- A bold click with no editable region still flips the bold flag. The same holds for
  italic, underline and strikethrough: the focus helper does nothing in that case, and
  the flag update does not depend on it.
- `addSection` with an unknown notebook id leaves the notebooks unchanged, but still
  advances the section counter.
- Before the mount effect runs, the published date and time are empty strings
  (`Pages.Init`). The mount effect (`Pages.Mount`) then sets them.
- The notebook editor and the section editor are separate state slots. Opening one by
  clicking a name blurs the other's input, whose `onBlur` commits that rename and
  clears its slot. The model keeps that commit as the separate `NotebookRenamed` /
  `SectionRenamed` action, so a run in which the commit is left out has both slots
  set; the sidebar itself never shows both editors at once.

## Model

| member | source | states |
|---|---|---|
| `Decimal.Show` | components/Sidebaar.tsx:36 | the rendered id has only digits, at least one, and no leading zero |
| `Decimal.ParseShow` | components/Sidebaar.tsx:36 | parsing the rendered id gives the id back |
| `Decimal.LabelInjective` | components/Sidebar2.tsx:52 | two generated names with the same prefix are equal exactly when their ids are equal |
| `Workspace.AddNotebook` | components/Sidebaar.tsx:30-43 | appends exactly one notebook at the end. It has id = old counter, name "Notebook id", a palette colour, not expanded, no sections. Earlier notebooks are untouched, the counter rises by one, nothing else changes. The new notebook's id is not in the expansion list, so it shows collapsed. The id invariants and gap-free numbering are kept |
| `Workspace.AddSection` | components/Sidebaar.tsx:45-59 | only a notebook with the given id gains the section "Section id" at the end. All other notebooks and the order are unchanged. On an id miss the list is identical, but the section counter still advances. Section ids stay distinct across the tree and below the counter |
| `Workspace.AddSectionKeepsSectionIds` | components/Sidebaar.tsx:45-59 | appending the counter's section to the matching notebook keeps section ids distinct and below the advanced counter |
| `Workspace.RenameNotebook` | components/Sidebaar.tsx:61-66 | only the matching notebook's name changes, to the new name verbatim (empty included). Length, ids, order, colours and sections are kept. The notebook editor slot becomes null |
| `Workspace.ChangeNotebookColor` | components/Sidebaar.tsx:68-73 | only the matching notebook's colour changes. Everything else about the notebooks is kept. The colour picker slot becomes null. A palette colour keeps every notebook's colour in the palette |
| `Workspace.RenameSection` | components/Sidebaar.tsx:75-88 | only the section with that id, inside the notebook with that id, is renamed. Section ids, counts and all other names are kept. The section editor slot becomes null |
| `Workspace.RemoveAll` | components/Sidebaar.tsx:93 | the filter keeps exactly the other ids. It keeps a duplicate-free list duplicate-free, and returns the list itself when the id is absent |
| `Workspace.ToggleMember` | components/Sidebaar.tsx:90-96 | membership of the id flips, every other id keeps its membership, and no duplicate is created |
| `Workspace.ToggleNotebook` | components/Sidebaar.tsx:90-96 | the notebook's expansion flips, other notebooks' expansion is unchanged, and nothing outside the expansion list changes. The list stays duplicate-free, and it holds only handed-out ids when the toggled id is one |
| `Workspace.RemoveAppended` | components/Sidebaar.tsx:92-94 | filtering out an id that was just appended to a list without it gives that list back |
| `Workspace.ToggleTwiceMembership` | components/Sidebaar.tsx:90-96 | toggling twice restores every id's membership |
| `Workspace.ToggleTwiceFromCollapsed` | components/Sidebaar.tsx:90-96 | expanding a collapsed notebook and then collapsing it restores the exact state |
| `Workspace.ToggleColorPicker` | components/Sidebaar.tsx:152 | the picker is open for this notebook exactly when it was not before. The slot holds no other notebook afterwards, nothing else changes, and the invariants are kept |
| `Workspace.ColorPickerTwiceFromClosed` | components/Sidebaar.tsx:152 | pressing the same colour button (the coloured dot) twice with no picker open closes the picker again |
| `Workspace.StartEditingNotebook` | components/Sidebaar.tsx:178 | the notebook editor slot holds this notebook, nothing else changes, and the invariants are kept |
| `Workspace.StartEditingSection` | components/Sidebaar.tsx:239 | the section editor slot holds this section, nothing else changes, and the invariants are kept |
| `Workspace.ColorClass` | components/Sidebaar.tsx:98-109 | total: each palette colour c maps to "bg-c-500", and every other string maps to "bg-neutral-500" |
| `Workspace.InitIsValid` | components/Sidebaar.tsx:22-28 | the mounted state meets the id invariants and gap-free numbering |
| `Workspace.RunKeepsInvariants` | components/Sidebaar.tsx:24-96 | after any sequence of sidebar actions, notebook ids are still 1..n in order with the counter at n+1. Section ids are still distinct and below their counter. The expansion list still has no duplicate and holds only ids of existing notebooks, since a chevron is clicked on a rendered notebook (line 140). Every notebook's colour stays a palette entry, since the random draw (line 33) and the picker's swatches (lines 191-194) both come from the palette |
| `Workspace.StepKeepsColours` | components/Sidebaar.tsx:30-96 | no action gives a notebook a colour outside the palette: the random draw (line 33) and the picker's swatches (lines 191-194) come from it, and no other handler touches a colour |
| `Workspace.RunKeepsColours` | components/Sidebaar.tsx:24-96 | from a tree whose notebooks all have palette colours, every action sequence keeps them so |
| `Workspace.InitColoursOk` | components/Sidebaar.tsx:16-22 | the mounted tree has no notebook, so its colours are trivially palette entries |
| `Workspace.ReachableColourClasses` | components/Sidebaar.tsx:98-109 | from such a tree (the mounted one included), every action sequence leaves each notebook with a palette colour and its own class "bg-c-500", never the neutral fallback |
| `Workspace.NotebookWithTwoSections` | components/Sidebaar.tsx:32-59 | one new notebook and two sections in it give notebook 1 "Notebook 1" with sections (1, "Section 1") and (2, "Section 2") |
| `Pages.Mount` | components/Sidebar2.tsx:68-84 | the mount effect publishes the given date and time, changes nothing else, and keeps the invariants |
| `Pages.AddNewPage` | components/Sidebar2.tsx:36-59 | appends exactly one page: id = old counter, name "Page id", with the given date and time. Earlier pages are untouched and the counter rises by one. Selection and published context are unchanged, and the invariants are kept |
| `Pages.SelectPage` | components/Sidebar2.tsx:61-66 | the selection marker becomes the page's name, and the published context becomes exactly its name, date and time. The page list and counter are unchanged |
| `Pages.SetPageName` | components/Sidebar2.tsx:87 | the title input overwrites only the published page name and keeps the invariants |
| `Pages.HighlightedEntries` | components/Sidebar2.tsx:113-122 | one entry per page in list order, each flagged exactly when the selection marker equals its name (line 119). With no selection nothing is flagged, and in a valid registry at most one entry is |
| `Pages.SelectHighlightsExactly` | components/Sidebar2.tsx:116-119 | clicking entry k highlights entry k and no other |
| `Pages.RunWithoutEditsShowsListedName` | components/Sidebar2.tsx:87 | unless the title is typed into, the published page name is the one it started with or the name of a listed page |
| `Pages.SelectPageIdempotent` | components/Sidebar2.tsx:61-66 | selecting the same page twice is the same as selecting it once |
| `Pages.AtMostOneHighlighted` | components/Sidebar2.tsx:113-122 | in a valid registry no two list entries are highlighted, because generated names come from distinct ids |
| `Pages.RunKeepsInvariants` | components/Sidebar2.tsx:33-66 | after any sequence of add, select and rename actions, page ids are 1..n in order and each page carries its generated name |
| `Pages.RunOnlyAppends` | components/Sidebar2.tsx:57 | no sequence of actions removes, reorders or changes an existing page |
| `Pages.InitIsValid` | components/Sidebar2.tsx:29-34 | the initial state has no selection, the name "Untitled" and no pages, and meets the invariants |
| `Pages.SelectPublishesExactly` | components/Sidebar2.tsx:61-66 | selecting "Page 3" with its date and time publishes exactly those three strings |
| `Toolbar.InitIsValid` | components/ui/floating-duck.tsx:20-32 | the initial toolbar has no popup open and a size from the list |
| `Toolbar.TogglePopup` | components/ui/floating-duck.tsx:82-86 | the font-size button (and likewise the colour and highlight buttons at lines 100-104 and 178-182) flips its own popup and closes the other two. So at most one popup is open afterwards, and no non-popup field changes |
| `Toolbar.TogglePopupTwiceFromClosed` | components/ui/floating-duck.tsx:82-86 | with all popups closed, applying the click handler (lines 82-86) twice returns to the same state. A real press also runs the mousedown listener first; see `Toolbar.Press` |
| `Toolbar.ClickOutside` | components/ui/floating-duck.tsx:40-50 | a popup stays open only if it was open and the mousedown landed in it. The listener never opens a popup, leaves at most one open, and changes nothing but popup flags |
| `Toolbar.Press` | components/ui/floating-duck.tsx:40-86 | as written: the listener runs on the button's mousedown and closes the button's own popup, so the click always leaves that popup open and the others closed. The invariants are kept |
| `Toolbar.PressNeverCloses` | components/ui/floating-duck.tsx:40-86 | as written, a press on the button of an open popup leaves it open |
| `Toolbar.TwoPressesLeaveOpen` | components/ui/floating-duck.tsx:40-86 | as written, two presses on one picker button from all-closed leave its popup open, so the state does not come back |
| `Toolbar.ClickOutsideFixed` | components/ui/floating-duck.tsx:40-50 | corrected listener: a mousedown on a popup's own button counts as inside it. No popup is opened, at most one stays open, nothing but popup flags change |
| `Toolbar.PressFixed` | components/ui/floating-duck.tsx:40-86 | corrected press: its popup flips, the other two are closed, and the invariants are kept |
| `Toolbar.TwoFixedPressesRestore` | components/ui/floating-duck.tsx:40-86 | corrected: two presses on one picker button from all-closed return to the same state |
| `Toolbar.ToggleStyle` | components/ui/floating-duck.tsx:115-164 | each of bold, italic, underline and strikethrough flips its own flag only and leaves all other toolbar state unchanged |
| `Toolbar.ToggleStyleTwice` | components/ui/floating-duck.tsx:115-119 | applying a style handler twice is the identity on the toolbar state |
| `Toolbar.SetAlignment` | components/ui/floating-duck.tsx:235-269 | an alignment button sets the alignment to its own value whatever it was, and changes nothing else |
| `Toolbar.LastAlignmentWins` | components/ui/floating-duck.tsx:235-269 | after two alignment presses only the last one's value is active (centre then right gives right), and one press twice equals one press |
| `Toolbar.PickSize` | components/ui/floating-duck.tsx:298-310 | a size button sets the size to that list entry and closes the size popup. The size stays a member of the list |
| `Toolbar.PickFontColor` | components/ui/floating-duck.tsx:333-338 | a font-colour swatch sets the colour to that palette entry and closes its popup |
| `Toolbar.CustomFontColor` | components/ui/floating-duck.tsx:348-352 | the custom font-colour input sets any value and leaves the popup open |
| `Toolbar.PickHighlight` | components/ui/floating-duck.tsx:368-373 | a highlight swatch sets the highlight to that palette entry and closes its popup |
| `Toolbar.CustomHighlight` | components/ui/floating-duck.tsx:383-387 | the custom highlight input sets any value and leaves the popup open |
| `Toolbar.RewritePlaceholders` | components/ui/floating-duck.tsx:302-308 | after the loop no font element has size "7". Each element that had it has lost its size attribute and gained the inline size "Npx". Every other element is unchanged |
| `Toolbar.SizeButtonClicked` | components/ui/floating-duck.tsx:298-310 | a size button records list entry N and closes the size popup, and every element the native command marked gets the inline size "Npx" with that same N. Other elements are unchanged, and the toolbar invariants are kept |
| `Toolbar.RewriteIdempotent` | components/ui/floating-duck.tsx:302-308 | rewriting an element a second time changes nothing |
| `Toolbar.RunKeepsValid` | components/ui/floating-duck.tsx:30-32 | after any sequence of toolbar clicks and mousedowns (with the corrected listener), at most one popup is open and the size is a list entry |
| `Toolbar.RunAsWrittenKeepsValid` | components/ui/floating-duck.tsx:40-50 | the same holds when every mousedown runs the listener as written: at most one popup is open and the size is a list entry |
| `Title.TrimStart` | app/page.tsx:10 | the result is a suffix of the input that does not start with whitespace, and the dropped prefix is all whitespace |
| `Title.TrimEnd` | app/page.tsx:10 | the result is a prefix of the input that does not end with whitespace, and the dropped suffix is all whitespace |
| `Title.Trim` | app/page.tsx:10 | the result is a stretch of the input with whitespace only before and after it, and it neither starts nor ends with whitespace |
| `Title.TrimEmptyIff` | app/page.tsx:10 | trimming leaves the empty string exactly when every character is ECMAScript whitespace |
| `Title.IsUntitled` | app/page.tsx:10 | the title is dimmed exactly when the name is "Untitled" or consists only of whitespace |
| `Title.DisplayText` | app/page.tsx:15 | the measured text is the name when that is non-empty, and "Untitled" otherwise, so it is never empty |
| `Title.DateTimeText` | app/page.tsx:16 | the text is "date time" when both are non-empty, and empty otherwise. It is non-empty exactly when the date line is rendered (line 66) |
| `Title.TitleWidth` | app/page.tsx:27-63 | the width is one of the two measurements or 200, and is at least 200 and at least each measurement. That is, it is their maximum |
| `Title.TitleWidthWithNothingMeasured` | app/page.tsx:59 | with both measurements 0 the width is exactly 200 |

## Left out

- JSX rendering is not modelled: Tailwind classes other than the colour lookup, the
  motion and sidebar-collapse animation (`open`), `Logo`/`LogoIcon`, the unused
  `Dashboard` and the `/trash` link. They are presentation only.
- `document.execCommand`, `document.querySelector`, the focus helper and the Range and
  Selection work in the bullets handler are foreign DOM calls. The model keeps the
  toolbar state these handlers update. The bullets handler updates none, so its
  `Step` is the identity.
- Registering and removing the mousedown listener in `useEffect` is not modelled.
  Only the handler's effect on state is.
- `Math.random` is not modelled. The colour index is a parameter below 7.
- `Date` and the locale formatting of dates and times are not modelled. Their results
  are opaque strings.
- `offsetWidth` measurement and the effect that stores it are not modelled. The two
  widths are natural-number parameters.
- The React context plumbing is not modelled, including the throw when the context
  is read outside its provider. That is a wiring check, not behaviour.
- `components/ui/floating-dock.tsx` and `components/ui/sidebar.tsx` are not part of
  this model.
- The `active` field of a section is not modelled. Nothing ever sets it.
- Ids are unbounded naturals. JavaScript numbers lose precision above 2^53, and
  render in exponent form above 10^21; neither is modelled.
- `Workspace.ColorClass`: treats every non-palette string as a miss. In the source, a
  string that names an inherited `Object` property (such as "toString") would read that
  property instead. Only palette colours ever reach the lookup, as
  `Workspace.ReachableColourClasses` shows for the model.
- `Toolbar.Press`: assumes that React re-renders between the mousedown and the click,
  so the click handler sees the flags the listener just cleared. React's event
  batching is not modelled.
- `Pages.Context`: the provider value is a projection of three registry fields. Its
  properties are stated by the operations that change it and by
  `Pages.RunWithoutEditsShowsListedName`.

## Findings

| source | as written | input that shows it | evidently intended | confidence | as-written member | corrected member |
|---|---|---|---|---|---|---|
| components/ui/floating-duck.tsx:40-86 | the mousedown listener closes a popup when the target is outside the popup, and the picker button that opened it is outside. The button's click handler then sees the popup closed and opens it again | all popups closed, then two presses on the font-size button: the size popup is still open | a second press on a picker button closes its popup | not executed; medium, since it depends on React re-rendering between mousedown and click | `Toolbar.Press`, `Toolbar.TwoPressesLeaveOpen` | `Toolbar.PressFixed`, `Toolbar.TwoFixedPressesRestore` |
