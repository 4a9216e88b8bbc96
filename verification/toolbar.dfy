/**
  The formatting toolbar (components/ui/floating-duck.tsx): its React state as one
  record, every click handler as a pure transition, and the loop that turns the
  placeholder `<font size="7">` elements into explicit pixel sizes.

  The rich-text mutations themselves (`document.execCommand`, the focus helper and the
  bullet-list range surgery) act on the browser's document and are not modelled; a
  handler's effect on the toolbar state does not depend on them.
 */
module Toolbar {
  import opened Optional

  /** The sizes the size popup offers, in pixels, as the strings the buttons carry. */
  const FontSizes: seq<string> := ["8", "10", "12", "14", "16", "18", "20", "24", "28", "32", "36", "48", "72"]

  /** The fifteen swatches both colour popups offer. */
  const ColorPalette: seq<string> := [
    "#000000", "#FFFFFF", "#FF0000", "#00FF00", "#0000FF",
    "#FFFF00", "#FF00FF", "#00FFFF", "#FFA500", "#800080",
    "#008000", "#FFC0CB", "#A52A2A", "#808080", "#C0C0C0"]

  datatype Alignment = Left | Center | Right

  datatype Style = Bold | Italic | Underline | Strikethrough

  datatype Popup = SizePopup | ColorPopup | HighlightPopup

  datatype State = State(
    fontSize: string,
    fontColor: string,
    bold: bool,
    italic: bool,
    underline: bool,
    strikethrough: bool,
    highlightColor: string,
    alignment: Alignment,
    sizeOpen: bool,
    colorOpen: bool,
    highlightOpen: bool)

  const Init: State := State("16", "#000000", false, false, false, false, "#FFFF00", Left, false, false, false)

  function Flag(s: State, st: Style): bool {
    match st
    case Bold => s.bold
    case Italic => s.italic
    case Underline => s.underline
    case Strikethrough => s.strikethrough
  }

  function IsOpen(s: State, p: Popup): bool {
    match p
    case SizePopup => s.sizeOpen
    case ColorPopup => s.colorOpen
    case HighlightPopup => s.highlightOpen
  }

  predicate AtMostOneOpen(s: State) {
    && !(s.sizeOpen && s.colorOpen)
    && !(s.sizeOpen && s.highlightOpen)
    && !(s.colorOpen && s.highlightOpen)
  }

  predicate Valid(s: State) {
    AtMostOneOpen(s) && s.fontSize in FontSizes
  }

  /** The state with all three popups closed: what the popup handlers may change. */
  function Closed(s: State): State {
    s.(sizeOpen := false, colorOpen := false, highlightOpen := false)
  }

  /** The style part alone: what the bold/italic/underline/strikethrough handlers may change. */
  function Unstyled(s: State): State {
    s.(bold := false, italic := false, underline := false, strikethrough := false)
  }

  lemma InitIsValid()
    ensures Valid(Init)
  {
  }

  // ---------------------------------------------------------------------------
  // Popup buttons and click-outside
  // ---------------------------------------------------------------------------

  /** A picker button: flips its own popup and closes the two others. */
  function TogglePopup(s: State, p: Popup): (r: State)
    ensures IsOpen(r, p) == !IsOpen(s, p)
    ensures forall q :: q != p ==> !IsOpen(r, q)
    ensures AtMostOneOpen(r)
    ensures Closed(r) == Closed(s)
    ensures s.fontSize in FontSizes ==> Valid(r)
  {
    match p
    case SizePopup => s.(sizeOpen := !s.sizeOpen, colorOpen := false, highlightOpen := false)
    case ColorPopup => s.(colorOpen := !s.colorOpen, sizeOpen := false, highlightOpen := false)
    case HighlightPopup => s.(highlightOpen := !s.highlightOpen, sizeOpen := false, colorOpen := false)
  }

  /**
    The click handler alone, applied twice with every popup closed, restores the state.
    A real press also runs the mousedown listener first; see `Press`.
   */
  lemma TogglePopupTwiceFromClosed(s: State, p: Popup)
    requires !s.sizeOpen && !s.colorOpen && !s.highlightOpen
    ensures TogglePopup(TogglePopup(s, p), p) == s
  {
  }

  /**
    Where a document mousedown landed, as far as the popups are concerned. The picker
    buttons sit in the dock, outside every popup.
   */
  datatype ClickTarget = InSizePopup | InColorPopup | InHighlightPopup | OnPickerButton(button: Popup) | Elsewhere

  /**
    The document mousedown listener. A popup's ref is attached exactly while the popup
    is shown; the listener closes every shown popup that does not contain the target.
   */
  function ClickOutside(s: State, target: ClickTarget): (r: State)
    ensures r.sizeOpen <==> s.sizeOpen && target == InSizePopup
    ensures r.colorOpen <==> s.colorOpen && target == InColorPopup
    ensures r.highlightOpen <==> s.highlightOpen && target == InHighlightPopup
    ensures forall p :: IsOpen(r, p) ==> IsOpen(s, p)
    ensures AtMostOneOpen(r)
    ensures Closed(r) == Closed(s)
    ensures Valid(s) ==> Valid(r)
  {
    var sizeRefAttached, colorRefAttached, highlightRefAttached := s.sizeOpen, s.colorOpen, s.highlightOpen;
    var s1 := if sizeRefAttached && target != InSizePopup then s.(sizeOpen := false) else s;
    var s2 := if colorRefAttached && target != InColorPopup then s1.(colorOpen := false) else s1;
    if highlightRefAttached && target != InHighlightPopup then s2.(highlightOpen := false) else s2
  }

  /**
    A real press on a picker button: the document mousedown listener runs first, with
    the target on the button, then the button's click handler. This assumes the click
    handler sees the state the listener left.
   */
  function Press(s: State, p: Popup): (r: State)
    ensures IsOpen(r, p)
    ensures forall q :: q != p ==> !IsOpen(r, q)
    ensures Closed(r) == Closed(s)
    ensures Valid(s) ==> Valid(r)
  {
    TogglePopup(ClickOutside(s, OnPickerButton(p)), p)
  }

  /** The listener first closes the popup, then the click reopens it: a press never closes its own popup. */
  lemma PressNeverCloses(s: State, p: Popup)
    requires IsOpen(s, p)
    ensures IsOpen(Press(s, p), p)
  {
  }

  /** Starting with every popup closed, two presses on the same button leave its popup open. */
  lemma TwoPressesLeaveOpen(s: State, p: Popup)
    requires !s.sizeOpen && !s.colorOpen && !s.highlightOpen
    ensures IsOpen(Press(Press(s, p), p), p)
    ensures Press(Press(s, p), p) != s
  {
  }

  /**
    The listener with the evident intent: a mousedown on a popup's own picker button
    counts as inside that popup, so the button's click handler alone decides.
   */
  function ClickOutsideFixed(s: State, target: ClickTarget): (r: State)
    ensures r.sizeOpen <==> s.sizeOpen && (target == InSizePopup || target == OnPickerButton(SizePopup))
    ensures r.colorOpen <==> s.colorOpen && (target == InColorPopup || target == OnPickerButton(ColorPopup))
    ensures r.highlightOpen <==> s.highlightOpen && (target == InHighlightPopup || target == OnPickerButton(HighlightPopup))
    ensures forall p :: IsOpen(r, p) ==> IsOpen(s, p)
    ensures AtMostOneOpen(r)
    ensures Closed(r) == Closed(s)
    ensures Valid(s) ==> Valid(r)
  {
    s.(sizeOpen := s.sizeOpen && (target == InSizePopup || target == OnPickerButton(SizePopup)),
       colorOpen := s.colorOpen && (target == InColorPopup || target == OnPickerButton(ColorPopup)),
       highlightOpen := s.highlightOpen && (target == InHighlightPopup || target == OnPickerButton(HighlightPopup)))
  }

  /** A press with the corrected listener toggles its own popup and closes the others. */
  function PressFixed(s: State, p: Popup): (r: State)
    ensures IsOpen(r, p) == !IsOpen(s, p)
    ensures forall q :: q != p ==> !IsOpen(r, q)
    ensures AtMostOneOpen(r)
    ensures Closed(r) == Closed(s)
    ensures Valid(s) ==> Valid(r)
  {
    TogglePopup(ClickOutsideFixed(s, OnPickerButton(p)), p)
  }

  /** With the corrected listener, two presses from all-closed return to the same state. */
  lemma TwoFixedPressesRestore(s: State, p: Popup)
    requires !s.sizeOpen && !s.colorOpen && !s.highlightOpen
    ensures PressFixed(PressFixed(s, p), p) == s
  {
  }

  // ---------------------------------------------------------------------------
  // Style flags and alignment
  // ---------------------------------------------------------------------------

  /**
    The bold, italic, underline and strikethrough buttons. The flag flips whether or not
    an editable region exists: the focus helper and the native command never fail.
   */
  function ToggleStyle(s: State, st: Style): (r: State)
    ensures Flag(r, st) == !Flag(s, st)
    ensures forall other :: other != st ==> Flag(r, other) == Flag(s, other)
    ensures Unstyled(r) == Unstyled(s)
    ensures Valid(s) ==> Valid(r)
  {
    match st
    case Bold => s.(bold := !s.bold)
    case Italic => s.(italic := !s.italic)
    case Underline => s.(underline := !s.underline)
    case Strikethrough => s.(strikethrough := !s.strikethrough)
  }

  lemma ToggleStyleTwice(s: State, st: Style)
    ensures ToggleStyle(ToggleStyle(s, st), st) == s
  {
  }

  /** The three alignment buttons. */
  function SetAlignment(s: State, a: Alignment): (r: State)
    ensures r.alignment == a
    ensures r.(alignment := Left) == s.(alignment := Left)
    ensures Valid(s) ==> Valid(r)
  {
    s.(alignment := a)
  }

  /** The last alignment pressed wins, whatever came before; pressing one twice is pressing it once. */
  lemma LastAlignmentWins(s: State, a: Alignment, b: Alignment)
    ensures SetAlignment(SetAlignment(s, a), b) == SetAlignment(s, b)
    ensures SetAlignment(SetAlignment(s, a), a) == SetAlignment(s, a)
  {
  }

  // ---------------------------------------------------------------------------
  // Size and colour picks
  // ---------------------------------------------------------------------------

  /** A size button: records the size and closes the size popup. */
  function PickSize(s: State, index: nat): (r: State)
    requires index < |FontSizes|
    ensures r.fontSize == FontSizes[index]
    ensures !r.sizeOpen
    ensures r.(fontSize := s.fontSize, sizeOpen := s.sizeOpen) == s
    ensures AtMostOneOpen(s) ==> Valid(r)
  {
    s.(fontSize := FontSizes[index], sizeOpen := false)
  }

  /** A font-colour swatch: records the colour and closes the popup. */
  function PickFontColor(s: State, index: nat): (r: State)
    requires index < |ColorPalette|
    ensures r.fontColor == ColorPalette[index] && !r.colorOpen
    ensures r.(fontColor := s.fontColor, colorOpen := s.colorOpen) == s
    ensures Valid(s) ==> Valid(r)
  {
    s.(fontColor := ColorPalette[index], colorOpen := false)
  }

  /** The custom font-colour input: records any value and leaves the popup open. */
  function CustomFontColor(s: State, color: string): (r: State)
    ensures r.fontColor == color
    ensures r.(fontColor := s.fontColor) == s
    ensures Valid(s) ==> Valid(r)
  {
    s.(fontColor := color)
  }

  /** A highlight swatch: records the colour and closes the popup. */
  function PickHighlight(s: State, index: nat): (r: State)
    requires index < |ColorPalette|
    ensures r.highlightColor == ColorPalette[index] && !r.highlightOpen
    ensures r.(highlightColor := s.highlightColor, highlightOpen := s.highlightOpen) == s
    ensures Valid(s) ==> Valid(r)
  {
    s.(highlightColor := ColorPalette[index], highlightOpen := false)
  }

  /** The custom highlight input: records any value and leaves the popup open. */
  function CustomHighlight(s: State, color: string): (r: State)
    ensures r.highlightColor == color
    ensures r.(highlightColor := s.highlightColor) == s
    ensures Valid(s) ==> Valid(r)
  {
    s.(highlightColor := color)
  }

  // ---------------------------------------------------------------------------
  // The placeholder rewrite after a size pick
  // ---------------------------------------------------------------------------

  /**
    A `<font>` element of the document: its `size` attribute (absent or a value), its
    inline `style.fontSize` (empty when unset) and the text it wraps.
   */
  datatype FontElement = FontElement(size: Option<string>, styleFontSize: string, text: string)

  /** What the loop body makes of one element. */
  function Rewritten(e: FontElement, size: string): FontElement {
    if e.size == Some("7") then e.(size := None, styleFontSize := size + "px") else e
  }

  /**
    The loop after `execCommand("fontSize", false, "7")`: every element whose size is
    "7" loses its size attribute and gets the chosen pixel size inline; the others stay
    as they were. The document's live element list is modelled as an array. `size` is
    the bare list entry, such as "16"; `SizeButtonClicked` passes the entry it records.
   */
  method RewritePlaceholders(fonts: seq<FontElement>, size: string) returns (out: seq<FontElement>)
    ensures |out| == |fonts|
    ensures forall i :: 0 <= i < |fonts| && fonts[i].size == Some("7") ==>
      out[i] == fonts[i].(size := None, styleFontSize := size + "px")
    ensures forall i :: 0 <= i < |fonts| && fonts[i].size != Some("7") ==> out[i] == fonts[i]
    ensures forall i :: 0 <= i < |out| ==> out[i].size != Some("7")
  {
    var elements := new FontElement[|fonts|](k requires 0 <= k < |fonts| => fonts[k]);
    var i := 0;
    while i < elements.Length
      invariant 0 <= i <= elements.Length == |fonts|
      invariant forall k :: 0 <= k < i ==> elements[k] == Rewritten(fonts[k], size)
      invariant forall k :: i <= k < elements.Length ==> elements[k] == fonts[k]
    {
      if elements[i].size == Some("7") {
        elements[i] := elements[i].(size := None, styleFontSize := size + "px");
      }
      i := i + 1;
    }
    out := elements[..];
  }

  /** Running the rewrite again changes nothing: no placeholder is left. */
  lemma RewriteIdempotent(e: FontElement, size: string)
    ensures Rewritten(Rewritten(e, size), size) == Rewritten(e, size)
  {
  }

  /**
    A whole size-button click: the state records the chosen entry and closes the size
    popup, and the placeholder elements get that same entry in pixels. `marked` is the
    document's font elements after the native command has marked the selection.
   */
  method SizeButtonClicked(s: State, index: nat, marked: seq<FontElement>) returns (r: State, out: seq<FontElement>)
    requires index < |FontSizes|
    ensures r.fontSize == FontSizes[index] && !r.sizeOpen
    ensures r.(fontSize := s.fontSize, sizeOpen := s.sizeOpen) == s
    ensures |out| == |marked|
    ensures forall i :: 0 <= i < |marked| && marked[i].size == Some("7") ==>
      out[i].size == None && out[i].styleFontSize == r.fontSize + "px" && out[i].text == marked[i].text
    ensures forall i :: 0 <= i < |marked| && marked[i].size != Some("7") ==> out[i] == marked[i]
    ensures Valid(s) ==> Valid(r)
  {
    r := PickSize(s, index);
    out := RewritePlaceholders(marked, FontSizes[index]);
  }

  // ---------------------------------------------------------------------------
  // Arbitrary sequences of toolbar events
  // ---------------------------------------------------------------------------

  datatype Action =
    | PopupButton(popup: Popup)
    | StyleButton(style: Style)
    | AlignButton(alignment: Alignment)
    | BulletsButton
    | SizeButton(sizeIndex: nat)
    | FontSwatch(fontIndex: nat)
    | FontCustom(fontColor: string)
    | HighlightSwatch(highlightIndex: nat)
    | HighlightCustom(highlightColor: string)
    | Mousedown(target: ClickTarget)

  predicate ActionOk(a: Action) {
    match a
    case SizeButton(k) => k < |FontSizes|
    case FontSwatch(k) => k < |ColorPalette|
    case HighlightSwatch(k) => k < |ColorPalette|
    case _ => true
  }

  /**
    One toolbar event. The bullets button only edits the document, so it leaves the
    toolbar state alone. A mousedown runs the corrected listener, under which a picker
    button's own mousedown does not close its popup.
   */
  function Step(s: State, a: Action): State
    requires ActionOk(a)
  {
    match a
    case PopupButton(p) => TogglePopup(s, p)
    case StyleButton(st) => ToggleStyle(s, st)
    case AlignButton(al) => SetAlignment(s, al)
    case BulletsButton => s
    case SizeButton(k) => PickSize(s, k)
    case FontSwatch(k) => PickFontColor(s, k)
    case FontCustom(c) => CustomFontColor(s, c)
    case HighlightSwatch(k) => PickHighlight(s, k)
    case HighlightCustom(c) => CustomHighlight(s, c)
    case Mousedown(t) => ClickOutsideFixed(s, t)
  }

  function Run(s: State, actions: seq<Action>): State
    requires forall k :: 0 <= k < |actions| ==> ActionOk(actions[k])
    decreases |actions|
  {
    if |actions| == 0 then s else Run(Step(s, actions[0]), actions[1..])
  }

  /** Whatever the user does, at most one popup is open and the size is one the list offers. */
  lemma {:induction false} RunKeepsValid(s: State, actions: seq<Action>)
    requires forall k :: 0 <= k < |actions| ==> ActionOk(actions[k])
    requires Valid(s)
    ensures Valid(Run(s, actions))
    decreases |actions|
  {
    if |actions| > 0 {
      RunKeepsValid(Step(s, actions[0]), actions[1..]);
    }
  }

  /** The same events with the listener as written: a mousedown runs `ClickOutside`. */
  function StepAsWritten(s: State, a: Action): State
    requires ActionOk(a)
  {
    if a.Mousedown? then ClickOutside(s, a.target) else Step(s, a)
  }

  function RunAsWritten(s: State, actions: seq<Action>): State
    requires forall k :: 0 <= k < |actions| ==> ActionOk(actions[k])
    decreases |actions|
  {
    if |actions| == 0 then s else RunAsWritten(StepAsWritten(s, actions[0]), actions[1..])
  }

  /** The code as written keeps the invariant too: at most one popup open, the size a list entry. */
  lemma {:induction false} RunAsWrittenKeepsValid(s: State, actions: seq<Action>)
    requires forall k :: 0 <= k < |actions| ==> ActionOk(actions[k])
    requires Valid(s)
    ensures Valid(RunAsWritten(s, actions))
    decreases |actions|
  {
    if |actions| > 0 {
      RunAsWrittenKeepsValid(StepAsWritten(s, actions[0]), actions[1..]);
    }
  }
}
