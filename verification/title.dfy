/**
  The title header of the content area (app/page.tsx): the dimmed-placeholder test,
  the text that is measured, the date/time line and the width the title input and its
  underline are given. Rendered widths are measured by the browser and are parameters.
 */
module Title {

  /**
    The characters `String.prototype.trim` removes: ECMAScript WhiteSpace (tab, vertical
    tab, form feed, space, no-break space, zero-width no-break space and the Unicode
    space separators) and LineTerminator (line feed, carriage return, U+2028, U+2029).
   */
  predicate IsJsWhitespace(c: char) {
    var n := c as int;
    || n == 0x09 || n == 0x0A || n == 0x0B || n == 0x0C || n == 0x0D || n == 0x20
    || n == 0xA0 || n == 0x1680 || (0x2000 <= n <= 0x200A)
    || n == 0x2028 || n == 0x2029 || n == 0x202F || n == 0x205F || n == 0x3000 || n == 0xFEFF
  }

  predicate AllWhitespace(s: string) {
    forall i :: 0 <= i < |s| ==> IsJsWhitespace(s[i])
  }

  function TrimStart(s: string): (r: string)
    ensures |r| <= |s| && r == s[|s| - |r|..]
    ensures r == [] || !IsJsWhitespace(r[0])
    ensures AllWhitespace(s[..|s| - |r|])
  {
    if |s| > 0 && IsJsWhitespace(s[0]) then TrimStart(s[1..]) else s
  }

  function TrimEnd(s: string): (r: string)
    ensures |r| <= |s| && r == s[..|r|]
    ensures r == [] || !IsJsWhitespace(r[|r| - 1])
    ensures AllWhitespace(s[|r|..])
  {
    if |s| > 0 && IsJsWhitespace(s[|s| - 1]) then TrimEnd(s[..|s| - 1]) else s
  }

  /** `r` is the stretch of `s` starting at `i`, with nothing but whitespace before and after it. */
  predicate Framed(s: string, r: string, i: nat) {
    && i + |r| <= |s|
    && r == s[i..i + |r|]
    && AllWhitespace(s[..i])
    && AllWhitespace(s[i + |r|..])
  }

  /** `name.trim()`: drops leading and trailing whitespace and nothing else. */
  function Trim(s: string): (r: string)
    ensures |r| <= |s|
    ensures r == [] || (!IsJsWhitespace(r[0]) && !IsJsWhitespace(r[|r| - 1]))
    ensures exists i :: Framed(s, r, i)
  {
    var a := TrimStart(s);
    var r := TrimEnd(a);
    TrimWitness(s, a, r);
    r
  }

  /** Trimming the end after the start: the result sits between two all-whitespace stretches of the input. */
  lemma TrimWitness(s: string, a: string, r: string)
    requires |a| <= |s| && a == s[|s| - |a|..] && AllWhitespace(s[..|s| - |a|])
    requires a == [] || !IsJsWhitespace(a[0])
    requires |r| <= |a| && r == a[..|r|] && AllWhitespace(a[|r|..])
    requires r == [] || !IsJsWhitespace(r[|r| - 1])
    ensures |r| <= |s|
    ensures r == [] || (!IsJsWhitespace(r[0]) && !IsJsWhitespace(r[|r| - 1]))
    ensures exists i :: Framed(s, r, i)
  {
    var i := |s| - |a|;
    assert s[i + |r|..] == a[|r|..];
    assert r == s[i..i + |r|];
    assert Framed(s, r, i);
  }

  /** Trimming leaves nothing exactly when every character is whitespace. */
  lemma TrimEmptyIff(s: string)
    ensures Trim(s) == "" <==> AllWhitespace(s)
  {
  }

  /** The title is shown dimmed when it is the default name or blank after trimming. */
  function IsUntitled(pageName: string): (r: bool)
    ensures r <==> pageName == "Untitled" || AllWhitespace(pageName)
  {
    TrimEmptyIff(pageName);
    pageName == "Untitled" || Trim(pageName) == ""
  }

  /** The text measured for the underline: the name, or the placeholder when it is empty. */
  function DisplayText(pageName: string): (r: string)
    ensures r != ""
    ensures pageName != "" ==> r == pageName
    ensures pageName == "" ==> r == "Untitled"
  {
    if pageName != "" then pageName else "Untitled"
  }

  /** The date line is rendered only when both strings are non-empty. */
  predicate ShowsDateLine(date: string, time: string) {
    date != "" && time != ""
  }

  /** The measured date/time text: "<date> <time>", or nothing when either part is missing. */
  function DateTimeText(date: string, time: string): (r: string)
    ensures r != "" <==> ShowsDateLine(date, time)
    ensures ShowsDateLine(date, time) ==>
      |r| == |date| + 1 + |time| && r[..|date|] == date && r[|date|] == ' ' && r[|date| + 1..] == time
  {
    if date != "" && time != "" then date + " " + time else ""
  }

  const MinWidth: nat := 200

  /** `Math.max(a, b)` on widths. */
  function Max(a: nat, b: nat): nat {
    if a < b then b else a
  }

  /**
    The pixel width of the title input and its underline: the larger measured width,
    with 0 (falsy) replaced by the 200-pixel floor, and never below the floor.
   */
  function TitleWidth(underlineWidth: nat, dateTimeWidth: nat): (r: nat)
    ensures r >= MinWidth && r >= underlineWidth && r >= dateTimeWidth
    ensures r == underlineWidth || r == dateTimeWidth || r == MinWidth
  {
    var finalUnderlineWidth := Max(underlineWidth, dateTimeWidth);
    var orDefault := if finalUnderlineWidth == 0 then MinWidth else finalUnderlineWidth;
    Max(orDefault, MinWidth)
  }

  lemma TitleWidthWithNothingMeasured()
    ensures TitleWidth(0, 0) == MinWidth
  {
  }
}
