/**
 * The partial-colour title of a "what's new" title slide.
 *
 * The text is a sequence of characters, one element per user-perceived
 * character (a Swift `Character`). The attributed string Foundation builds
 * from it is modelled as the same characters plus at most one
 * foreground-colour attribute over a range. Foundation measures that range in
 * UTF-16 code units; the `Utf16` part at the end of this module states the
 * one-unit-per-character assumption under which both measures agree.
 */
module AttributedTitle {
  import opened Wrappers

  /** An opaque UIKit colour; the model only compares colours for identity. */
  datatype Color = Color(name: string)

  /** The secondary-colour configuration: colour `length` characters from `startIndex` with `color`. */
  datatype SecondaryColor = SecondaryColor(startIndex: nat, length: nat, color: Color)

  /** A foreground-colour attribute over the range that starts at `location` and spans `length` units. */
  datatype ColorAttribute = ColorAttribute(location: nat, length: nat, color: Color)

  /** An attributed string: its characters and at most one foreground-colour attribute. */
  datatype AttributedString = AttributedString(text: seq<char>, foreground: Option<ColorAttribute>)

  /** What a label shows: plain text, or an attributed string. */
  datatype LabelText = Text(text: seq<char>) | Attributed(attributed: AttributedString)

  /** Swift's `dropFirst(k)`: the text without its first `k` characters, empty once `k` passes the end. */
  function DropFirst(text: seq<char>, k: nat): (tail: seq<char>)
    ensures k <= |text| ==> |tail| + k == |text|
    ensures k >= |text| ==> tail == []
    ensures forall i :: 0 <= i < |tail| ==> tail[i] == text[k + i]
  {
    if k <= |text| then text[k..] else []
  }

  /** The guard of the builder: the tail left after `startIndex` holds at least `length` characters. */
  predicate TailLongEnough(text: seq<char>, secondary: SecondaryColor) {
    |DropFirst(text, secondary.startIndex)| >= secondary.length
  }

  /**
   * The attributed title: the text, coloured over
   * [startIndex, startIndex + length) when the tail after `startIndex` is
   * long enough, and left without any colour attribute otherwise.
   */
  function Build(text: seq<char>, secondary: SecondaryColor): (r: AttributedString)
    ensures r.text == text
    ensures r.foreground.Some? <==>
              secondary.length == 0 || secondary.startIndex + secondary.length <= |text|
    ensures r.foreground.Some? ==>
              r.foreground.value == ColorAttribute(secondary.startIndex, secondary.length, secondary.color)
  {
    var attributed := AttributedString(text, None);
    if TailLongEnough(text, secondary) then
      attributed.(foreground := Some(ColorAttribute(secondary.startIndex, secondary.length, secondary.color)))
    else
      attributed
  }

  /** The colour override at position `i`: the attribute's colour inside its range, `None` (the label's base colour) elsewhere. */
  function ForegroundAt(s: AttributedString, i: nat): Option<Color> {
    match s.foreground
    case None => None
    case Some(a) => if a.location <= i < a.location + a.length then Some(a.color) else None
  }

  /** The characters a label shows, whichever way its text was set. */
  function Characters(l: LabelText): seq<char> {
    match l
    case Text(t) => t
    case Attributed(a) => a.text
  }

  /** The colour override a label applies at position `i`; plain text has none. */
  function LabelForegroundAt(l: LabelText, i: nat): Option<Color> {
    match l
    case Text(_) => None
    case Attributed(a) => ForegroundAt(a, i)
  }

  /** How the title label sets its text: attributed when a secondary colour is configured, plain otherwise. */
  function TitleLabelText(title: seq<char>, secondary: Option<SecondaryColor>): (l: LabelText)
    ensures Characters(l) == title
    ensures l.Attributed? <==> secondary.Some?
    ensures l.Attributed? ==> l.attributed == Build(title, secondary.value)
  {
    match secondary
    case Some(c) => Attributed(Build(title, c))
    case None => Text(title)
  }

  /**
   * Character by character, the built title carries the secondary colour
   * exactly on [startIndex, startIndex + length) when that range lies inside
   * the text, and the base colour everywhere else.
   */
  lemma BuildColorsExactlyTheRange(text: seq<char>, secondary: SecondaryColor, i: nat)
    requires i < |text|
    ensures ForegroundAt(Build(text, secondary), i) ==
              if secondary.startIndex + secondary.length <= |text|
                 && secondary.startIndex <= i < secondary.startIndex + secondary.length
              then Some(secondary.color)
              else None
  {
  }

  /** When the tail is too short, the result is the plain text with no colour attribute at all, not even on a valid prefix. */
  lemma TooShortTailFallsBackToPlain(text: seq<char>, secondary: SecondaryColor)
    requires !TailLongEnough(text, secondary)
    ensures secondary.length > 0
    ensures secondary.startIndex + secondary.length > |text|
    ensures Build(text, secondary) == AttributedString(text, None)
    ensures forall i :: 0 <= i < |text| ==> ForegroundAt(Build(text, secondary), i).None?
  {
  }

  /** With a positive length the guard is exactly "the range ends inside the text". */
  lemma GuardIsBoundsCheck(text: seq<char>, secondary: SecondaryColor)
    requires secondary.length > 0
    ensures TailLongEnough(text, secondary) <==> secondary.startIndex + secondary.length <= |text|
  {
  }

  /**
   * With length 0 the guard holds for every start index, even one past the
   * end of the text: an empty attribute is still attached, colouring nothing.
   */
  lemma EmptyLengthAlwaysAttaches(text: seq<char>, secondary: SecondaryColor)
    requires secondary.length == 0
    ensures TailLongEnough(text, secondary)
    ensures Build(text, secondary).foreground == Some(ColorAttribute(secondary.startIndex, 0, secondary.color))
    ensures forall i :: 0 <= i < |text| ==> ForegroundAt(Build(text, secondary), i).None?
  {
  }

  /** The attached attribute's range ends inside the text unless it is the empty range placed past the end. */
  lemma AttributeRangeInsideText(text: seq<char>, secondary: SecondaryColor)
    requires Build(text, secondary).foreground.Some?
    ensures secondary.startIndex + secondary.length <= |text| <==>
              !(secondary.length == 0 && secondary.startIndex > |text|)
  {
  }

  /** The title label shows the title's characters and colours them as the builder does, or not at all without a secondary colour. */
  lemma LabelColoring(title: seq<char>, secondary: Option<SecondaryColor>, i: nat)
    requires i < |title|
    ensures secondary.None? ==> LabelForegroundAt(TitleLabelText(title, secondary), i).None?
    ensures secondary.Some? ==>
              LabelForegroundAt(TitleLabelText(title, secondary), i) ==
                if secondary.value.startIndex + secondary.value.length <= |title|
                   && secondary.value.startIndex <= i < secondary.value.startIndex + secondary.value.length
                then Some(secondary.value.color)
                else None
  {
  }

  /** "Hello World" coloured from 6 for 5: "World" takes the colour, "Hello " keeps the base colour. */
  lemma HelloWorldColorsWorld(red: Color, i: nat)
    requires i < |"Hello World"|
    ensures ForegroundAt(Build("Hello World", SecondaryColor(6, 5, red)), i) ==
              if i >= 6 then Some(red) else None
  {
  }

  /** "Hi" coloured from 5 for 3: the range passes the end, so the title stays plain. */
  lemma ShortTitleStaysPlain(red: Color)
    ensures Build("Hi", SecondaryColor(5, 3, red)) == AttributedString("Hi", None)
  {
  }

  // ---------------------------------------------------------------------------
  // UTF-16: the guard counts characters, the attribute range counts UTF-16 units.
  // ---------------------------------------------------------------------------

  /** The UTF-16 length of a text whose characters take `widths[i]` code units each. */
  function Utf16Length(widths: seq<nat>): nat {
    if |widths| == 0 then 0 else widths[0] + Utf16Length(widths[1..])
  }

  /** Every character takes at least one UTF-16 code unit. */
  predicate NonEmptyCharacters(widths: seq<nat>) {
    forall i :: 0 <= i < |widths| ==> widths[i] >= 1
  }

  /** The modelling assumption: every character is exactly one UTF-16 code unit. */
  predicate OneUnitPerCharacter(widths: seq<nat>) {
    forall i :: 0 <= i < |widths| ==> widths[i] == 1
  }

  /** The UTF-16 offset of character `k`: the units taken by the characters before it. */
  function Utf16Offset(widths: seq<nat>, k: nat): nat
    requires k <= |widths|
  {
    Utf16Length(widths[..k])
  }

  /** A text never has fewer UTF-16 units than characters. */
  lemma {:induction false} Utf16LengthAtLeastCount(widths: seq<nat>)
    requires NonEmptyCharacters(widths)
    ensures Utf16Length(widths) >= |widths|
  {
    if |widths| > 0 {
      Utf16LengthAtLeastCount(widths[1..]);
    }
  }

  /** Under the one-unit assumption the UTF-16 length is the character count. */
  lemma {:induction false} OneUnitLengthIsCount(widths: seq<nat>)
    requires OneUnitPerCharacter(widths)
    ensures Utf16Length(widths) == |widths|
  {
    if |widths| > 0 {
      OneUnitLengthIsCount(widths[1..]);
    }
  }

  /**
   * Whatever the widths, a range the guard lets through with a positive
   * length ends inside the UTF-16 string: the mismatch of units can shift
   * the coloured characters but never push the range past the end.
   */
  lemma GuardedRangeFitsUtf16(text: seq<char>, widths: seq<nat>, secondary: SecondaryColor)
    requires |widths| == |text|
    requires NonEmptyCharacters(widths)
    requires TailLongEnough(text, secondary)
    requires secondary.length > 0
    ensures secondary.startIndex + secondary.length <= Utf16Length(widths)
  {
    Utf16LengthAtLeastCount(widths);
  }

  /**
   * Under the one-unit assumption the UTF-16 range the attribute covers is
   * exactly the character range [startIndex, startIndex + length).
   */
  lemma OneUnitRangeIsCharacterRange(text: seq<char>, widths: seq<nat>, secondary: SecondaryColor)
    requires |widths| == |text|
    requires OneUnitPerCharacter(widths)
    requires secondary.startIndex + secondary.length <= |text|
    ensures Utf16Offset(widths, secondary.startIndex) == secondary.startIndex
    ensures Utf16Offset(widths, secondary.startIndex + secondary.length) == secondary.startIndex + secondary.length
  {
    OneUnitLengthIsCount(widths[..secondary.startIndex]);
    OneUnitLengthIsCount(widths[..secondary.startIndex + secondary.length]);
  }

  /** The one-unit assumption matters: a two-unit character before the range shifts its UTF-16 location. */
  lemma {:induction false} WideCharacterShiftsOffset(widths: seq<nat>, k: nat)
    requires k <= |widths|
    requires NonEmptyCharacters(widths)
    requires exists j :: 0 <= j < k && widths[j] >= 2
    ensures Utf16Offset(widths, k) > k
  {
    var j :| 0 <= j < k && widths[j] >= 2;
    var prefix := widths[..k];
    var before, rest := prefix[..j], prefix[j + 1..];
    assert prefix == before + ([widths[j]] + rest);
    Utf16LengthConcat(before, [widths[j]] + rest);
    assert ([widths[j]] + rest)[1..] == rest;
    assert Utf16Length([widths[j]] + rest) == widths[j] + Utf16Length(rest);
    assert NonEmptyCharacters(before) && NonEmptyCharacters(rest);
    Utf16LengthAtLeastCount(before);
    Utf16LengthAtLeastCount(rest);
  }

  /** UTF-16 length is additive over concatenation. */
  lemma {:induction false} Utf16LengthConcat(a: seq<nat>, b: seq<nat>)
    ensures Utf16Length(a + b) == Utf16Length(a) + Utf16Length(b)
  {
    if |a| > 0 {
      assert (a + b)[1..] == a[1..] + b;
      Utf16LengthConcat(a[1..], b);
    } else {
      assert a + b == b;
    }
  }
}
