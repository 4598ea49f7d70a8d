/** The filter box: whether the cursor is over it, how key presses edit the
    filter text, and which satellites (and labels) the text leaves visible. */
module Ui {
  import opened Wrappers
  import opened Scene

  // ---------------------------------------------------------------------------
  // Focus
  // ---------------------------------------------------------------------------

  /** A cursor position in window pixels, origin at the top left. */
  datatype Point = Point(x: real, y: real)

  /** The input field's screen rectangle, bounds included. */
  const FieldLeft: real := 10.0
  const FieldRight: real := 410.0
  const FieldTop: real := 10.0
  const FieldBottom: real := 60.0

  /** `check_input_focus`. `window` is `None` when there is no window, in which
      case the focus flag is left as it was; otherwise it holds the cursor
      position, `None` when the cursor is outside the window. */
  function CheckInputFocus(focused: bool, window: Option<Option<Point>>): (r: bool)
    ensures window.None? ==> r == focused
    ensures window.Some? ==> (r <==>
      window.value.Some? && FieldLeft <= window.value.value.x <= FieldRight
                         && FieldTop <= window.value.value.y <= FieldBottom)
  {
    match window
    case None => focused
    case Some(None) => false
    case Some(Some(c)) => c.x >= 10.0 && c.x <= 410.0 && c.y >= 10.0 && c.y <= 60.0
  }

  /** With a window the previous focus is forgotten: the cursor alone
      decides. So checking twice against the same cursor is checking once. */
  lemma FocusStable(f1: bool, f2: bool, window: Option<Option<Point>>)
    ensures window.Some? ==> CheckInputFocus(f1, window) == CheckInputFocus(f2, window)
    ensures CheckInputFocus(CheckInputFocus(f1, window), window) == CheckInputFocus(f1, window)
  {
  }

  /** The rectangle's edges count as inside; a hair beyond them does not. */
  lemma FocusEdges(focused: bool)
    ensures CheckInputFocus(focused, Some(Some(Point(FieldLeft, FieldTop))))
    ensures CheckInputFocus(focused, Some(Some(Point(FieldRight, FieldBottom))))
    ensures !CheckInputFocus(focused, Some(Some(Point(FieldRight + 0.001, FieldTop))))
    ensures !CheckInputFocus(focused, Some(Some(Point(FieldLeft, FieldTop - 0.001))))
  {
  }

  // ---------------------------------------------------------------------------
  // Keys
  // ---------------------------------------------------------------------------

  /** The keys the filter box reacts to, plus every other key as `Other`. */
  datatype KeyCode =
    | KeyA | KeyB | KeyC | KeyD | KeyE | KeyF | KeyG | KeyH | KeyI | KeyJ | KeyK | KeyL | KeyM | KeyN | KeyO | KeyP | KeyQ | KeyR | KeyS | KeyT | KeyU | KeyV | KeyW | KeyX | KeyY | KeyZ
    | Digit0 | Digit1 | Digit2 | Digit3 | Digit4 | Digit5 | Digit6 | Digit7 | Digit8 | Digit9
    | Space | Minus | Backspace | ShiftLeft | ShiftRight | Other

  /** `key_to_char`. */
  function KeyToChar(key: KeyCode, shift: bool): (r: Option<char>)
    ensures r.None? <==> key == Backspace || key == ShiftLeft || key == ShiftRight || key == Other
    ensures r.Some? ==> InAlphabet(r.value)
  {
    match key
    case KeyA => Some(if shift then 'A' else 'a')
    case KeyB => Some(if shift then 'B' else 'b')
    case KeyC => Some(if shift then 'C' else 'c')
    case KeyD => Some(if shift then 'D' else 'd')
    case KeyE => Some(if shift then 'E' else 'e')
    case KeyF => Some(if shift then 'F' else 'f')
    case KeyG => Some(if shift then 'G' else 'g')
    case KeyH => Some(if shift then 'H' else 'h')
    case KeyI => Some(if shift then 'I' else 'i')
    case KeyJ => Some(if shift then 'J' else 'j')
    case KeyK => Some(if shift then 'K' else 'k')
    case KeyL => Some(if shift then 'L' else 'l')
    case KeyM => Some(if shift then 'M' else 'm')
    case KeyN => Some(if shift then 'N' else 'n')
    case KeyO => Some(if shift then 'O' else 'o')
    case KeyP => Some(if shift then 'P' else 'p')
    case KeyQ => Some(if shift then 'Q' else 'q')
    case KeyR => Some(if shift then 'R' else 'r')
    case KeyS => Some(if shift then 'S' else 's')
    case KeyT => Some(if shift then 'T' else 't')
    case KeyU => Some(if shift then 'U' else 'u')
    case KeyV => Some(if shift then 'V' else 'v')
    case KeyW => Some(if shift then 'W' else 'w')
    case KeyX => Some(if shift then 'X' else 'x')
    case KeyY => Some(if shift then 'Y' else 'y')
    case KeyZ => Some(if shift then 'Z' else 'z')
    case Digit0 => Some('0')
    case Digit1 => Some('1')
    case Digit2 => Some('2')
    case Digit3 => Some('3')
    case Digit4 => Some('4')
    case Digit5 => Some('5')
    case Digit6 => Some('6')
    case Digit7 => Some('7')
    case Digit8 => Some('8')
    case Digit9 => Some('9')
    case Space => Some(' ')
    case Minus => Some(if shift then '_' else '-')
    case _ => None
  }

  /** How many keys the editor polls each frame. */
  const PolledCount: nat := 38

  /** The i-th key in polling order: the letters, the digits, Space, Minus. */
  function PolledKey(i: nat): KeyCode
    requires i < PolledCount
  {
    match i
    case 0 => KeyA
    case 1 => KeyB
    case 2 => KeyC
    case 3 => KeyD
    case 4 => KeyE
    case 5 => KeyF
    case 6 => KeyG
    case 7 => KeyH
    case 8 => KeyI
    case 9 => KeyJ
    case 10 => KeyK
    case 11 => KeyL
    case 12 => KeyM
    case 13 => KeyN
    case 14 => KeyO
    case 15 => KeyP
    case 16 => KeyQ
    case 17 => KeyR
    case 18 => KeyS
    case 19 => KeyT
    case 20 => KeyU
    case 21 => KeyV
    case 22 => KeyW
    case 23 => KeyX
    case 24 => KeyY
    case 25 => KeyZ
    case 26 => Digit0
    case 27 => Digit1
    case 28 => Digit2
    case 29 => Digit3
    case 30 => Digit4
    case 31 => Digit5
    case 32 => Digit6
    case 33 => Digit7
    case 34 => Digit8
    case 35 => Digit9
    case 36 => Space
    case _ => Minus
  }

  /** The keys polled each frame, in polling order. */
  function FilterKeys(): seq<KeyCode>
  {
    seq(PolledCount, i requires 0 <= i < PolledCount => PolledKey(i))
  }

  /** Every polled key produces a character. */
  lemma PolledKeysMap(shift: bool)
    ensures forall i :: 0 <= i < PolledCount ==> KeyToChar(PolledKey(i), shift).Some?
  {
  }

  predicate IsAsciiUpper(c: char) { 'A' <= c <= 'Z' }
  predicate IsAsciiLower(c: char) { 'a' <= c <= 'z' }

  /** The characters the filter text can contain. */
  predicate InAlphabet(c: char)
  {
    IsAsciiLower(c) || IsAsciiUpper(c) || '0' <= c <= '9' || c == ' ' || c == '-' || c == '_'
  }

  /** ASCII lower-casing of one character. */
  function Lower(c: char): (r: char)
    ensures IsAsciiUpper(c) ==> IsAsciiLower(r)
    ensures !IsAsciiUpper(c) ==> r == c
  {
    if IsAsciiUpper(c) then (c as int - 'A' as int + 'a' as int) as char else c
  }

  /** Every character a key produces is one of the alphabet. */
  lemma KeyToCharAlphabet(key: KeyCode, shift: bool)
    ensures KeyToChar(key, shift).Some? ==> InAlphabet(KeyToChar(key, shift).value)
  {
  }

  /** The place of a key in polling order, for every key with a character. */
  function PolledIndex(key: KeyCode): (i: nat)
    requires key != Backspace && key != ShiftLeft && key != ShiftRight && key != Other
    ensures i < PolledCount && PolledKey(i) == key
  {
    match key
    case KeyA => 0
    case KeyB => 1
    case KeyC => 2
    case KeyD => 3
    case KeyE => 4
    case KeyF => 5
    case KeyG => 6
    case KeyH => 7
    case KeyI => 8
    case KeyJ => 9
    case KeyK => 10
    case KeyL => 11
    case KeyM => 12
    case KeyN => 13
    case KeyO => 14
    case KeyP => 15
    case KeyQ => 16
    case KeyR => 17
    case KeyS => 18
    case KeyT => 19
    case KeyU => 20
    case KeyV => 21
    case KeyW => 22
    case KeyX => 23
    case KeyY => 24
    case KeyZ => 25
    case Digit0 => 26
    case Digit1 => 27
    case Digit2 => 28
    case Digit3 => 29
    case Digit4 => 30
    case Digit5 => 31
    case Digit6 => 32
    case Digit7 => 33
    case Digit8 => 34
    case Digit9 => 35
    case Space => 36
    case Minus => 37
  }

  /** Exactly the polled keys produce a character. */
  lemma KeyToCharDomain(key: KeyCode, shift: bool)
    ensures KeyToChar(key, shift).Some? <==> key in FilterKeys()
  {
    if KeyToChar(key, shift).Some? {
      var i := PolledIndex(key);
      assert FilterKeys()[i] == key;
    } else {
      PolledKeysMap(shift);
      forall i | 0 <= i < |FilterKeys()|
        ensures FilterKeys()[i] != key
      {
        assert KeyToChar(FilterKeys()[i], shift).Some?;
      }
    }
  }

  /** Shift selects upper case on letters and `_` on Minus and changes nothing
      else; the unshifted letter is the lower case of the shifted one. */
  lemma KeyToCharShift(key: KeyCode)
    ensures KeyToChar(key, true).Some? <==> KeyToChar(key, false).Some?
    ensures KeyToChar(key, true).Some? && key != Minus ==>
      Lower(KeyToChar(key, true).value) == KeyToChar(key, false).value
    ensures KeyToChar(key, true).Some? && key != Minus ==>
      (IsAsciiUpper(KeyToChar(key, true).value) <==> IsAsciiLower(KeyToChar(key, false).value))
    ensures KeyToChar(key, true).Some? && !IsAsciiLower(KeyToChar(key, false).value) && key != Minus ==>
      KeyToChar(key, true) == KeyToChar(key, false)
    ensures KeyToChar(Minus, true) == Some('_') && KeyToChar(Minus, false) == Some('-')
  {
  }

  // ---------------------------------------------------------------------------
  // Editing the filter text
  // ---------------------------------------------------------------------------

  /** The keyboard as one frame sees it: keys that went down this frame, and keys held. */
  datatype Keyboard = Keyboard(justPressed: set<KeyCode>, pressed: set<KeyCode>)

  predicate Shift(kb: Keyboard)
  {
    ShiftLeft in kb.pressed || ShiftRight in kb.pressed
  }

  /** `String::pop`, keeping only the string: the last character goes, if any. */
  function Pop(text: string): (r: string)
    ensures |r| == if text == [] then 0 else |text| - 1
    ensures r <= text
  {
    if text == [] then [] else text[..|text| - 1]
  }

  /** Popping undoes pushing. */
  lemma PopPush(text: string, c: char)
    ensures Pop(text + [c]) == text
  {
    assert (text + [c])[..|text|] == text;
  }

  /** The characters typed by the just-pressed keys among `keys`, in the order of `keys`. */
  function Typed(keys: seq<KeyCode>, justPressed: set<KeyCode>, shift: bool): (r: string)
    ensures |r| <= |keys|
  {
    if keys == [] then []
    else
      var last := keys[|keys| - 1];
      Typed(keys[..|keys| - 1], justPressed, shift)
        + (if last in justPressed && KeyToChar(last, shift).Some? then [KeyToChar(last, shift).value] else [])
  }

  /** The text after one focused frame: Backspace first, then the typed keys. */
  function EditedText(text: string, kb: Keyboard): string
  {
    (if Backspace in kb.justPressed then Pop(text) else text) + Typed(FilterKeys(), kb.justPressed, Shift(kb))
  }

  /** Whether a polled key went down. */
  predicate AnyPolledKey(kb: Keyboard)
  {
    exists k :: k in kb.justPressed && k in FilterKeys()
  }

  /** `update_filter_text`. Unfocused, nothing happens. Focused, Backspace drops
      the last character, every polled key that went down this frame appends
      its character in polling order, and the display shows the new text.
      `changed` is the resource's change flag: set by any mutable access,
      i.e. by Backspace (even on an empty text) or by any typed key. */
  method UpdateFilterText(text: string, display: string, focused: bool, kb: Keyboard)
    returns (newText: string, newDisplay: string, changed: bool)
    ensures !focused ==> newText == text && newDisplay == display && !changed
    ensures focused ==> newText == EditedText(text, kb) && newDisplay == newText
    ensures changed <==> focused && (Backspace in kb.justPressed || AnyPolledKey(kb))
  {
    if !focused {
      return text, display, false;
    }
    var base := if Backspace in kb.justPressed then Pop(text) else text;
    var shift := ShiftLeft in kb.pressed || ShiftRight in kb.pressed;
    var typed;
    newText, typed := TypeKeys(base, kb.justPressed, shift);
    TypedEmptyIff(kb, shift);
    changed := Backspace in kb.justPressed || typed;
    newDisplay := newText;
  }

  /** The polling loop of `update_filter_text`: each polled key that went
      down appends its character, in polling order; `typed` tells whether
      anything was appended. */
  method TypeKeys(text: string, justPressed: set<KeyCode>, shift: bool) returns (r: string, typed: bool)
    ensures r == text + Typed(FilterKeys(), justPressed, shift)
    ensures typed <==> Typed(FilterKeys(), justPressed, shift) != []
  {
    r, typed := TypeRun(text, FilterKeys(), justPressed, shift);
  }

  /** The polling loop over any run of keys. */
  method TypeRun(text: string, keys: seq<KeyCode>, justPressed: set<KeyCode>, shift: bool) returns (r: string, typed: bool)
    ensures r == text + Typed(keys, justPressed, shift)
    ensures typed <==> Typed(keys, justPressed, shift) != []
  {
    r := text;
    typed := false;
    var i := 0;
    while i < |keys|
      invariant 0 <= i <= |keys|
      invariant r == text + Typed(keys[..i], justPressed, shift)
      invariant typed <==> Typed(keys[..i], justPressed, shift) != []
    {
      TypedStep(keys, i, justPressed, shift);
      r, typed := TypeKey(r, typed, keys[i], justPressed, shift);
      i := i + 1;
    }
    assert keys[..|keys|] == keys;
  }

  /** One polled key: when it went down and has a character, push that character. */
  method TypeKey(text: string, typed: bool, key: KeyCode, justPressed: set<KeyCode>, shift: bool)
    returns (r: string, typed': bool)
    ensures var piece := if key in justPressed && KeyToChar(key, shift).Some? then [KeyToChar(key, shift).value] else [];
      r == text + piece && (typed' <==> typed || piece != [])
  {
    r, typed' := text, typed;
    if key in justPressed {
      var ch := KeyToChar(key, shift);
      if ch.Some? {
        r := r + [ch.value];
        typed' := true;
      }
    }
  }

  /** Extending the keys by one appends that key's character when it went down. */
  lemma TypedStep(keys: seq<KeyCode>, i: nat, justPressed: set<KeyCode>, shift: bool)
    requires i < |keys|
    ensures Typed(keys[..i + 1], justPressed, shift) == Typed(keys[..i], justPressed, shift)
      + (if keys[i] in justPressed && KeyToChar(keys[i], shift).Some? then [KeyToChar(keys[i], shift).value] else [])
  {
    assert keys[..i + 1][..i] == keys[..i];
  }

  /** Some character is typed exactly when some polled key went down, because
      every polled key produces one. */
  lemma TypedEmptyIff(kb: Keyboard, shift: bool)
    ensures Typed(FilterKeys(), kb.justPressed, shift) != [] <==> AnyPolledKey(kb)
  {
    TypedNonEmpty(FilterKeys(), kb.justPressed, shift);
    if AnyPolledKey(kb) {
      var k :| k in kb.justPressed && k in FilterKeys();
      KeyToCharDomain(k, shift);
    } else {
      forall j | 0 <= j < |FilterKeys()|
        ensures !(FilterKeys()[j] in kb.justPressed && KeyToChar(FilterKeys()[j], shift).Some?)
      {
        assert FilterKeys()[j] in FilterKeys();
      }
    }
  }

  lemma {:induction false} TypedNonEmpty(keys: seq<KeyCode>, justPressed: set<KeyCode>, shift: bool)
    ensures Typed(keys, justPressed, shift) != [] <==>
      exists j :: 0 <= j < |keys| && keys[j] in justPressed && KeyToChar(keys[j], shift).Some?
  {
    if keys != [] {
      var init := keys[..|keys| - 1];
      var last := keys[|keys| - 1];
      TypedNonEmpty(init, justPressed, shift);
      var lastTypes := last in justPressed && KeyToChar(last, shift).Some?;
      assert Typed(keys, justPressed, shift) != [] <==> Typed(init, justPressed, shift) != [] || lastTypes;
      if exists j :: 0 <= j < |init| && init[j] in justPressed && KeyToChar(init[j], shift).Some? {
        var j :| 0 <= j < |init| && init[j] in justPressed && KeyToChar(init[j], shift).Some?;
        assert keys[j] == init[j];
      }
      if exists j :: 0 <= j < |keys| && keys[j] in justPressed && KeyToChar(keys[j], shift).Some? {
        var j :| 0 <= j < |keys| && keys[j] in justPressed && KeyToChar(keys[j], shift).Some?;
        if j < |init| {
          assert init[j] == keys[j];
        }
      }
    }
  }

  predicate AllInAlphabet(text: string)
  {
    forall i :: 0 <= i < |text| ==> InAlphabet(text[i])
  }

  lemma {:induction false} TypedInAlphabet(keys: seq<KeyCode>, justPressed: set<KeyCode>, shift: bool)
    ensures AllInAlphabet(Typed(keys, justPressed, shift))
  {
    if keys != [] {
      var last := keys[|keys| - 1];
      TypedInAlphabet(keys[..|keys| - 1], justPressed, shift);
      KeyToCharAlphabet(last, shift);
    }
  }

  /** An edit keeps the text inside the alphabet. */
  lemma EditKeepsAlphabet(text: string, kb: Keyboard)
    requires AllInAlphabet(text)
    ensures AllInAlphabet(EditedText(text, kb))
  {
    TypedInAlphabet(FilterKeys(), kb.justPressed, Shift(kb));
    var base := if Backspace in kb.justPressed then Pop(text) else text;
    assert AllInAlphabet(base) by {
      forall i | 0 <= i < |base| ensures InAlphabet(base[i]) {
        assert base[i] == text[i];
      }
    }
  }

  /** The text after a run of frames, each either focused or not. */
  function AfterFrames(text: string, frames: seq<(bool, Keyboard)>): string
  {
    if frames == [] then text
    else
      var before := AfterFrames(text, frames[..|frames| - 1]);
      var frame := frames[|frames| - 1];
      if frame.0 then EditedText(before, frame.1) else before
  }

  /** Starting from the empty filter, no run of frames ever puts a character
      outside `[a-zA-Z0-9 _-]` into the text. */
  lemma {:induction false} FilterTextAlphabet(frames: seq<(bool, Keyboard)>)
    ensures AllInAlphabet(AfterFrames([], frames))
  {
    if frames != [] {
      FilterTextAlphabet(frames[..|frames| - 1]);
      var before := AfterFrames([], frames[..|frames| - 1]);
      if frames[|frames| - 1].0 {
        EditKeepsAlphabet(before, frames[|frames| - 1].1);
      }
    }
  }

  /** Keys between positions lo and hi that did not go down add nothing. */
  lemma {:induction false} TypedSkip(keys: seq<KeyCode>, justPressed: set<KeyCode>, shift: bool, lo: nat, hi: nat)
    requires lo <= hi <= |keys|
    requires forall j :: lo <= j < hi ==> keys[j] !in justPressed
    ensures Typed(keys[..hi], justPressed, shift) == Typed(keys[..lo], justPressed, shift)
  {
    if lo < hi {
      assert keys[..hi][..hi - 1] == keys[..hi - 1];
      TypedSkip(keys, justPressed, shift, lo, hi - 1);
    }
  }

  /** Keys pressed together are appended in polling order, not pressing order. */
  lemma PollingOrder()
    ensures EditedText("xy", Keyboard({KeyB, KeyA}, {})) == "xyab"
  {
    var keys := FilterKeys();
    assert keys[..38] == keys;
    var ab: set<KeyCode> := {KeyB, KeyA};
    TypedSkip(keys, ab, false, 2, 38);
    assert keys[..2][..1] == keys[..1];
    assert keys[..1][..0] == [];
    assert keys[0] == KeyA && keys[1] == KeyB;
    assert Typed(keys[..1], ab, false) == "a";
    assert Typed(keys[..2], ab, false) == "ab";
  }

  /** Backspace is applied before the typed keys, and Shift turns Minus into `_`. */
  lemma BackspaceThenType()
    ensures EditedText("xy", Keyboard({Backspace, Digit1, Minus}, {ShiftLeft})) == "x1_"
  {
    var keys := FilterKeys();
    var bs: set<KeyCode> := {Backspace, Digit1, Minus};
    assert keys[..38] == keys;
    TypedSkip(keys, bs, true, 0, 27);
    TypedSkip(keys, bs, true, 28, 37);
    assert keys[..38][..37] == keys[..37];
    assert keys[..28][..27] == keys[..27];
    assert keys[..0] == [];
    assert keys[27] == Digit1 && keys[37] == Minus;
    assert Typed(keys[..28], bs, true) == "1";
    assert Typed(keys[..38], bs, true) == "1_";
  }

  /** Backspace on an empty text leaves it empty. */
  lemma BackspaceOnEmpty()
    ensures EditedText("", Keyboard({Backspace}, {})) == ""
  {
    var keys := FilterKeys();
    assert keys[..38] == keys;
    TypedSkip(keys, {Backspace}, false, 0, 38);
    assert keys[..0] == [];
  }

  // ---------------------------------------------------------------------------
  // Filtering satellites
  // ---------------------------------------------------------------------------

  /** `str::to_lowercase` on ASCII text; other characters are kept as they are. */
  function AsciiLowercase(s: string): (r: string)
    ensures |r| == |s|
    ensures forall i :: 0 <= i < |s| ==> r[i] == Lower(s[i])
  {
    seq(|s|, i requires 0 <= i < |s| => Lower(s[i]))
  }

  /** `str::contains`: whether `needle` occurs in `hay` at some position. */
  predicate Contains(hay: string, needle: string)
    decreases |hay|
  {
    needle <= hay || (hay != [] && Contains(hay[1..], needle))
  }

  /** `needle` occurs in `hay` starting at offset i. */
  predicate OccursAt(hay: string, needle: string, i: int)
  {
    0 <= i <= |hay| - |needle| && hay[i..i + |needle|] == needle
  }

  /** `Contains` is occurrence at some offset. */
  lemma {:induction false} ContainsIff(hay: string, needle: string)
    ensures Contains(hay, needle) <==> exists i :: OccursAt(hay, needle, i)
    decreases |hay|
  {
    if needle <= hay {
      assert OccursAt(hay, needle, 0);
    } else if hay != [] {
      ContainsIff(hay[1..], needle);
      if i :| OccursAt(hay[1..], needle, i) {
        assert OccursAt(hay, needle, i + 1) by {
          assert hay[i + 1..i + 1 + |needle|] == hay[1..][i..i + |needle|];
        }
      }
      if i :| OccursAt(hay, needle, i) {
        assert i != 0;
        assert OccursAt(hay[1..], needle, i - 1) by {
          assert hay[1..][i - 1..i - 1 + |needle|] == hay[i..i + |needle|];
        }
      }
    }
  }

  /** Whether a satellite passes the filter: every one when the filter is
      empty, otherwise those whose lower-cased name contains the lower-cased filter. */
  predicate ShouldShow(name: string, filter: string): (show: bool)
    ensures show <==> filter == [] || exists i :: OccursAt(AsciiLowercase(name), AsciiLowercase(filter), i)
  {
    ContainsIff(AsciiLowercase(name), AsciiLowercase(filter));
    filter == [] || Contains(AsciiLowercase(name), AsciiLowercase(filter))
  }

  /** A satellite entity as the filter sees it. `labelVisibility` is the visibility of
      its label entity, `None` when it has none or the lookup fails. */
  datatype SatelliteRow = SatelliteRow(name: string, visibility: Visibility, labelVisibility: Option<Visibility>)

  /** `filter_satellites`: when the filter resource changed, each satellite
      becomes `Visible` or `Hidden` by `ShouldShow`, and its label (if any)
      copies the satellite's new visibility; otherwise nothing changes. */
  function FilterSatellites(changed: bool, filter: string, rows: seq<SatelliteRow>): (r: seq<SatelliteRow>)
    ensures |r| == |rows|
    ensures forall k :: 0 <= k < |rows| ==> r[k].name == rows[k].name
    ensures forall k :: 0 <= k < |rows| ==> r[k].labelVisibility.Some? == rows[k].labelVisibility.Some?
  {
    if !changed then rows
    else
      seq(|rows|, k requires 0 <= k < |rows| =>
        var v := if ShouldShow(rows[k].name, filter) then Visible else Hidden;
        SatelliteRow(rows[k].name, v, if rows[k].labelVisibility.Some? then Some(v) else None))
  }

  /** After a change, a satellite is visible exactly when the filter is empty
      or occurs, ignoring ASCII case, somewhere in its name; it is hidden
      otherwise, and its label agrees with it. */
  lemma FilterVisibleIff(filter: string, rows: seq<SatelliteRow>, k: int)
    requires 0 <= k < |rows|
    ensures var r := FilterSatellites(true, filter, rows)[k];
      && (r.visibility == Visible <==>
            filter == [] || exists i :: OccursAt(AsciiLowercase(rows[k].name), AsciiLowercase(filter), i))
      && (r.visibility == Visible || r.visibility == Hidden)
      && (r.labelVisibility.Some? ==> r.labelVisibility.value == r.visibility)
  {
    ContainsIff(AsciiLowercase(rows[k].name), AsciiLowercase(filter));
  }

  /** Without a change the entities keep whatever visibility they had. */
  lemma FilterUnchanged(filter: string, rows: seq<SatelliteRow>)
    ensures FilterSatellites(false, filter, rows) == rows
  {
  }

  lemma LowercaseIdempotent(s: string)
    ensures AsciiLowercase(AsciiLowercase(s)) == AsciiLowercase(s)
  {
  }

  /** Matching ignores ASCII case on both sides: a filter and its lower-cased
      form select the same satellites, and so do a name and its lower-cased form. */
  lemma FilterIgnoresCase(name: string, filter: string)
    ensures ShouldShow(name, filter) == ShouldShow(name, AsciiLowercase(filter))
    ensures ShouldShow(name, filter) == ShouldShow(AsciiLowercase(name), filter)
  {
    LowercaseIdempotent(filter);
    LowercaseIdempotent(name);
  }

  /** Every name passes a filter equal to itself, and every name passes a filter
      made of one of its own slices. */
  lemma NameMatchesItsSlices(name: string, filter: string, i: int, j: int)
    requires 0 <= i <= j <= |name|
    ensures ShouldShow(name, name)
    ensures ShouldShow(name, name[i..j])
  {
    var lname := AsciiLowercase(name);
    ContainsIff(lname, lname);
    assert OccursAt(lname, lname, 0) by {
      assert lname[0..|lname|] == lname;
    }
    var lf := AsciiLowercase(name[i..j]);
    assert OccursAt(lname, lf, i) by {
      assert lname[i..i + |lf|] == lf;
    }
    ContainsIff(lname, lf);
  }
}
