// The editing state machine of a text box: the text, the cursor, the end of
// the 8-code-unit visible slice and the cursor blink cycle.

module TextBoxes {
  import opened Strings

  /** How a call ends: with a value, or with the ArgumentOutOfRangeException
      that .NET's String.Remove, String.Insert and range slicing raise for an
      index outside the string. */
  datatype Outcome<T> = Ok(value: T) | OutOfRange

  /** The text box shows this many code units. */
  const ViewportWidth: int := 8

  /** Focused draws after which the cursor blink flag flips. */
  const BlinkTicks: int := 30

  /** The editing part of the state: the text, the cursor index and the index
      one past the last code unit displayed. */
  datatype EditorState = EditorState(text: NetString, cursor: int, displayEnd: int)

  /** One of the four edit operations. */
  datatype Edit = Remove | Insert(chars: NetString) | Left | Right

  predicate CursorInRange(st: EditorState) {
    0 <= st.cursor <= |st.text|
  }

  /** The slice `Text[(end - 8)..end]` exists. */
  predicate ViewportDefined(st: EditorState) {
    ViewportWidth <= st.displayEnd <= |st.text|
  }

  /** The cursor lies within the visible slice or at one of its ends. */
  predicate CursorInView(st: EditorState) {
    st.displayEnd - ViewportWidth <= st.cursor <= st.displayEnd
  }

  /** The state the constructor leaves: cursor and slice end at the end of the text. */
  function Initial(text: NetString): (st: EditorState)
    ensures st.text == text && CursorInRange(st) && CursorInView(st)
    ensures st.cursor == |text| && st.displayEnd == st.cursor
  {
    EditorState(text, |text|, |text|)
  }

  /** `RemoveCharacter`: delete the code unit before the cursor. */
  function AfterRemove(st: EditorState): Outcome<EditorState> {
    if st.cursor == 0 then Ok(st)
    else if st.cursor - 1 < 0 || st.cursor > |st.text| then OutOfRange
    else Ok(st.(text := st.text[..st.cursor - 1] + st.text[st.cursor..], cursor := st.cursor - 1))
  }

  /** `InsertCharacter(chars)`: insert at the cursor; the cursor advances by one. */
  function AfterInsert(st: EditorState, chars: NetString): Outcome<EditorState> {
    if st.cursor < 0 || st.cursor > |st.text| then OutOfRange
    else Ok(st.(text := st.text[..st.cursor] + chars + st.text[st.cursor..], cursor := st.cursor + 1))
  }

  /** `MoveCursorLeft`. */
  function AfterLeft(st: EditorState): EditorState {
    if st.cursor == 0 then st
    else
      var c := st.cursor - 1;
      if c < st.displayEnd - ViewportWidth then EditorState(st.text, c, st.displayEnd - 1)
      else EditorState(st.text, c, st.displayEnd)
  }

  /** `MoveCursorRight`. */
  function AfterRight(st: EditorState): EditorState {
    if st.cursor == |st.text| then st
    else
      var c := st.cursor + 1;
      if c > st.displayEnd then EditorState(st.text, c, st.displayEnd + 1)
      else EditorState(st.text, c, st.displayEnd)
  }

  function Step(st: EditorState, e: Edit): Outcome<EditorState> {
    match e
    case Remove => AfterRemove(st)
    case Insert(chars) => AfterInsert(st, chars)
    case Left => Ok(AfterLeft(st))
    case Right => Ok(AfterRight(st))
  }

  /** Apply a sequence of edits; an exception ends the sequence. */
  function Run(st: EditorState, es: seq<Edit>): Outcome<EditorState>
    decreases |es|
  {
    if es == [] then Ok(st)
    else match Step(st, es[0])
      case OutOfRange => OutOfRange
      case Ok(next) => Run(next, es[1..])
  }

  /** The state an object holds after a call: the new one, or the old one when the call threw. */
  function Settle(before: EditorState, o: Outcome<EditorState>): EditorState {
    if o.Ok? then o.value else before
  }

  /** The text drawn inside the box. */
  function Viewport(st: EditorState): (r: NetString)
    requires ViewportDefined(st)
    ensures |r| == ViewportWidth
    ensures forall i :: 0 <= i < ViewportWidth ==> r[i] == st.text[st.displayEnd - ViewportWidth + i]
  {
    st.text[st.displayEnd - ViewportWidth .. st.displayEnd]
  }

  predicate NonEmptyInserts(es: seq<Edit>) {
    forall i :: 0 <= i < |es| && es[i].Insert? ==> |es[i].chars| >= 1
  }

  predicate NoRemoves(es: seq<Edit>) {
    forall i :: 0 <= i < |es| ==> !es[i].Remove?
  }

  // ---------------------------------------------------------------------------
  // Properties of a single edit

  lemma RemoveCharacterSpec(st: EditorState)
    ensures st.cursor == 0 ==> AfterRemove(st) == Ok(st)
    ensures AfterRemove(st).OutOfRange? <==> st.cursor < 0 || st.cursor > |st.text|
    ensures 0 < st.cursor <= |st.text| ==>
      var r := AfterRemove(st).value;
      && |r.text| == |st.text| - 1
      && (forall i :: 0 <= i < st.cursor - 1 ==> r.text[i] == st.text[i])
      && (forall i :: st.cursor - 1 <= i < |r.text| ==> r.text[i] == st.text[i + 1])
      && multiset(r.text) + multiset{st.text[st.cursor - 1]} == multiset(st.text)
      && r.cursor == st.cursor - 1
      && r.displayEnd == st.displayEnd
  {
    if 0 < st.cursor <= |st.text| {
      var c := st.cursor;
      assert st.text == st.text[..c - 1] + [st.text[c - 1]] + st.text[c..];
    }
  }

  lemma InsertCharacterSpec(st: EditorState, chars: NetString)
    ensures AfterInsert(st, chars).OutOfRange? <==> !CursorInRange(st)
    ensures CursorInRange(st) ==>
      var r := AfterInsert(st, chars).value;
      && |r.text| == |st.text| + |chars|
      && (forall i :: 0 <= i < st.cursor ==> r.text[i] == st.text[i])
      && (forall i :: 0 <= i < |chars| ==> r.text[st.cursor + i] == chars[i])
      && (forall i :: st.cursor <= i < |st.text| ==> r.text[i + |chars|] == st.text[i])
      && r.cursor == st.cursor + 1
      && r.displayEnd == st.displayEnd
  {
  }

  /** Deleting right after inserting one code unit restores the state. */
  lemma InsertThenRemove(st: EditorState, ch: CodeUnit)
    requires CursorInRange(st)
    ensures AfterInsert(st, [ch]).Ok?
    ensures AfterRemove(AfterInsert(st, [ch]).value) == Ok(st)
  {
    var c := st.cursor;
    var t := st.text[..c] + [ch] + st.text[c..];
    assert t[..c] == st.text[..c];
    assert t[c + 1..] == st.text[c..];
    assert st.text[..c] + st.text[c..] == st.text;
  }

  lemma MoveCursorLeftSpec(st: EditorState)
    ensures st.cursor == 0 ==> AfterLeft(st) == st
    ensures st.cursor != 0 ==>
      && AfterLeft(st).text == st.text
      && AfterLeft(st).cursor == st.cursor - 1
      && (AfterLeft(st).displayEnd == st.displayEnd - 1 <==> st.cursor - 1 < st.displayEnd - ViewportWidth)
      && (AfterLeft(st).displayEnd == st.displayEnd <==> st.cursor - 1 >= st.displayEnd - ViewportWidth)
  {
  }

  lemma MoveCursorRightSpec(st: EditorState)
    ensures st.cursor == |st.text| ==> AfterRight(st) == st
    ensures st.cursor != |st.text| ==>
      && AfterRight(st).text == st.text
      && AfterRight(st).cursor == st.cursor + 1
      && (AfterRight(st).displayEnd == st.displayEnd + 1 <==> st.cursor + 1 > st.displayEnd)
      && (AfterRight(st).displayEnd == st.displayEnd <==> st.cursor + 1 <= st.displayEnd)
  {
  }

  /** A step keeps the cursor in range unless it inserts the empty string. */
  lemma StepKeepsCursorInRange(st: EditorState, e: Edit)
    requires CursorInRange(st)
    requires e.Insert? ==> |e.chars| >= 1
    ensures Step(st, e).Ok? && CursorInRange(Step(st, e).value)
  {
  }

  /** Cursor moves keep the visible slice defined and the cursor inside it. */
  lemma MovesKeepCursorInView(st: EditorState)
    requires CursorInRange(st) && ViewportDefined(st) && CursorInView(st)
    ensures ViewportDefined(AfterLeft(st)) && CursorInView(AfterLeft(st))
    ensures ViewportDefined(AfterRight(st)) && CursorInView(AfterRight(st))
  {
  }

  /** Every step but a deletion keeps the visible slice defined. */
  lemma StepKeepsViewportDefined(st: EditorState, e: Edit)
    requires CursorInRange(st) && ViewportDefined(st) && !e.Remove?
    requires e.Insert? ==> |e.chars| >= 1
    ensures Step(st, e).Ok? && ViewportDefined(Step(st, e).value)
  {
  }

  // ---------------------------------------------------------------------------
  // Properties of edit sequences

  /** Starting in range, any sequence of edits whose inserts are non-empty never
      throws and leaves the cursor in range. */
  lemma {:induction false} EditsKeepCursorInRange(st: EditorState, es: seq<Edit>)
    requires CursorInRange(st) && NonEmptyInserts(es)
    ensures Run(st, es).Ok? && CursorInRange(Run(st, es).value)
    decreases |es|
  {
    if es != [] {
      StepKeepsCursorInRange(st, es[0]);
      assert NonEmptyInserts(es[1..]) by {
        forall i | 0 <= i < |es[1..]| && es[1..][i].Insert? ensures |es[1..][i].chars| >= 1 {
          assert es[1..][i] == es[i + 1];
        }
      }
      EditsKeepCursorInRange(Step(st, es[0]).value, es[1..]);
    }
  }

  /** Only a deletion can take the visible slice out of range. */
  lemma {:induction false} EditsWithoutRemoveKeepViewport(st: EditorState, es: seq<Edit>)
    requires CursorInRange(st) && ViewportDefined(st) && NonEmptyInserts(es) && NoRemoves(es)
    ensures Run(st, es).Ok? && ViewportDefined(Run(st, es).value)
    decreases |es|
  {
    if es != [] {
      StepKeepsViewportDefined(st, es[0]);
      StepKeepsCursorInRange(st, es[0]);
      assert NonEmptyInserts(es[1..]) && NoRemoves(es[1..]) by {
        forall i | 0 <= i < |es[1..]| ensures es[1..][i] == es[i + 1] { }
      }
      EditsWithoutRemoveKeepViewport(Step(st, es[0]).value, es[1..]);
    }
  }

  /** The code units a sequence of edits inserts in total. */
  function InsertedUnits(es: seq<Edit>): nat
    decreases |es|
  {
    if es == [] then 0
    else (if es[0].Insert? then |es[0].chars| else 0) + InsertedUnits(es[1..])
  }

  /** The length of the longest text among the states `Run(st, es)` passes
      through, the first one included. */
  function LongestText(st: EditorState, es: seq<Edit>): (n: nat)
    ensures n >= |st.text|
    decreases |es|
  {
    if es == [] then |st.text|
    else match Step(st, es[0])
      case OutOfRange => |st.text|
      case Ok(next) =>
        var rest := LongestText(next, es[1..]);
        if rest > |st.text| then rest else |st.text|
  }

  /** No text on the way is longer than the first one plus everything inserted. */
  lemma {:induction false} LongestTextAtMostInserted(st: EditorState, es: seq<Edit>)
    ensures LongestText(st, es) <= |st.text| + InsertedUnits(es)
    decreases |es|
  {
    if es != [] && Step(st, es[0]).Ok? {
      LongestTextAtMostInserted(Step(st, es[0]).value, es[1..]);
    }
  }

  /** Only a right move raises the slice end, and then only up to the cursor,
      which is in range: so the slice end never passes `bound` when its start
      and every text on the way stay within it. */
  lemma {:induction false} EditsKeepSliceEndBounded(st: EditorState, es: seq<Edit>, bound: int)
    requires CursorInRange(st) && NonEmptyInserts(es)
    requires st.displayEnd <= bound && LongestText(st, es) <= bound
    ensures Run(st, es).Ok?
    ensures |Run(st, es).value.text| <= bound && Run(st, es).value.displayEnd <= bound
    decreases |es|
  {
    if es != [] {
      StepKeepsCursorInRange(st, es[0]);
      assert NonEmptyInserts(es[1..]) by {
        forall i | 0 <= i < |es[1..]| ensures es[1..][i] == es[i + 1] { }
      }
      EditsKeepSliceEndBounded(Step(st, es[0]).value, es[1..], bound);
    }
  }

  /** The slice end stays at most the larger of its start and the longest the
      text has been. */
  lemma SliceEndAtMostLongestText(st: EditorState, es: seq<Edit>)
    requires CursorInRange(st) && NonEmptyInserts(es)
    ensures Run(st, es).Ok?
    ensures Run(st, es).value.displayEnd <= if st.displayEnd > LongestText(st, es) then st.displayEnd else LongestText(st, es)
  {
    var bound := if st.displayEnd > LongestText(st, es) then st.displayEnd else LongestText(st, es);
    EditsKeepSliceEndBounded(st, es, bound);
  }

  // ---------------------------------------------------------------------------
  // Where the visible slice is undefined

  /** A text box built on fewer than 8 code units has no visible slice. */
  lemma ShortTextHasNoViewport(text: NetString)
    ensures ViewportDefined(Initial(text)) <==> |text| >= ViewportWidth
  {
  }

  /** Deleting can leave the slice end past the end of the text, even when
      eight or more code units remain: "abcdefghi" loses its last unit and the
      slice end stays at 9. */
  lemma RemoveCanUndefineViewport()
    ensures var st := Initial([0x61, 0x62, 0x63, 0x64, 0x65, 0x66, 0x67, 0x68, 0x69]);
      && ViewportDefined(st) && AfterRemove(st).Ok?
      && |AfterRemove(st).value.text| == ViewportWidth
      && !ViewportDefined(AfterRemove(st).value)
  {
  }

  /** Inserting leaves the slice where it was, so the unit just typed at the
      end of "abcdefgh" is not displayed and the cursor leaves the view. */
  lemma InsertCanMoveCursorOutOfView()
    ensures var abcdefgh: NetString := [0x61, 0x62, 0x63, 0x64, 0x65, 0x66, 0x67, 0x68];
      var st := AfterInsert(Initial(abcdefgh), [0x78]);
      && st.Ok? && ViewportDefined(st.value)
      && Viewport(st.value) == abcdefgh
      && !CursorInView(st.value)
  {
  }

  /** Inserting the empty string moves the cursor past the end of the text
      ("ab" with cursor 3), after which an insert throws. */
  lemma EmptyInsertBreaksCursorRange()
    ensures var st := AfterInsert(Initial([0x61, 0x62]), []);
      st.Ok? && st.value.cursor == 3 && !CursorInRange(st.value) && AfterInsert(st.value, [0x78]).OutOfRange?
  {
  }

  predicate AllRight(es: seq<Edit>) {
    forall i :: 0 <= i < |es| ==> es[i].Right?
  }

  /** Once past the end of the text, the cursor rises by one on every right
      move without bound: the guard of `MoveCursorRight` only stops it exactly
      at the end. */
  lemma {:induction false} RightMovesPastEndUnbounded(st: EditorState, es: seq<Edit>)
    requires st.cursor > |st.text| && AllRight(es)
    ensures Run(st, es).Ok? && Run(st, es).value.cursor == st.cursor + |es|
    ensures Run(st, es).value.text == st.text
    decreases |es|
  {
    if es != [] {
      assert es[0].Right?;
      assert AllRight(es[1..]) by {
        forall i | 0 <= i < |es[1..]| ensures es[1..][i] == es[i + 1] { }
      }
      RightMovesPastEndUnbounded(AfterRight(st), es[1..]);
    }
  }

  /** C#'s `Length` and indices count UTF-16 code units: in "a" followed by
      U+1F600 (a surrogate pair) the cursor starts at 3, and one deletion
      removes only the low surrogate. */
  lemma RemoveSplitsSurrogatePair()
    ensures var st := Initial([0x61, 0xD83D, 0xDE00]);
      && st.cursor == 3
      && AfterRemove(st) == Ok(EditorState([0x61, 0xD83D], 2, 3))
  {
    var text: NetString := [0x61, 0xD83D, 0xDE00];
    assert text[..2] + text[3..] == [0x61, 0xD83D];
  }

  // ---------------------------------------------------------------------------
  // Cursor blink cycle

  datatype Blink = Blink(timer: int, on: bool)

  /** The blink update at the end of `DrawControl`. */
  function AfterDraw(b: Blink, focused: bool): (r: Blink) {
    if !focused then b
    else if b.timer + 1 <= BlinkTicks then Blink(b.timer + 1, b.on)
    else Blink(0, !b.on)
  }

  /** `k` successive draws while focused. */
  function FocusedDraws(b: Blink, k: nat): Blink {
    if k == 0 then b else AfterDraw(FocusedDraws(b, k - 1), true)
  }

  lemma DrawBlinkSpec(b: Blink, focused: bool)
    ensures !focused ==> AfterDraw(b, focused) == b
    ensures 0 <= b.timer <= BlinkTicks ==> 0 <= AfterDraw(b, focused).timer <= BlinkTicks
    ensures focused && b.timer < BlinkTicks ==> AfterDraw(b, focused) == Blink(b.timer + 1, b.on)
    ensures focused && b.timer >= BlinkTicks ==> AfterDraw(b, focused) == Blink(0, !b.on)
  {
  }

  lemma {:induction false} BlinkCounts(on: bool, k: nat)
    requires k <= BlinkTicks
    ensures FocusedDraws(Blink(0, on), k) == Blink(k, on)
  {
    if k > 0 {
      BlinkCounts(on, k - 1);
    }
  }

  /** From a reset timer the flag flips on the 31st focused draw, and not before. */
  lemma BlinkPeriod(on: bool)
    ensures forall k :: 0 <= k <= BlinkTicks ==> FocusedDraws(Blink(0, on), k).on == on
    ensures FocusedDraws(Blink(0, on), BlinkTicks + 1) == Blink(0, !on)
  {
    forall k | 0 <= k <= BlinkTicks ensures FocusedDraws(Blink(0, on), k).on == on {
      BlinkCounts(on, k);
    }
    BlinkCounts(on, BlinkTicks);
  }

  // ---------------------------------------------------------------------------
  // The control

  /** `TextBoxControl`. The paint and the measured rectangle belong to drawing
      and are not part of the model. */
  class TextBoxControl {
    var Interactive: bool
    var Text: NetString
    var isFocused: bool
    var cursorPosition: int
    var indexOfLastCharacterToDisplay: int
    var cursorBlink: bool
    var cursorBlinkTimer: int

    function State(): EditorState
      reads this
    {
      EditorState(Text, cursorPosition, indexOfLastCharacterToDisplay)
    }

    function BlinkState(): Blink
      reads this
    {
      Blink(cursorBlinkTimer, cursorBlink)
    }

    constructor (text: NetString)
      ensures State() == Initial(text)
      ensures Interactive && !isFocused && BlinkState() == Blink(0, false)
    {
      Interactive := true;
      Text := text;
      isFocused := false;
      cursorPosition := |text|;
      indexOfLastCharacterToDisplay := cursorPosition;
      cursorBlink := false;
      cursorBlinkTimer := 0;
    }

    method RemoveCharacter() returns (outOfRange: bool)
      modifies this`Text, this`cursorPosition
      ensures outOfRange <==> AfterRemove(old(State())).OutOfRange?
      ensures State() == Settle(old(State()), AfterRemove(old(State())))
    {
      outOfRange := false;
      if cursorPosition == 0 {
        return;
      }
      if cursorPosition - 1 < 0 || cursorPosition > |Text| {
        outOfRange := true;
        return;
      }
      Text := Text[..cursorPosition - 1] + Text[cursorPosition..];
      cursorPosition := cursorPosition - 1;
    }

    method InsertCharacter(character: NetString) returns (outOfRange: bool)
      modifies this`Text, this`cursorPosition
      ensures outOfRange <==> AfterInsert(old(State()), character).OutOfRange?
      ensures State() == Settle(old(State()), AfterInsert(old(State()), character))
    {
      if cursorPosition < 0 || cursorPosition > |Text| {
        outOfRange := true;
        return;
      }
      outOfRange := false;
      Text := Text[..cursorPosition] + character + Text[cursorPosition..];
      cursorPosition := cursorPosition + 1;
    }

    method MoveCursorLeft()
      modifies this`cursorPosition, this`indexOfLastCharacterToDisplay
      ensures State() == AfterLeft(old(State()))
    {
      if cursorPosition == 0 {
        return;
      }
      cursorPosition := cursorPosition - 1;
      if cursorPosition < indexOfLastCharacterToDisplay - ViewportWidth {
        indexOfLastCharacterToDisplay := indexOfLastCharacterToDisplay - 1;
      }
    }

    method MoveCursorRight()
      modifies this`cursorPosition, this`indexOfLastCharacterToDisplay
      ensures State() == AfterRight(old(State()))
    {
      if cursorPosition == |Text| {
        return;
      }
      cursorPosition := cursorPosition + 1;
      if cursorPosition > indexOfLastCharacterToDisplay {
        indexOfLastCharacterToDisplay := indexOfLastCharacterToDisplay + 1;
      }
    }

    /** The state changes of `DrawControl`: it returns the text it would draw,
        or throws at the slice before touching the blink state. */
    method DrawControl() returns (shown: Outcome<NetString>)
      modifies this`cursorBlinkTimer, this`cursorBlink
      ensures ViewportDefined(State()) ==> shown == Ok(Viewport(State()))
      ensures !ViewportDefined(State()) ==> shown == OutOfRange
      ensures BlinkState() == if shown.Ok? then AfterDraw(old(BlinkState()), isFocused) else old(BlinkState())
    {
      var last := indexOfLastCharacterToDisplay;
      if last - ViewportWidth < 0 || last > |Text| {
        shown := OutOfRange;
        return;
      }
      shown := Ok(Text[last - ViewportWidth .. last]);
      if !isFocused {
        return;
      }
      cursorBlinkTimer := cursorBlinkTimer + 1;
      if cursorBlinkTimer <= BlinkTicks {
        return;
      }
      cursorBlinkTimer := 0;
      cursorBlink := !cursorBlink;
    }
  }
}
