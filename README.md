# Overlay-Library core, modelled in Dafny

This project models the sequential logic of the Overlay-Library (C#), a
transparent window that follows another application's window and shows
"menus" of controls. Three pieces are modelled:

- **The text box** (`TextBoxes.dfy`). This is the editing state machine of
  `TextBoxControl`. Its state is the text, the cursor, the end of the
  8-code-unit visible slice, and the cursor blink timer and flag. The class
  `TextBoxControl` mirrors the C# fields and methods. Each method is proved
  equal to a function on an `EditorState` value (`AfterRemove`, `AfterInsert`,
  `AfterLeft`, `AfterRight`, `AfterDraw`). The lemmas state the properties of
  those functions, for one edit and for any sequence of edits (`Run`).
- **The menu's control bounds** (`Menus.dfy`). `Menu.CalculateAllControlsRect`
  is a loop proved equal to the fold `ControlsBounds`. Lemmas prove that the
  result covers every control and the origin, and that each edge is tight. They
  also prove that the result depends only on which rectangles occur, so order
  does not matter, and that adding a control can only grow the result.
- **The overlay's menu registry and window size** (`Overlays.dfy`).
  `Overlay.AddMenu`, `RemoveMenu` and `RemoveMenuByName` change a `seq<Menu>`
  the way `List<Menu>.Add`, `Remove` and `RemoveAll` do. `CalculateWindowSize`
  is the subtraction of the window rectangle's edges.

`WinApi.dfy` holds the shared platform types. C#'s `int` is the newtype `int32`.
`RECT` is the datatype `Rect`. C#'s unchecked `int` arithmetic is `Unchecked`.
`Unchecked` wraps a mathematical result into 32 bits. It is used for the `+ 10`
in `CalculateAllControlsRect` and the subtractions in `CalculateWindowSize`.

Exceptions are modelled as results. .NET's `String.Remove`, `String.Insert` and
string range slicing throw `ArgumentOutOfRangeException` for an index outside
the string. The model returns `OutOfRange` in those cases and leaves the state
unchanged, as the C# code does when the call throws.

Text is modelled as C# has it. `Strings.dfy` defines `NetString`, a sequence
of UTF-16 code units (`CodeUnit`). The cursor, the slice end, `Text.Length` and
the arguments of `Remove`, `Insert` and the range at
Controls/TextBoxControl.cs:112 all count code units. A character outside the
Basic Multilingual Plane therefore takes two places, and one deletion can split
a surrogate pair (`RemoveSplitsSurrogatePair`). Menu names are `NetString`s,
compared ordinally, as C#'s `==` on strings does.

The text box only partly does what its own comment at
Controls/TextBoxControl.cs:110 says, "display 8 characters of text based on
cursor position":

- Nothing keeps the slice end within `[8, Text.Length]`. The constructor
  accepts a text shorter than 8 code units (`ShortTextHasNoViewport`). A
  deletion can leave the slice end past the end of a text that still has 8
  units (`RemoveCanUndefineViewport`). The slice is therefore a function with
  an explicit precondition (`Viewport`), and `DrawControl` returns `OutOfRange`
  when that precondition fails.
- Only cursor moves keep the cursor inside the slice (`MovesKeepCursorInView`).
  An insert leaves the slice where it was. After typing at the end of an
  8-unit text the new unit is not shown, and the cursor is outside the view
  (`InsertCanMoveCursorOutOfView`).
- `InsertCharacter` advances the cursor by one, whatever it inserts. Inserting
  the empty string with the cursor at the end therefore puts the cursor past
  the end of the text, and the next insert throws (`EmptyInsertBreaksCursorRange`). From there every
  `MoveCursorRight` raises the cursor further, because its guard only stops it
  exactly at the end (`RightMovesPastEndUnbounded`). For non-empty inserts the
  cursor always stays in range (`EditsKeepCursorInRange`).
- `Text` is a public property with a setter (Controls/TextBoxControl.cs:12),
  and the field `Text` of the model can be assigned too. Assigning it leaves
  the cursor and the slice end where they were, so `Text = ""` after typing
  puts both past the end of the text. The lemmas above cover only the four
  edit methods.

The menu's rectangle is computed only by `CalculateAllControlsRect`. That
method is a min/max fold over the controls' rectangles, starting from the
all-zero `RECT`. `IControl.CalculateControlRect` is declared to return a
`Vector2`, but `Menu` reads `.Left`, `.Top`, `.Right` and `.Bottom` from its
result, and `TextControl` returns a `RECT`. The model therefore takes each
control to be the integer `RECT` it reports.

## Model

| member | source | states |
|---|---|---|
| `TextBoxes.TextBoxControl.constructor` | Controls/TextBoxControl.cs:23-36 | the text is stored, cursor and slice end both equal the text length, the control is interactive and unfocused, blink timer 0 and flag off |
| `TextBoxes.Initial` | Controls/TextBoxControl.cs:34-35 | the initial cursor is the text length, the slice end equals the cursor, and the cursor is in range and in view |
| `TextBoxes.TextBoxControl.RemoveCharacter` | Controls/TextBoxControl.cs:59-64 | the new text and cursor are those of `AfterRemove`, or unchanged when `String.Remove` throws; the slice end and blink state are not touched |
| `TextBoxes.RemoveCharacterSpec` | Controls/TextBoxControl.cs:59-64 | at cursor 0 nothing changes; it throws exactly when the cursor is outside [0, text length]; otherwise the code unit before the cursor is deleted (the prefix is kept and the rest moves one place left), the cursor drops by one, and the slice end is unchanged |
| `TextBoxes.TextBoxControl.InsertCharacter` | Controls/TextBoxControl.cs:66-70 | the new text and cursor are those of `AfterInsert`, or unchanged when `String.Insert` throws; the slice end is not touched |
| `TextBoxes.InsertCharacterSpec` | Controls/TextBoxControl.cs:66-70 | throws exactly when the cursor is out of range; otherwise the inserted string sits at the cursor with the text before and after it preserved, the cursor advances by exactly one, and the slice end is unchanged |
| `TextBoxes.InsertThenRemove` | Controls/TextBoxControl.cs:59-70 | inserting one code unit and then deleting restores the original state |
| `TextBoxes.TextBoxControl.MoveCursorLeft` | Controls/TextBoxControl.cs:72-80 | cursor and slice end become those of `AfterLeft`; the text is not touched |
| `TextBoxes.MoveCursorLeftSpec` | Controls/TextBoxControl.cs:72-80 | a no-op at cursor 0; otherwise the cursor drops by one and the text is kept; the slice end drops by one exactly when the new cursor is below slice end − 8, and is unchanged otherwise |
| `TextBoxes.TextBoxControl.MoveCursorRight` | Controls/TextBoxControl.cs:82-90 | cursor and slice end become those of `AfterRight`; the text is not touched |
| `TextBoxes.MoveCursorRightSpec` | Controls/TextBoxControl.cs:82-90 | a no-op at the end of the text; otherwise the cursor rises by one and the text is kept; the slice end rises by one exactly when the new cursor exceeds it |
| `TextBoxes.StepKeepsCursorInRange` | Controls/TextBoxControl.cs:59-90 | from a cursor in [0, text length], every edit except the insertion of an empty string succeeds and keeps the cursor in range |
| `TextBoxes.EditsKeepCursorInRange` | Controls/TextBoxControl.cs:59-90 | any sequence of edits with non-empty inserts, started with the cursor in range, never throws and ends with the cursor in range |
| `TextBoxes.MovesKeepCursorInView` | Controls/TextBoxControl.cs:72-90 | cursor moves keep the visible slice defined and the cursor within it |
| `TextBoxes.StepKeepsViewportDefined` | Controls/TextBoxControl.cs:66-90 | inserts and cursor moves keep the visible slice defined |
| `TextBoxes.EditsWithoutRemoveKeepViewport` | Controls/TextBoxControl.cs:66-90 | any sequence of non-empty inserts and cursor moves keeps the visible slice defined |
| `TextBoxes.EditsKeepSliceEndBounded` | Controls/TextBoxControl.cs:59-90 | for any sequence of edits with non-empty inserts started with the cursor in range, a bound that holds the starting slice end and the length of every text on the way (`LongestText`) also holds the final text length and slice end |
| `TextBoxes.SliceEndAtMostLongestText` | Controls/TextBoxControl.cs:82-90 | under the same conditions the final slice end is at most the larger of the starting slice end and the longest the text has been |
| `TextBoxes.LongestTextAtMostInserted` | Controls/TextBoxControl.cs:59-90 | no text on the way is longer than the starting text plus all code units inserted |
| `TextBoxes.Viewport` | Controls/TextBoxControl.cs:112 | when 8 ≤ slice end ≤ text length, the displayed text is 8 code units long, and they are the 8 units that end at the slice end |
| `TextBoxes.ShortTextHasNoViewport` | Controls/TextBoxControl.cs:23-36 | right after construction the slice is defined exactly when the text has at least 8 code units |
| `TextBoxes.RemoveCanUndefineViewport` | Controls/TextBoxControl.cs:59-64 | deleting from the 9-unit text "abcdefghi" leaves 8 units and the slice end at 9, past the end of the text |
| `TextBoxes.EmptyInsertBreaksCursorRange` | Controls/TextBoxControl.cs:66-70 | inserting "" into "ab" puts the cursor at 3, past the end of the text, after which an insert throws |
| `TextBoxes.InsertCanMoveCursorOutOfView` | Controls/TextBoxControl.cs:66-70 | inserting at the end of "abcdefgh" keeps the slice showing "abcdefgh" and puts the cursor outside it |
| `TextBoxes.RightMovesPastEndUnbounded` | Controls/TextBoxControl.cs:82-90 | once the cursor is past the end of the text, k right moves raise it by exactly k and leave the text unchanged |
| `TextBoxes.RemoveSplitsSurrogatePair` | Controls/TextBoxControl.cs:34-64 | for "a" followed by U+1F600 the cursor starts at 3 code units (lines 34-35), and one deletion (lines 59-64) removes only the low surrogate |
| `TextBoxes.TextBoxControl.DrawControl` | Controls/TextBoxControl.cs:101-134 | returns the visible slice, or `OutOfRange` with the blink state untouched when the slice is undefined; otherwise the blink state becomes that of `AfterDraw` |
| `TextBoxes.DrawBlinkSpec` | Controls/TextBoxControl.cs:116-132 | an unfocused draw changes nothing; a focused draw increments the timer, or resets it to 0 and flips the flag once it would exceed 30; the timer stays in `[0, 30]` |
| `TextBoxes.BlinkCounts` | Controls/TextBoxControl.cs:128-132 | from a reset timer, k ≤ 30 focused draws leave the timer at k and the flag unchanged |
| `TextBoxes.BlinkPeriod` | Controls/TextBoxControl.cs:128-132 | from a reset timer the flag keeps its value for 30 focused draws and flips on the 31st, when the timer returns to 0 |
| `Menus.Menu.constructor` | Menu.cs:17-22 | name, controls and position are stored; `MenuRect` is the all-zero `RECT` |
| `Menus.Menu.CalculateAllControlsRect` | Menu.cs:25-40 | the loop returns `ControlsBounds` of the controls, the min/max fold started from the all-zero `RECT` |
| `Menus.EmptyBoundsAreZero` | Menu.cs:27-39 | with no controls the result is the all-zero `RECT` |
| `Menus.BoundsCover` | Menu.cs:27-37 | `Left` and `Top` are at most 0, `Right` and `Bottom` at least 0, and every control's left, top and right edges and its bottom edge plus 10 (32-bit unchecked) lie within the result |
| `Menus.BoundsClearBottom` | Menu.cs:36 | when `Bottom + 10` does not overflow, the result's bottom is at least every control's bottom plus 10 |
| `Menus.BoundsTight` | Menu.cs:32-36 | every edge of the result is 0 or the matching edge of some control (bottom plus 10 for the bottom edge) |
| `Menus.SameControlsSameBounds` | Menu.cs:29-37 | two control lists that contain the same rectangles give the same result |
| `Menus.PermutedControlsSameBounds` | Menu.cs:29-37 | permuting the control list does not change the result |
| `Menus.AppendGrowsBounds` | Menu.cs:29-37 | appending a control never increases `Left` or `Top` and never decreases `Right` or `Bottom` |
| `Overlays.CalculateWindowSize` | Overlay.cs:150-155 | the size is (Right − Left, Bottom − Top), exactly when that fits in 32 bits and congruent modulo 2^32 in every case |
| `Overlays.WindowSizeIgnoresPosition` | Overlay.cs:150-155 | moving a rectangle, without overflow, leaves its size unchanged |
| `Overlays.WindowSizeExample` | Overlay.cs:150-155 | scenario: a tracked window spanning (50,50)-(850,650) gives an 800×600 overlay |
| `Overlays.FirstIndex` | Overlay.cs:182 | the index found holds the menu and no earlier index does |
| `Overlays.RemoveFirst` | Overlay.cs:180-183 | an absent element leaves the list unchanged; otherwise only its first occurrence is removed and everything else keeps its order |
| `Overlays.AppendThenRemoveFirst` | Overlay.cs:175-183 | removing an element just appended, which was not present before, restores the list |
| `Overlays.WithoutNameSpec` | Overlay.cs:185-188 | after removal no menu has the name; every menu with another name remains as often as before; the result is a subsequence of the original, so relative order is kept |
| `Overlays.WithoutNameIdempotent` | Overlay.cs:185-188 | removing by the same name twice gives the same list as once |
| `Overlays.Overlay.constructor` | Overlay.cs:18 | the menu list starts empty |
| `Overlays.Overlay.AddMenu` | Overlay.cs:175-178 | the menu is appended; earlier menus stay, in order |
| `Overlays.Overlay.RemoveMenu` | Overlay.cs:180-183 | the list becomes `RemoveFirst` of the old list, comparing menus by reference |
| `Overlays.Overlay.RemoveMenuByName` | Overlay.cs:185-188 | the list becomes the old list without the menus of that name |
| `Overlays.AddThenRemove` | Overlay.cs:175-183 | on an overlay that does not hold the menu, `AddMenu` then `RemoveMenu` leaves the menu list as it was |

## Left out

- Window creation, windowing-library and OpenGL setup, and the Skia render context and surface (Overlay.cs:20-72): these are foreign graphics libraries.
- The position-tracking loop `UpdatePosition` (Overlay.cs:76-104) and the window-style change (Overlay.cs:58): these are operating-system calls run concurrently.
- `Run`, the `Render` event and `Dispose` (Overlay.cs:109-148): these are thin wrappers over library objects.
- All canvas drawing, in `DrawOneFrame` (Overlay.cs:159-167), in `DrawControl` (Controls/TextBoxControl.cs:105-113, 124) and in `ButtonControl`: these are rendering side effects. `DrawControl` keeps only the slice it would draw and the blink update.
- The clamped local copy of the cursor in `DrawControl` (Controls/TextBoxControl.cs:118-122): it is never read.
- `CalculateControlRect` of every control, and the measuring of "WWWWWWWW" in the text box constructor: these are float arithmetic over Skia's text measurement, a foreign call. The model takes control rectangles as given integer inputs.
- The controls' paints and `ButtonControl`'s click event: these have no logic.
- Hooks/KeyboardHook.cs: it is a background thread polling a foreign key-state call.
- WinApi.cs's P/Invoke declarations: they are foreign calls. Only `RECT` is modelled.
- Aliasing of `Menu`'s control list: C# stores the caller's `List`. The model stores the value of its rectangles, so later changes made through the caller's reference are not reflected.
- `null` arguments: a `NetString`, a `Menu` and a control list cannot be null in the model. In C#, `InsertCharacter(null)` throws `ArgumentNullException`; `new TextBoxControl(null, paint)` throws `NullReferenceException` at `text.Length` (Controls/TextBoxControl.cs:34); `AddMenu(null)` succeeds, and a later `RemoveMenuByName` then throws `NullReferenceException` reading `m.Name` (Overlay.cs:187); `RemoveMenu(null)` removes the first null entry; a `Menu` built on a null control list throws `NullReferenceException` in `CalculateAllControlsRect` (Menu.cs:29).
- Integer overflow of the text-box cursor and slice end: they are unbounded integers, but C#'s `++` wraps at `int.MaxValue`. While the cursor stays in range it is bounded by the text's length (`EditsKeepCursorInRange`). The slice end can exceed the current length after a deletion (`RemoveCanUndefineViewport`), but only a right move raises it, and only up to the cursor (Controls/TextBoxControl.cs:86-88). So, with non-empty inserts, it never passes the larger of its start and the longest the text has been (`SliceEndAtMostLongestText`); every such text is a .NET string, whose length fits in an `int`. The cruder bound of the first text's length plus every code unit inserted (`LongestTextAtMostInserted`) can exceed 32 bits, because an insert followed by a deletion adds to it without lengthening the text. After an empty insert, though, about 2^31 right moves reach `int.MaxValue` (`RightMovesPastEndUnbounded`), and there the C# cursor wraps to a negative value while the model's keeps rising.
- Hit-testing, dragging, pinning, focus routing and activation toggling: they do not appear in the source files modelled here.
