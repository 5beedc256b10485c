/**
 The text fields of source/field.c: a buffer of cells, a cursor and a window that scrolls over the text,
 against a plain editor that knows only the text, the cursor and the mode.
 */
module FieldEditor {

  const Q_FIELD_SIZE: nat := 256
  const KEY_BRACKET_ON := 0x00B4ACE1
  const KEY_BRACKET_OFF := 0x00B4ACE0

  /** Columns on the screen, and whether the text must fit in them. */
  datatype Shape = Shape(width: nat, fixed: bool)

  /** The plain editor. */
  datatype Text = Text(cells: seq<int>, cursor: nat, insertMode: bool)

  datatype Edit =
    | Key(code: int)
    | Home
    | End
    | Left
    | Right
    | Backspace
    | ToggleInsert
    | Delete
    | SetValue(value: seq<int>)

  /** The bracketed paste keys.  Enter, also disregarded there, is a curses key code, which the function asserts away. */
  predicate Ignored(code: int) {
    code == KEY_BRACKET_ON || code == KEY_BRACKET_OFF
  }

  predicate WellFormed(shape: Shape, t: Text) {
    && 1 <= shape.width
    && t.cursor <= |t.cells|
    && (shape.fixed ==> |t.cells| <= shape.width && t.cursor < shape.width)
  }

  /** In a fixed field the cursor rests on the last column rather than after it. */
  function Rest(shape: Shape, cursor: nat): nat
    requires 1 <= shape.width
  {
    if shape.fixed && cursor >= shape.width then shape.width - 1 else cursor
  }

  /** field_set_value() demands that a fixed field can show its value. */
  predicate Allowed(shape: Shape, e: Edit) {
    e.SetValue? && shape.fixed ==> |e.value| <= shape.width
  }

  function Plain(shape: Shape, t: Text, e: Edit): (r: Text)
    requires WellFormed(shape, t) && Allowed(shape, e)
    ensures WellFormed(shape, r)
  {
    var before, after := t.cells[..t.cursor], t.cells[t.cursor..];
    match e
    case Key(code) =>
      if Ignored(code) then t
      else if after == [] then t.(cells := before + [code], cursor := Rest(shape, t.cursor + 1))
      else if !t.insertMode then t.(cells := before + [code] + after[1..], cursor := Rest(shape, t.cursor + 1))
      else if shape.fixed && |t.cells| == shape.width then t
      else t.(cells := before + [code] + after, cursor := t.cursor + 1)
    case Home => t.(cursor := 0)
    case End => t.(cursor := Rest(shape, |t.cells|))
    case Left => if t.cursor > 0 then t.(cursor := t.cursor - 1) else t
    case Right => if after == [] then t else t.(cursor := Rest(shape, t.cursor + 1))
    case Backspace => if before == [] then t else t.(cells := before[..t.cursor - 1] + after, cursor := t.cursor - 1)
    case ToggleInsert => t.(insertMode := !t.insertMode)
    case Delete => if after == [] then t else t.(cells := before + after[1..])
    case SetValue(value) => t.(cells := value, cursor := Rest(shape, |value|))
  }

  /** The first column shown: it follows the cursor just far enough. */
  function Window(shape: Shape, t: Text, start: nat, e: Edit): (r: nat)
    requires WellFormed(shape, t) && Allowed(shape, e)
  {
    var r := Plain(shape, t, e);
    match e
    case Home => 0
    case End => if shape.fixed then start else Tail(shape, |r.cells|)
    case SetValue(_) => if shape.fixed then 0 else Tail(shape, |r.cells|)
    case Left => if shape.fixed then start else Back(r.cursor, start)
    case Backspace => if shape.fixed then start else Back(r.cursor, start)
    case Right => if shape.fixed || r.cursor == t.cursor then start else Forward(shape, r.cursor, start)
    case Key(code) =>
      if shape.fixed || r.cursor == t.cursor then start
      else if !t.insertMode && t.cursor < |t.cells| then start
      else Forward(shape, r.cursor, start)
    case ToggleInsert => start
    case Delete => start
  }

  function Tail(shape: Shape, length: nat): nat {
    if length + 1 <= shape.width then 0 else length + 1 - shape.width
  }

  function Back(cursor: nat, start: nat): nat {
    if cursor == start && start > 0 then start - 1 else start
  }

  function Forward(shape: Shape, cursor: nat, start: nat): nat {
    if cursor - start == shape.width then start + 1 else start
  }

  datatype View = View(text: Text, start: nat)

  ghost predicate AllAllowed(shape: Shape, edits: seq<Edit>) {
    forall k | 0 <= k < |edits| :: Allowed(shape, edits[k])
  }

  function Step(shape: Shape, v: View, e: Edit): (r: View)
    requires WellFormed(shape, v.text) && Allowed(shape, e)
    ensures WellFormed(shape, r.text)
  {
    View(Plain(shape, v.text, e), Window(shape, v.text, v.start, e))
  }

  function Run(shape: Shape, v: View, edits: seq<Edit>): (r: View)
    requires WellFormed(shape, v.text) && AllAllowed(shape, edits)
    ensures WellFormed(shape, r.text)
    decreases |edits|
  {
    if edits == [] then v else Run(shape, Step(shape, v, edits[0]), edits[1..])
  }

  /** A field as field_malloc() leaves it. */
  const EMPTY := View(Text([], 0, true), 0)

  predicate Visible(shape: Shape, v: View) {
    0 <= v.text.cursor - v.start < shape.width
  }

  // ------------------------------------------------------------- every run keeps the cursor on the screen

  /** What a run keeps: a window that has scrolled has the cursor strictly to the right of its first column. */
  predicate Framed(shape: Shape, v: View) {
    Visible(shape, v) && (v.start > 0 ==> v.text.cursor > v.start) && (shape.fixed ==> v.start == 0)
  }

  /** The one edit that scrolls too little: overwriting in the last column of a scrolling field. */
  predicate OverwritesAtEdge(shape: Shape, v: View, e: Edit) {
    && e.Key? && !Ignored(e.code) && !shape.fixed && !v.text.insertMode
    && v.text.cursor < |v.text.cells|
    && v.text.cursor - v.start == shape.width - 1
  }

  lemma StepFramesExactly(shape: Shape, v: View, e: Edit)
    requires WellFormed(shape, v.text) && Allowed(shape, e) && 2 <= shape.width && Framed(shape, v)
    ensures Framed(shape, Step(shape, v, e)) <==> !OverwritesAtEdge(shape, v, e)
    ensures Visible(shape, Step(shape, v, e)) <==> !OverwritesAtEdge(shape, v, e)
  {
  }

  lemma FixedWindowStays(shape: Shape, v: View, e: Edit)
    requires WellFormed(shape, v.text) && Allowed(shape, e) && shape.fixed && v.start == 0
    ensures Step(shape, v, e).start == 0
  {
  }

  ghost predicate KeepsMode(edits: seq<Edit>) {
    forall k | 0 <= k < |edits| :: !edits[k].ToggleInsert?
  }

  lemma {:induction false} InsertingStaysFramed(shape: Shape, v: View, edits: seq<Edit>)
    requires WellFormed(shape, v.text) && AllAllowed(shape, edits) && 2 <= shape.width && Framed(shape, v)
    requires v.text.insertMode && KeepsMode(edits)
    ensures Framed(shape, Run(shape, v, edits)) && Run(shape, v, edits).text.insertMode
    decreases |edits|
  {
    if edits != [] {
      StepFramesExactly(shape, v, edits[0]);
      assert edits[0] in edits && !edits[0].ToggleInsert?;
      InsertingStaysFramed(shape, Step(shape, v, edits[0]), edits[1..]);
    }
  }

  /**
   A scrolling field kept in insert mode always shows its cursor, whatever is done to it,
   exactly when it is at least two columns wide.
   */
  lemma VisibleExactly(width: nat)
    requires 1 <= width
    ensures var shape := Shape(width, false);
      (forall edits | AllAllowed(shape, edits) && KeepsMode(edits) :: Visible(shape, Run(shape, EMPTY, edits)))
      <==> 2 <= width
  {
    var shape := Shape(width, false);
    if 2 <= width {
      forall edits | AllAllowed(shape, edits) && KeepsMode(edits) ensures Visible(shape, Run(shape, EMPTY, edits)) {
        InsertingStaysFramed(shape, EMPTY, edits);
      }
    } else {
      var edits := [SetValue([65, 66]), Left];
      var typed := Step(shape, EMPTY, edits[0]);
      assert typed == View(Text([65, 66], 2, true), 2);
      assert edits[1..] == [Left] && edits[1..][1..] == [];
      assert Run(shape, EMPTY, edits) == Run(shape, typed, [Left]) == Step(shape, typed, Left);
      assert !Visible(shape, Run(shape, EMPTY, edits));
      assert KeepsMode(edits) && AllAllowed(shape, edits);
    }
  }

  /** A fixed field never scrolls, never outgrows its width and never shows its cursor outside it, in either mode. */
  lemma {:induction false} FixedStaysInside(shape: Shape, v: View, edits: seq<Edit>)
    requires WellFormed(shape, v.text) && AllAllowed(shape, edits) && shape.fixed && v.start == 0
    ensures var r := Run(shape, v, edits);
      r.start == 0 && |r.text.cells| <= shape.width && r.text.cursor < shape.width && Visible(shape, r)
    decreases |edits|
  {
    if edits != [] {
      FixedWindowStays(shape, v, edits[0]);
      FixedStaysInside(shape, Step(shape, v, edits[0]), edits[1..]);
    }
  }

  // ------------------------------------------------------------- the window

  function Distance(a: nat, b: nat): nat {
    if a <= b then b - a else a - b
  }

  /** A step that does not jump scrolls no further than it must. */
  lemma WindowMovesLeast(shape: Shape, v: View, e: Edit, start: nat)
    requires WellFormed(shape, v.text) && Allowed(shape, e) && 2 <= shape.width && Framed(shape, v)
    requires !e.Home? && !e.End? && !e.SetValue? && !OverwritesAtEdge(shape, v, e)
    requires Framed(shape, View(Plain(shape, v.text, e), start))
    ensures Distance(Step(shape, v, e).start, v.start) <= Distance(start, v.start)
  {
  }

  /** A jump to the end shows as much of the text as it can, and one to the start shows the start. */
  lemma JumpShowsMost(shape: Shape, v: View, e: Edit, start: nat)
    requires WellFormed(shape, v.text) && Allowed(shape, e) && 2 <= shape.width && Framed(shape, v)
    requires e.Home? || e.End? || e.SetValue?
    requires Framed(shape, View(Plain(shape, v.text, e), start))
    ensures Step(shape, v, e).start <= start
  {
  }

  // ------------------------------------------------------------- an editor without indices

  /** What is before the cursor, and what is after it. */
  datatype Zipper = Zipper(before: seq<int>, after: seq<int>, insertMode: bool)

  function Zipped(t: Text): Zipper
    requires t.cursor <= |t.cells|
  {
    Zipper(t.cells[..t.cursor], t.cells[t.cursor..], t.insertMode)
  }

  /** Take the cell before the cursor to the other side. */
  function Leftwards(z: Zipper): Zipper {
    if z.before == [] then z
    else z.(before := z.before[..|z.before| - 1], after := [z.before[|z.before| - 1]] + z.after)
  }

  function Rightwards(z: Zipper): Zipper {
    if z.after == [] then z else z.(before := z.before + [z.after[0]], after := z.after[1..])
  }

  /** In a full fixed field nothing can be inserted before something else. */
  predicate Refuses(shape: Shape, z: Zipper) {
    shape.fixed && z.insertMode && z.after != [] && |z.before| + |z.after| == shape.width
  }

  function Turned(shape: Shape, z: Zipper, e: Edit): Zipper {
    match e
    case Key(code) =>
      if Ignored(code) || Refuses(shape, z) then z
      else z.(before := z.before + [code], after := if z.insertMode || z.after == [] then z.after else z.after[1..])
    case Home => z.(before := [], after := z.before + z.after)
    case End => z.(before := z.before + z.after, after := [])
    case Left => Leftwards(z)
    case Right => Rightwards(z)
    case Backspace => z.(before := Leftwards(z).before)
    case Delete => z.(after := Rightwards(z).after)
    case ToggleInsert => z.(insertMode := !z.insertMode)
    case SetValue(value) => z.(before := value, after := [])
  }

  /** The cursor cannot rest after the last column of a fixed field. */
  function Settled(shape: Shape, z: Zipper): Zipper {
    if shape.fixed && |z.before| == shape.width then Leftwards(z) else z
  }

  /** Putting the cursor to rest is settling. */
  lemma RestSettles(shape: Shape, before: seq<int>, after: seq<int>, insertMode: bool)
    requires 1 <= shape.width && (shape.fixed ==> |before| + |after| <= shape.width)
    ensures var t := Text(before + after, Rest(shape, |before|), insertMode);
      Zipped(t) == Settled(shape, Zipper(before, after, insertMode))
  {
    var cells, c := before + after, Rest(shape, |before|);
    if c == |before| {
      assert cells[..c] == before && cells[c..] == after;
    } else {
      assert cells[..c] == before[..c] && cells[c..] == [before[c]] + after;
    }
  }

  lemma KeyIsZipper(shape: Shape, t: Text, code: int)
    requires WellFormed(shape, t)
    ensures Zipped(Plain(shape, t, Key(code))) == Settled(shape, Turned(shape, Zipped(t), Key(code)))
  {
    var before, after := t.cells[..t.cursor], t.cells[t.cursor..];
    assert t.cells == before + after;
    if Ignored(code) || Refuses(shape, Zipped(t)) {
      RestSettles(shape, before, after, t.insertMode);
    } else {
      var rest := if t.insertMode || after == [] then after else after[1..];
      assert before + [code] + [] == before + [code];
      hide Zipped, Settled;
      RestSettles(shape, before + [code], rest, t.insertMode);
    }
  }

  lemma RemovalIsZipper(shape: Shape, t: Text, e: Edit)
    requires WellFormed(shape, t) && (e.Backspace? || e.Delete?)
    ensures Zipped(Plain(shape, t, e)) == Settled(shape, Turned(shape, Zipped(t), e))
  {
    var before, after := t.cells[..t.cursor], t.cells[t.cursor..];
    assert t.cells == before + after;
    if e.Backspace? {
      RestSettles(shape, if before == [] then before else before[..t.cursor - 1], after, t.insertMode);
    } else {
      RestSettles(shape, before, if after == [] then after else after[1..], t.insertMode);
    }
  }

  lemma LeftIsZipper(shape: Shape, t: Text)
    requires WellFormed(shape, t)
    ensures Zipped(Plain(shape, t, Left)) == Settled(shape, Turned(shape, Zipped(t), Left))
  {
    var before, after, c := t.cells[..t.cursor], t.cells[t.cursor..], t.cursor;
    var x := if before == [] then before else before[..c - 1];
    var y := if before == [] then after else [before[c - 1]] + after;
    assert t.cells == x + y;
    assert Turned(shape, Zipped(t), Left) == Zipper(x, y, t.insertMode);
    hide Zipped, Settled;
    RestSettles(shape, x, y, t.insertMode);
  }

  lemma RightIsZipper(shape: Shape, t: Text)
    requires WellFormed(shape, t)
    ensures Zipped(Plain(shape, t, Right)) == Settled(shape, Turned(shape, Zipped(t), Right))
  {
    var before, after := t.cells[..t.cursor], t.cells[t.cursor..];
    var x := if after == [] then before else before + [after[0]];
    var y := if after == [] then after else after[1..];
    assert t.cells == x + y;
    assert Turned(shape, Zipped(t), Right) == Zipper(x, y, t.insertMode);
    hide Zipped, Settled;
    RestSettles(shape, x, y, t.insertMode);
  }

  lemma JumpIsZipper(shape: Shape, t: Text, e: Edit)
    requires WellFormed(shape, t) && Allowed(shape, e) && (e.Home? || e.End? || e.SetValue? || e.ToggleInsert?)
    ensures Zipped(Plain(shape, t, e)) == Settled(shape, Turned(shape, Zipped(t), e))
  {
    var before, after := t.cells[..t.cursor], t.cells[t.cursor..];
    assert t.cells == before + after == [] + t.cells == t.cells + [];
    match e
    case Home => RestSettles(shape, [], t.cells, t.insertMode);
    case End => RestSettles(shape, t.cells, [], t.insertMode);
    case ToggleInsert => RestSettles(shape, before, after, !t.insertMode);
    case SetValue(value) =>
      assert value + [] == value;
      RestSettles(shape, value, [], t.insertMode);
  }

  /** The plain editor does what the one without indices does. */
  lemma PlainIsZipper(shape: Shape, t: Text, e: Edit)
    requires WellFormed(shape, t) && Allowed(shape, e)
    ensures Zipped(Plain(shape, t, e)) == Settled(shape, Turned(shape, Zipped(t), e))
  {
    hide Plain, Turned, Settled, Zipped;
    match e
    case Key(code) => KeyIsZipper(shape, t, code);
    case Backspace => RemovalIsZipper(shape, t, e);
    case Delete => RemovalIsZipper(shape, t, e);
    case Left => LeftIsZipper(shape, t);
    case Right => RightIsZipper(shape, t);
    case _ => JumpIsZipper(shape, t, e);
  }

  function ZipperRun(shape: Shape, z: Zipper, edits: seq<Edit>): Zipper
    decreases |edits|
  {
    if edits == [] then z else ZipperRun(shape, Settled(shape, Turned(shape, z, edits[0])), edits[1..])
  }

  /** And so it does over any list of edits. */
  lemma {:induction false} RunIsZipper(shape: Shape, v: View, edits: seq<Edit>)
    requires WellFormed(shape, v.text) && AllAllowed(shape, edits)
    ensures Zipped(Run(shape, v, edits).text) == ZipperRun(shape, Zipped(v.text), edits)
    decreases |edits|
  {
    hide Plain, Window, Turned, Settled, Zipped;
    if edits != [] {
      PlainIsZipper(shape, v.text, edits[0]);
      RunIsZipper(shape, Step(shape, v, edits[0]), edits[1..]);
    }
  }

  // ------------------------------------------------------------- laws of the editor

  /**
   Backspace undoes a key typed in insert mode.  In a fixed field it does so unless the key was dropped, and there is
   something to the left of the cursor, or was put in the last column, which the cursor does not leave.
   */
  lemma BackspaceUndoesExactly(shape: Shape, t: Text, code: int)
    requires WellFormed(shape, t) && t.insertMode && !Ignored(code)
    ensures Plain(shape, Plain(shape, t, Key(code)), Backspace) == t
      <==> (shape.fixed ==> if |t.cells| == shape.width then t.cursor == 0 else t.cursor < shape.width - 1)
  {
    var r := Plain(shape, t, Key(code));
    var u := Plain(shape, r, Backspace);
    if !(shape.fixed && |t.cells| == shape.width) && !(shape.fixed && t.cursor >= shape.width - 1) {
      assert u.cells == t.cells;
    }
  }

  function Keys(s: seq<int>): seq<Edit> {
    seq(|s|, k requires 0 <= k < |s| => Key(s[k]))
  }

  /** What fits. */
  function Fitting(shape: Shape, s: seq<int>): seq<int> {
    if shape.fixed && |s| > shape.width then s[..shape.width] else s
  }

  /** Typing at the end of a text in insert mode appends, and a fixed field drops what does not fit. */
  lemma {:induction false} TypingAppends(shape: Shape, v: View, s: seq<int>)
    requires WellFormed(shape, v.text) && v.text.insertMode
    requires v.text.cursor == Rest(shape, |v.text.cells|)
    requires forall k | 0 <= k < |s| :: !Ignored(s[k])
    ensures Run(shape, v, Keys(s)).text.cells == Fitting(shape, v.text.cells + s)
    decreases |s|
  {
    if s == [] {
      assert v.text.cells + s == v.text.cells;
    } else {
      var next := Step(shape, v, Key(s[0]));
      assert Keys(s)[0] == Key(s[0]) && Keys(s)[1..] == Keys(s[1..]);
      TypingAppends(shape, next, s[1..]);
      if shape.fixed && |v.text.cells| == shape.width {
        assert next.text == v.text;
      } else {
        assert next.text.cells == v.text.cells + [s[0]];
        assert v.text.cells + s == next.text.cells + s[1..];
      }
    }
  }

  lemma BackspaceAt(shape: Shape, v: View)
    requires WellFormed(shape, v.text)
    ensures var c := v.text.cursor;
      var cells := if c == 0 then v.text.cells else v.text.cells[..c - 1] + v.text.cells[c..];
      var at := if c == 0 then 0 else c - 1;
      Step(shape, v, Backspace)
        == View(Text(cells, at, v.text.insertMode), if shape.fixed then v.start else Back(at, v.start))
  {
    if v.text.cursor > 0 {
      assert v.text.cells[..v.text.cursor][..v.text.cursor - 1] == v.text.cells[..v.text.cursor - 1];
    }
  }

  // ------------------------------------------------------------- the field itself

  class Field {
    const data: array<int>
    const shape: Shape
    var dataN: int
    var position: int
    var windowStart: int
    var insertMode: bool

    ghost predicate Valid()
      reads this, data
    {
      && data.Length == Q_FIELD_SIZE
      && 0 <= position <= dataN <= Q_FIELD_SIZE
      && 0 <= windowStart
      && (shape.fixed ==> windowStart == 0)
      && WellFormed(shape, Text(data[..dataN], position, insertMode))
    }

    ghost function Now(): (v: View)
      requires Valid()
      reads this, data
    {
      View(Text(data[..dataN], position, insertMode), windowStart)
    }

    /** field_malloc(). */
    constructor (width: nat, fixed: bool)
      requires 1 <= width
      ensures Valid() && Now() == EMPTY && shape == Shape(width, fixed)
    {
      data := new int[Q_FIELD_SIZE](_ => 0);
      shape := Shape(width, fixed);
      dataN, position, windowStart, insertMode := 0, 0, 0, true;
    }

    /** append_char(). */
    method AppendChar(keystroke: int)
      requires Valid() && position == dataN < Q_FIELD_SIZE && !Ignored(keystroke)
      requires shape.fixed ==> dataN < shape.width
      modifies this`dataN, this`position, this`windowStart, data
      ensures Valid() && Now() == Step(shape, old(Now()), Key(keystroke))
    {
      data[dataN] := keystroke;
      dataN := dataN + 1;
      position := position + 1;
      if shape.fixed {
        if position == shape.width {
          position := position - 1;
        }
      } else {
        if position - windowStart == shape.width {
          windowStart := windowStart + 1;
        }
      }
      assert data[..dataN] == old(data[..dataN]) + [keystroke];
    }

    /** memmove() of the cells from the cursor on, one cell up, and the new cell in the gap. */
    method OpenGap(keystroke: int)
      requires data.Length == Q_FIELD_SIZE && 0 <= position <= dataN < Q_FIELD_SIZE
      modifies data
      ensures data[..dataN + 1] == old(data[..dataN])[..position] + [keystroke] + old(data[..dataN])[position..]
    {
      forall k | position < k <= dataN {
        data[k] := data[k - 1];
      }
      data[position] := keystroke;
    }

    /** memmove() of the cells after the cursor, and of one more, one cell down. */
    method CloseGap()
      requires data.Length == Q_FIELD_SIZE && 0 <= position < dataN < Q_FIELD_SIZE
      modifies data
      ensures data[..dataN - 1] == old(data[..dataN])[..position] + old(data[..dataN])[position + 1..]
    {
      forall k | position <= k < dataN {
        data[k] := data[k + 1];
      }
    }

    /** insert_char(). */
    method InsertChar(keystroke: int)
      requires Valid() && position < dataN < Q_FIELD_SIZE && insertMode && !Ignored(keystroke)
      requires shape.fixed ==> dataN < shape.width
      modifies this`dataN, this`position, this`windowStart, data
      ensures Valid() && Now() == Step(shape, old(Now()), Key(keystroke))
    {
      OpenGap(keystroke);
      dataN := dataN + 1;
      position := position + 1;
      if position - windowStart == shape.width {
        assert !shape.fixed;
        windowStart := windowStart + 1;
      }
    }

    /** fieldset_keystroke(). */
    method Keystroke(keystroke: int)
      requires Valid() && |Step(shape, Now(), Key(keystroke)).text.cells| <= Q_FIELD_SIZE
      modifies this`dataN, this`position, this`windowStart, data
      ensures Valid() && Now() == Step(shape, old(Now()), Key(keystroke))
    {
      if keystroke == KEY_BRACKET_ON || keystroke == KEY_BRACKET_OFF {
        return;
      }
      if position == dataN && dataN < shape.width {
        AppendChar(keystroke);
      } else if position < dataN && dataN < shape.width {
        if !insertMode {
          Overwrite(keystroke);
        } else {
          InsertChar(keystroke);
        }
      } else if position < dataN && dataN >= shape.width {
        if shape.fixed && insertMode {
        } else if shape.fixed && !insertMode {
          Overwrite(keystroke);
        } else if !shape.fixed && !insertMode {
          Overwrite(keystroke);
        } else {
          InsertChar(keystroke);
        }
      } else {
        assert !shape.fixed;
        AppendChar(keystroke);
      }
    }

    /** The three places of fieldset_keystroke() that replace a cell; a fixed field keeps the cursor on its last column. */
    method Overwrite(keystroke: int)
      requires Valid() && position < dataN && !insertMode && !Ignored(keystroke)
      modifies this`position, data
      ensures Valid() && Now() == Step(shape, old(Now()), Key(keystroke))
    {
      data[position] := keystroke;
      if !shape.fixed || position < shape.width - 1 {
        position := position + 1;
      }
      assert data[..dataN] == old(data[..position]) + [keystroke] + old(data[position..dataN])[1..];
    }

    /** fieldset_home_char(). */
    method HomeChar()
      requires Valid()
      modifies this`position, this`windowStart
      ensures Valid() && Now() == Step(shape, old(Now()), Home)
    {
      position := 0;
      windowStart := 0;
    }

    /** fieldset_end_char(). */
    method EndChar()
      requires Valid()
      modifies this`position, this`windowStart
      ensures Valid() && Now() == Step(shape, old(Now()), End)
    {
      position := dataN;
      if shape.fixed {
        if position >= shape.width {
          position := dataN - 1;
        }
      } else {
        windowStart := dataN - shape.width + 1;
        if windowStart < 0 {
          windowStart := 0;
        }
      }
    }

    /** fieldset_left(). */
    method MoveLeft()
      requires Valid()
      modifies this`position, this`windowStart
      ensures Valid() && Now() == Step(shape, old(Now()), Left)
    {
      if position > 0 {
        position := position - 1;
      }
      if !shape.fixed {
        if position == windowStart && windowStart > 0 {
          windowStart := windowStart - 1;
        }
      }
    }

    /** fieldset_right(). */
    method MoveRight()
      requires Valid()
      modifies this`position, this`windowStart
      ensures Valid() && Now() == Step(shape, old(Now()), Right)
    {
      if position < dataN {
        position := position + 1;
        if shape.fixed {
          if position == shape.width {
            position := position - 1;
          }
        } else {
          if position - windowStart == shape.width {
            windowStart := windowStart + 1;
          }
        }
      }
    }

    /** fieldset_backspace(): the move takes one cell past the text with it. */
    method BackspaceChar()
      requires Valid() && (position == 0 || dataN < Q_FIELD_SIZE)
      modifies this`dataN, this`position, this`windowStart, data
      ensures Valid() && Now() == Step(shape, old(Now()), Backspace)
    {
      hide Step;
      BackspaceAt(shape, Now());
      if position > 0 {
        position := position - 1;
        CloseGap();
        dataN := dataN - 1;
      }
      if !shape.fixed {
        if position == windowStart && windowStart > 0 {
          windowStart := windowStart - 1;
        }
      }
    }

    /** fieldset_insert_char(). */
    method InsertKey()
      requires Valid()
      modifies this`insertMode
      ensures Valid() && Now() == Step(shape, old(Now()), ToggleInsert)
    {
      if insertMode {
        insertMode := false;
      } else {
        insertMode := true;
      }
    }

    /** fieldset_delete_char(). */
    method DeleteChar()
      requires Valid() && (position == dataN || dataN < Q_FIELD_SIZE)
      modifies this`dataN, data
      ensures Valid() && Now() == Step(shape, old(Now()), Delete)
    {
      if dataN > 0 && position < dataN {
        CloseGap();
        dataN := dataN - 1;
      }
    }

    /** field_set_value(). */
    method SetTo(value: seq<int>)
      requires Valid() && |value| <= Q_FIELD_SIZE && Allowed(shape, SetValue(value))
      modifies this`dataN, this`position, this`windowStart, data
      ensures Valid() && Now() == Step(shape, old(Now()), SetValue(value))
    {
      forall k | 0 <= k < |value| {
        data[k] := value[k];
      }
      dataN := |value|;
      position := |value|;
      if shape.fixed {
        if position >= shape.width {
          position := dataN - 1;
        }
        windowStart := 0;
      } else {
        windowStart := dataN - shape.width + 1;
        if windowStart < 0 {
          windowStart := 0;
        }
      }
      assert data[..dataN] == value;
    }
  }

  lemma {:induction false} RunOn(shape: Shape, v: View, edits: seq<Edit>, k: nat)
    requires WellFormed(shape, v.text) && AllAllowed(shape, edits) && k < |edits|
    ensures Run(shape, v, edits[..k + 1]) == Step(shape, Run(shape, v, edits[..k]), edits[k])
    decreases k
  {
    hide Step;
    if k == 0 {
      assert edits[..1][1..] == [] && edits[..0] == [];
    } else {
      assert edits[..k + 1][1..] == edits[1..][..k] && edits[..k][1..] == edits[1..][..k - 1];
      RunOn(shape, Step(shape, v, edits[0]), edits[1..], k - 1);
    }
  }

  /** Any list of edits, as long as the text and one more cell fit the buffer all the way. */
  method Follow(field: Field, edits: seq<Edit>)
    requires field.Valid() && AllAllowed(field.shape, edits)
    requires forall k | 0 <= k <= |edits| :: |Run(field.shape, field.Now(), edits[..k]).text.cells| < Q_FIELD_SIZE
    modifies field, field.data
    ensures field.Valid() && field.Now() == Run(field.shape, old(field.Now()), edits)
  {
    hide Run, Step;
    ghost var start := field.Now();
    var k := 0;
    RunNone(field.shape, start);
    assert edits[..0] == [];
    while k < |edits|
      invariant 0 <= k <= |edits| && field.Valid() && field.Now() == Run(field.shape, start, edits[..k])
    {
      RunOn(field.shape, start, edits, k);
      assert |Run(field.shape, start, edits[..k + 1]).text.cells| < Q_FIELD_SIZE;
      Apply(field, edits[k]);
      k := k + 1;
    }
    assert edits[..k] == edits;
  }

  lemma RunNone(shape: Shape, v: View)
    requires WellFormed(shape, v.text)
    ensures Run(shape, v, []) == v
  {
  }

  /** One edit, by the method that the caller of source/field.c would choose. */
  method Apply(field: Field, e: Edit)
    requires field.Valid() && Allowed(field.shape, e) && |field.Now().text.cells| < Q_FIELD_SIZE
    requires |Step(field.shape, field.Now(), e).text.cells| < Q_FIELD_SIZE
    modifies field, field.data
    ensures field.Valid() && field.Now() == Step(field.shape, old(field.Now()), e)
  {
    match e {
      case Key(code) => field.Keystroke(code);
      case Home => field.HomeChar();
      case End => field.EndChar();
      case Left => field.MoveLeft();
      case Right => field.MoveRight();
      case Backspace => field.BackspaceChar();
      case ToggleInsert => field.InsertKey();
      case Delete => field.DeleteChar();
      case SetValue(value) => field.SetTo(value);
    }
  }

  // ------------------------------------------------------------- how the cursor is lost

  function Repeated(e: Edit, n: nat): seq<Edit> {
    seq(n, _ => e)
  }

  lemma {:induction false} OverwritingRuns(shape: Shape, v: View, code: int, n: nat)
    requires WellFormed(shape, v.text) && !shape.fixed && !v.text.insertMode && !Ignored(code)
    requires v.text.cursor + n <= |v.text.cells|
    ensures var r := Run(shape, v, Repeated(Key(code), n)); r.text.cursor == v.text.cursor + n && r.start == v.start
    decreases n
  {
    if n > 0 {
      var edits := Repeated(Key(code), n);
      assert edits[0] == Key(code) && edits[1..] == Repeated(Key(code), n - 1);
      OverwritingRuns(shape, Step(shape, v, Key(code)), code, n - 1);
    }
  }

  lemma {:induction false} RunConcat(shape: Shape, v: View, a: seq<Edit>, b: seq<Edit>)
    requires WellFormed(shape, v.text) && AllAllowed(shape, a) && AllAllowed(shape, b)
    ensures Run(shape, v, a + b) == Run(shape, Run(shape, v, a), b)
    decreases |a|
  {
    hide Step;
    if a == [] {
      assert a + b == b;
    } else {
      assert (a + b)[0] == a[0] && (a + b)[1..] == a[1..] + b;
      RunConcat(shape, Step(shape, v, a[0]), a[1..], b);
    }
  }

  /** Whatever its width, a scrolling field full of text loses its cursor when it is overwritten from the start. */
  lemma OverwritingLosesCursor(width: nat, value: seq<int>, code: int)
    requires 1 <= width == |value| && !Ignored(code)
    ensures !Visible(Shape(width, false), Run(Shape(width, false), EMPTY,
                     [SetValue(value), Home, ToggleInsert] + Repeated(Key(code), width)))
  {
    var shape := Shape(width, false);
    var first, keys := [SetValue(value), Home, ToggleInsert], Repeated(Key(code), width);
    var v := View(Text(value, 0, false), 0);
    assert first[1..] == [Home, ToggleInsert] && [Home, ToggleInsert][1..] == [ToggleInsert] && [ToggleInsert][1..] == [];
    assert Run(shape, EMPTY, first) == v;
    RunConcat(shape, EMPTY, first, keys);
    OverwritingRuns(shape, v, code, width);
  }
}
