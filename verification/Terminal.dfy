/**
 The emulators as the program has them: global variables, a fixed buffer, and functions that change both.
 Every method is shown to do what the corresponding function of Ansi, Avatar and Console says.
 */
module Terminal {
  import opened Display
  import opened Machine
  import opened Invariant
  import Ansi
  import Avatar
  import Console
  import Csi

  class Terminal {
    const env: Env
    const buf: array<byte>     // q_emul_buffer
    var n: nat                 // q_emul_buffer_n
    var i: nat                 // q_emul_buffer_i
    var last: Status           // last_state
    var repeat: seq<byte>      // q_emul_repeat_state_buffer
    var received: nat          // q_connection_bytes_received
    var d: Display
    var ansi: AnsiVars
    var avatar: AvatarVars
    var fault: bool

    /** The whole state as one value. */
    ghost function View(): State
      reads this, buf
    {
      State(buf[..], n, i, last, repeat, received, d, ansi, avatar, fault)
    }

    constructor (env: Env, d: Display)
      ensures this.env == env && fresh(buf) && View() == Initial(env, d)
    {
      this.env := env;
      buf := new byte[128](k => 0);
      var start := Initial(env, d);
      n, i, last, repeat, received := 0, 0, NoCharYet, [], 0;
      this.d, ansi, avatar, fault := start.d, start.ansi, start.avatar, false;
      new;
      assert buf[..] == Zeros();
    }

    // -------------------------------------------------------- shared steps

    method SaveChar(b: byte)
      requires buf.Length == 128
      modifies this`n, this`fault, buf
      ensures View() == old(View()).Store(b)
    {
      if n < 127 {
        buf[n] := b;
        n := n + 1;
        assert buf[..] == old(buf[..])[old(n) := b];
      } else {
        fault := true;
      }
    }

    method Wipe()
      requires buf.Length == 128
      modifies this`n, this`i, buf
      ensures View() == old(View()).Wipe()
    {
      n, i := 0, 0;
      forall k | 0 <= k < buf.Length {
        buf[k] := 0;
      }
      assert buf[..] == Zeros();
    }

    method ClearAnsi()
      requires buf.Length == 128
      modifies this`n, this`i, this`ansi, buf
      ensures View() == old(View()).AnsiClear()
    {
      ansi := ansi.(privateMode := false, decPrivateMode := false, discard := false);
      Wipe();
      ansi := ansi.(scan := AnsiNone);
    }

    method ClearAvatar()
      requires buf.Length == 128
      modifies this`n, this`i, this`d, this`avatar, buf
      ensures View() == old(View()).AvatarClear()
    {
      d := d.(insert := false);
      Wipe();
      avatar := avatar.(scan := AtNone, pattern := []);
    }

    // ------------------------------------------------------------- parsers

    /** The digits `ch` have been taken from `start` on, no more than `limit` of them. */
    ghost predicate Taken(start: nat, ch: seq<byte>, count: nat, limit: nat)
      reads buf
    {
      && buf.Length == 128 && start <= count <= 127 && ch == buf[start..count] && |ch| <= limit
      && (forall k | start <= k < count :: IsDigit(buf[k]))
      && (|ch| < limit ==> !IsDigit(buf[count]))
    }

    /** One of the steps of ansi_ps(): take the next character if it is a digit. */
    method TakeDigit(start: nat, ch: seq<byte>, count: nat, ghost limit: nat) returns (more: seq<byte>, next: nat)
      requires Taken(start, ch, count, limit) && buf[127] == 0
      ensures Taken(start, more, next, limit + 1)
    {
      more, next := ch, count;
      if IsDigit(buf[count]) {
        more, next := ch + [buf[count]], count + 1;
      }
    }

    lemma TakenIsPs(start: nat, ch: seq<byte>, count: nat)
      requires Taken(start, ch, count, 6) && buf[127] == 0
      ensures Csi.Ps(buf[..], start) ==
              Csi.Number(if ch == [] || IsDigit(buf[count]) then -1 else Csi.Value(ch), count)
    {
      DigitsTaken(buf[..], start, count - start, 6);
      assert buf[..][start..count] == buf[start..count];
    }

    /** ansi_ps(). */
    method AnsiPs(start: nat) returns (value: int, count: nat)
      requires buf.Length == 128 && start <= 127 && buf[127] == 0
      ensures Csi.Number(value, count) == Csi.Ps(buf[..], start) && count <= 127
    {
      var ch: seq<byte>;
      ch, count := TakeDigit(start, [], start, 0);
      if ch == [] {
        TakenIsPs(start, ch, count);
        return -1, count;
      }
      ch, count := TakeDigit(start, ch, count, 1);
      ch, count := TakeDigit(start, ch, count, 2);
      ch, count := TakeDigit(start, ch, count, 3);
      ch, count := TakeDigit(start, ch, count, 4);
      ch, count := TakeDigit(start, ch, count, 5);
      TakenIsPs(start, ch, count);
      if IsDigit(buf[count]) {
        return -1, count;
      }
      value := Csi.Value(ch);
    }

    /** ansi_position(), up to the call that moves the cursor. */
    method AnsiPosition(start: nat) returns (ok: bool, row: int, column: int)
      requires buf.Length == 128 && start <= 64 && buf[127] == 0
      ensures Csi.ParsePosition(buf[..], start) == if ok then Csi.Position(row, column) else Csi.BadPosition
    {
      hide Csi.Ps, Csi.Value;
      var count := start;
      row, column := -1, -1;
      while count < 128
        invariant start <= count <= start + 15
        invariant row == -1 ==> column == -1 && count == start
        invariant row != -1 && column == -1 ==> row == 0 && buf[start] == ';' as int && count == start + 1
        invariant column != -1 ==> Csi.ParsePosition(buf[..], start) == Csi.BadPosition
        decreases if row == -1 then 2 else if column == -1 then 1 else 0
      {
        if row != -1 && column != -1 {
          return false, row, column;
        }
        var ps: int;
        if row == -1 && buf[count] == ';' as int {
          row := 0;
          count := count + 1;
          continue;
        } else if row == -1 {
          ps, count := AnsiPs(count);
          if ps == -1 {
            return false, row, column;
          }
          row := ps - 1;
          if row < 0 {
            row := 0;
          }
        }
        ghost var at, r := count, row;
        assert Csi.ParsePosition(buf[..], start) == Csi.ParseColumn(buf[..], at, r);
        if buf[count] == 0 {
          column := 0;
        } else if buf[count] != ';' as int {
          return false, row, column;
        } else {
          count := count + 1;
          ps, count := AnsiPs(count);
          if ps == -1 {
            return false, row, column;
          }
          column := ps - 1;
          if column < 0 {
            column := 0;
          }
        }
        count := count + 1;
        if buf[count] == 0 {
          return true, row, column;
        }
      }
      assert false;
    }

    /** The parsers that take one number: ansi_ich() and its likes.  `omitted` is what a lone semicolon stands for. */
    method AnsiOne(start: nat, omitted: int, bias: int) returns (value: int)
      requires buf.Length == 128 && start <= 64 && buf[127] == 0 && 0 <= bias <= 1 && 0 <= omitted
      ensures value == Csi.ParseOne(buf[..], start, bias)
    {
      hide Csi.Value;
      var count := start;
      value := -1;
      while count < 128
        invariant start <= count <= start + 15
        invariant value == -1 ==> count == start
        invariant value != -1 ==> Csi.ParseOne(buf[..], start, bias) == -1
        decreases if value == -1 then 1 else 0
      {
        if value != -1 {
          return -1;
        }
        if value == -1 && buf[count] == ';' as int {
          value := omitted;
          count := count + 1;
          continue;
        } else if value == -1 {
          var ps: int;
          ps, count := AnsiPs(count);
          if ps == -1 {
            return -1;
          }
          value := ps - bias;
          if value < 0 {
            return -1;
          }
        }
        if buf[count] == 0 {
          return value;
        } else if buf[count] != ';' as int {
          return -1;
        } else {
          count := count + 1;
        }
        count := count + 1;
        if buf[count] == 0 {
          return value;
        }
      }
      assert false;
    }

    /** ansi_color(): the answer, and what is left in the output attribute. */
    method AnsiColor(start: nat, attributes: Attr) returns (ok: bool, output: Attr)
      requires buf.Length == 128 && start <= 127 && buf[127] == 0
      ensures Csi.Sgr(ok, output) == Csi.AnsiColor(env, buf[..], start, attributes, d.color)
    {
      hide Csi.Ps, Csi.SgrStep;
      var pen := attributes.(fg := d.color.fg, bg := d.color.bg);
      var count := start;
      while count < 128
        invariant start <= count <= 128
        invariant Csi.AnsiColor(env, buf[..], start, attributes, d.color) ==
                  if count < 128 then Csi.ParseSgr(env, buf[..], count, pen) else Csi.Sgr(false, pen.(fg := Black, bg := Black))
        decreases 128 - count
      {
        var ps: int;
        ps, count := AnsiPs(count);
        if ps == -1 {
          return false, pen.(fg := Black, bg := Black);
        }
        pen := Csi.SgrStep(env, pen, ps);
        if buf[count] != ';' as int {
          return true, pen;
        }
        count := count + 1;
      }
      return false, pen.(fg := Black, bg := Black);
    }

    // -------------------------------------------------------------- ansi()

    /** The end of ansi(): the sequence is not known. */
    method AnsiUnknown(b: byte) returns (status: Status, ch: int)
      requires buf.Length == 128 && i < 128
      modifies this`n, this`i, this`ansi, this`fault, buf
      ensures Result(View(), status, ch) == Ansi.Unknown(old(View()), b)
    {
      SaveChar(b);
      ch := buf[i];
      i := i + 1;
      ansi := ansi.(scan := AnsiNone);
      if n == 1 {
        i := 0;
        n := 0;
        return OneChar, ch;
      }
      return ManyChars, ch;
    }

    method AnsiGround(b: byte) returns (status: Status, ch: int)
      requires buf.Length == 128
      modifies this, buf
      ensures Result(View(), status, ch) == Ansi.Ground(env, old(View()), b)
    {
      if b == ESC {
        SaveChar(b);
        ansi := ansi.(scan := AnsiEsc, attributes := d.color);
        return NoCharYet, 1;
      }
      if IsControl(b) {
        HandleControl(b);
        return NoCharYet, 1;
      }
      ch := env.glyph(b);
      ansi := ansi.(rep := ch);
      if env.ansiAnimate && ansi.shown != d.color {
        d := d.Emit(Refresh);
        ansi := ansi.(shown := d.color);
      }
      return OneChar, ch;
    }

    /** generic_handle_control_char(). */
    method HandleControl(b: byte)
      modifies this`d
      ensures d == Control(env, old(d), b)
    {
      match b {
        case 0x05 => d := d.Emit(Answerback);
        case 0x07 => d := d.Emit(Beep);
        case 0x08 => d := d.Emit(CursorLeft(1));
        case 0x09 => d := d.Blanks(80);
        case 0x0A => d := d.Emit(LineFeed);
        case 0x0B => d := d.Emit(LineFeed);
        case 0x0C => d := d.Emit(FormFeed);
        case 0x0D => d := d.Emit(CarriageReturn);
        case _ => d := d.Put(env.cp437(b));
      }
    }

    method AnsiEscape(b: byte) returns (status: Status, ch: int)
      requires buf.Length == 128 && i < 128
      modifies this, buf
      ensures Result(View(), status, ch) == Ansi.Escape(env, old(View()), b)
    {
      if b == '[' as int {
        SaveChar(b);
        ansi := ansi.(scan := AnsiStart);
        return NoCharYet, 1;
      }
      if b == 'Z' as int {
        d := d.Emit(Send(Ansi.IDENTITY));
        ClearAnsi();
        return NoCharYet, 1;
      }
      if b == ESC {
        return NoCharYet, 1;
      }
      status, ch := AnsiUnknown(b);
    }

    method AnsiBegin(b: byte) returns (status: Status, ch: int)
      requires buf.Length == 128 && i < 128
      modifies this, buf
      ensures Result(View(), status, ch) == Ansi.Start(env, old(View()), b)
    {
      if IsDigit(b) {
        ansi := ansi.(count := n, scan := AnsiCount);
        SaveChar(b);
        return NoCharYet, 1;
      }
      if b == ';' as int {
        ansi := ansi.(count := n, scan := AnsiCountTwo);
        SaveChar(b);
        return NoCharYet, 1;
      }
      if b == 'M' as int && env.ansiMusic {
        ansi := ansi.(music := [b], scan := AnsiMusic);
        return NoCharYet, 1;
      }
      if b == '=' as int {
        ansi := ansi.(privateMode := true);
        return NoCharYet, 1;
      }
      if b == '?' as int {
        ansi := ansi.(decPrivateMode := true);
        return NoCharYet, 1;
      }
      if b == ' ' as int {
        ansi := ansi.(discard := true);
        return NoCharYet, 1;
      }
      if b == 's' as int {
        ansi := ansi.(savedX := env.cursorX(d.trace), savedY := env.cursorY(d.trace));
        ClearAnsi();
        return NoCharYet, 1;
      }
      if Ansi.IsStartFinal(b) {
        d := Ansi.StartEffect(env, d, ansi, b);
        ClearAnsi();
        return NoCharYet, 1;
      }
      status, ch := AnsiUnknown(b);
    }

    /** ansi_rep(): the last character again and again. */
    method RepeatCharacter(times: nat)
      modifies this`d
      ensures d == old(d).PutTimes(ansi.rep, times)
    {
      for k := 0 to times
        invariant d == old(d).PutTimes(ansi.rep, k)
      {
        d := d.Put(ansi.rep);
      }
    }

    /** ansi_cht(): tab after tab. */
    method TabForward(times: nat)
      modifies this`d
      ensures d == old(d).BlanksTimes(79, times)
    {
      for k := 0 to times
        invariant d == old(d).BlanksTimes(79, k)
      {
        d := d.Blanks(79);
      }
    }

    method AnsiLocate(b: byte) returns (status: Status, ch: int)
      requires buf.Length == 128 && i < 128 && buf[127] == 0 && ansi.count == 2
      modifies this, buf
      ensures Result(View(), status, ch) == Ansi.Locate(env, old(View()), b)
    {
      hide Csi.ParsePosition;
      var ok, row, column := AnsiPosition(ansi.count);
      if ok {
        d := d.Emit(CursorPosition(row, column));
        ClearAnsi();
        return NoCharYet, 1;
      }
      status, ch := AnsiUnknown(b);
    }

    method AnsiColour(b: byte) returns (status: Status, ch: int)
      requires buf.Length == 128 && i < 128 && buf[127] == 0 && ansi.count == 2
      modifies this, buf
      ensures Result(View(), status, ch) == Ansi.Colour(env, old(View()), b)
    {
      hide Csi.AnsiColor;
      var ok, pen := AnsiColor(ansi.count, ansi.attributes);
      ansi := ansi.(attributes := pen);
      if ok {
        d := d.(color := pen);
        ClearAnsi();
        return NoCharYet, 1;
      }
      status, ch := AnsiUnknown(b);
    }

    method AnsiParameter(b: byte) returns (status: Status, ch: int)
      requires buf.Length == 128 && i < 128 && buf[127] == 0 && ansi.count == 2
      modifies this, buf
      ensures Result(View(), status, ch) == Ansi.Count(env, old(View()), b)
    {
      hide Csi.ParseOne, Csi.Ps, Ansi.Locate, Ansi.Colour, Ansi.Unknown;
      var ps: int;
      if IsDigit(b) {
        SaveChar(b);
        return NoCharYet, 1;
      }
      if b == ';' as int {
        SaveChar(b);
        ansi := ansi.(scan := AnsiCountTwo);
        return NoCharYet, 1;
      }
      if b == 'H' as int || b == 'f' as int {
        status, ch := AnsiLocate(b);
        return;
      }
      if b == 'm' as int {
        status, ch := AnsiColour(b);
        return;
      }
      if b == ' ' as int {
        ansi := ansi.(discard := true);
        return NoCharYet, 1;
      }
      if b == 'n' as int {
        if n == 3 && buf[2] == '6' as int {
          d := d.Emit(ReportCursor(env.cursorY(d.trace) + 1, env.cursorX(d.trace) + 1));
        }
        ClearAnsi();
        return NoCharYet, 1;
      }
      if b == '!' as int {
        ClearAnsi();
        return NoCharYet, 1;
      }
      if b as char in {'K', 'J', 'A', 'B', 'C', 'D'} {
        var end: nat;
        ps, end := AnsiPs(ansi.count);
      } else if b as char in {'@', 'I', 'L', 'M', 'P', 'b', 'd', 'G', 'h', 'l'} {
        ps := AnsiOne(ansi.count, if b as char in {'d', 'G', 'h', 'l'} then 0 else 1, if b as char in {'d', 'G', 'I'} then 1 else 0);
      } else {
        ps := -1;
      }
      if ps == -1 {
        status, ch := AnsiUnknown(b);
        return;
      }
      AnsiEffect(b, ps);
      ClearAnsi();
      return NoCharYet, 1;
    }

    /** The final bytes with one number. */
    method AnsiEffect(b: byte, ps: nat)
      modifies this`d
      ensures d == Ansi.CountEffect(env, old(d), ansi, b, ps)
    {
      var x, y := env.cursorX(d.trace), env.cursorY(d.trace);
      match b as char {
        case 'K' =>
          if ps == 0 { d := d.Emit(EraseLine(x, env.lineLength(d.trace))); }
          if ps == 1 { d := d.Emit(EraseLine(0, x)); }
          if ps == 2 { d := d.Emit(EraseLine(0, env.lineLength(d.trace))); }
        case 'J' =>
          if ps == 0 { d := d.Emit(EraseScreen(y, x, env.rows - 1, env.columns - 1)); }
          if ps == 1 { d := d.Emit(EraseScreen(0, 0, y, x)); }
          if ps == 2 { d := d.Emit(FormFeed); }
        case 'A' => d := d.Emit(CursorUp(ps));
        case 'B' => d := d.Emit(CursorDown(ps));
        case 'C' => d := d.Emit(CursorRight(ps));
        case 'D' => d := d.Emit(CursorLeft(ps));
        case '@' => d := d.Emit(InsertBlanks(ps));
        case 'I' => TabForward(ps);
        case 'L' => d := d.Emit(ScrollDown(y, env.scrollBottom, ps));
        case 'M' => d := d.Emit(ScrollUp(y, env.scrollBottom, ps));
        case 'P' => d := d.Emit(DeleteCharacter(ps));
        case 'b' => RepeatCharacter(ps);
        case 'd' => d := d.Emit(CursorPosition(ps, x));
        case 'G' => d := d.Emit(CursorPosition(y, ps));
        case 'h' => if ps == 7 && (ansi.privateMode || ansi.decPrivateMode) { d := d.(lineWrap := true); }
        case 'l' => if ps == 7 && (ansi.privateMode || ansi.decPrivateMode) { d := d.(lineWrap := false); }
        case _ =>
      }
    }

    method AnsiList(b: byte) returns (status: Status, ch: int)
      requires buf.Length == 128 && i < 128 && buf[127] == 0 && ansi.count == 2
      requires ansi.scan in {AnsiCountTwo, AnsiCountMany}
      modifies this, buf
      ensures Result(View(), status, ch) ==
              if old(ansi.scan) == AnsiCountTwo then Ansi.CountTwo(env, old(View()), b) else Ansi.CountMany(env, old(View()), b)
    {
      hide Ansi.Locate, Ansi.Colour, Ansi.Unknown;
      if IsDigit(b) {
        SaveChar(b);
        return NoCharYet, 1;
      }
      if b == ';' as int {
        SaveChar(b);
        ansi := ansi.(scan := AnsiCountMany);
        return NoCharYet, 1;
      }
      if b == 'm' as int {
        status, ch := AnsiColour(b);
        return;
      }
      if ansi.scan == AnsiCountTwo {
        if b == 'H' as int || b == 'f' as int {
          status, ch := AnsiLocate(b);
          return;
        }
        if b == ' ' as int {
          ansi := ansi.(discard := true);
          return NoCharYet, 1;
        }
        if b == 'D' as int && ansi.discard {
          ClearAnsi();
          return NoCharYet, 1;
        }
      }
      status, ch := AnsiUnknown(b);
    }

    method AnsiMusicByte(b: byte) returns (status: Status, ch: int)
      requires buf.Length == 128
      modifies this, buf
      ensures Result(View(), status, ch) == Ansi.Music(env, old(View()), b)
    {
      if b == 0x0E || b == CR {
        d := d.Emit(Refresh);
        d := d.Emit(PlayMusic(ansi.music));
        ClearAnsi();
        return NoCharYet, 1;
      }
      ansi := ansi.(music := ansi.music + [b]);
      if |ansi.music| >= Ansi.MUSIC_SIZE {
        ClearAnsi();
      }
      return NoCharYet, 1;
    }

    /** ansi(). */
    method AnsiByte(b: byte) returns (status: Status, ch: int)
      requires BufferOk(View()) && AnsiOk(View()) && AnsiIdleOk(View())
      modifies this, buf
      ensures Result(View(), status, ch) == Ansi.Step(env, old(View()), b)
    {
      hide Ansi.Ground, Ansi.Escape, Ansi.Start, Ansi.Count, Ansi.CountTwo, Ansi.CountMany, Ansi.Music;
      match ansi.scan {
        case AnsiNone => status, ch := AnsiGround(b);
        case AnsiEsc => status, ch := AnsiEscape(b);
        case AnsiStart => status, ch := AnsiBegin(b);
        case AnsiCount => status, ch := AnsiParameter(b);
        case AnsiCountTwo => status, ch := AnsiList(b);
        case AnsiCountMany => status, ch := AnsiList(b);
        case AnsiMusic => status, ch := AnsiMusicByte(b);
      }
    }

    // ------------------------------------------------------------- avatar()

    method AvatarGround(b: byte) returns (status: Status, ch: int)
      requires buf.Length == 128
      modifies this, buf
      ensures Result(View(), status, ch) == Avatar.Ground(env, old(View()), b)
    {
      if b == ESC {
        SaveChar(b);
        avatar := avatar.(scan := AtEsc);
        return NoCharYet, 1;
      }
      if b == 0x16 {
        SaveChar(b);
        avatar := avatar.(scan := AtV);
        return NoCharYet, 1;
      }
      if b == 0x0C {
        d := d.Emit(FormFeed);
        d := d.(color := env.Text());
        ClearAvatar();
        return NoCharYet, 1;
      }
      if b == 0x19 {
        SaveChar(b);
        avatar := avatar.(scan := AtY1);
        return NoCharYet, 1;
      }
      if IsControl(b) {
        HandleControl(b);
        return NoCharYet, 1;
      }
      return OneChar, env.glyph(b);
    }

    /** repeat_loop: the rest of a run. */
    method AvatarRun() returns (status: Status, ch: int)
      requires buf.Length == 128
      modifies this, buf
      ensures Result(View(), status, ch) == Avatar.EmitRun(env, old(View()))
    {
      while avatar.yCount != 0
        invariant buf[..] == old(buf[..])
        invariant Avatar.EmitRun(env, View()) == Avatar.EmitRun(env, old(View()))
        decreases avatar.yCount
      {
        avatar := avatar.(yCount := avatar.yCount - 1);
        if !IsControl(avatar.yChar) {
          return ManyChars, env.glyph(avatar.yChar);
        }
        HandleControl(avatar.yChar);
      }
      var insert := d.insert;
      ClearAvatar();
      if insert {
        d := d.(insert := true);
      }
      return NoCharYet, 1;
    }

    method AvatarScroll(b: byte)
      requires buf.Length == 128
      modifies this, buf
      ensures Silent(View()) == Avatar.ScrollRectangle(env, old(View()), b)
    {
      avatar := avatar.(right := b);
      if avatar.lines == 0 || avatar.lines > env.rows {
        d := d.Emit(EraseScreen(0, 0, env.rows - 1, env.columns - 1));
      } else {
        var upper, left, lower, right := avatar.upper, avatar.left, avatar.lower, avatar.right;
        if upper > 0 { upper := upper - 1; }
        if left > 0 { left := left - 1; }
        if lower > 0 { lower := lower - 1; }
        if right > 0 { right := right - 1; }
        avatar := avatar.(upper := upper, left := left, lower := lower, right := right);
        d := d.Emit(if avatar.scrollUp then RectangleUp(upper, left, lower, right, avatar.lines)
                    else RectangleDown(upper, left, lower, right, avatar.lines));
      }
      ClearAvatar();
    }

    method AvatarCapture(b: byte)
      requires buf.Length == 128
      modifies this, buf
      ensures Silent(View()) == Avatar.CapturePattern(old(View()), b)
    {
      SaveChar(b);
      if |avatar.pattern| > avatar.patternSize {
        fault := true;
        return;
      }
      avatar := avatar.(pattern := avatar.pattern + [b]);
      if |avatar.pattern| == avatar.patternSize {
        avatar := avatar.(scan := AtVY3);
      }
    }

    /** The repeat buffer: `count` copies of the pattern, laid down from the last to the first. */
    method CopyPattern(count: nat) returns (copies: array<byte>)
      ensures fresh(copies) && copies[..] == Avatar.Times(avatar.pattern, count)
    {
      var p := avatar.pattern;
      TimesLength(p, count);
      copies := new byte[|p| * count](k => 0);
      var y: nat := count;
      while y > 0
        invariant y <= count && 0 <= |p| * y <= copies.Length
        invariant Avatar.Times(p, count) == Avatar.Times(p, y) + copies[|p| * y..]
      {
        TimesLength(p, y - 1);
        var at: nat := |p| * (y - 1);
        assert at + |p| == |p| * y;
        CopyAt(copies, at, p);
        assert copies[at..] == p + copies[|p| * y..];
        y := y - 1;
      }
      assert copies[..] == copies[|p| * y..];
    }

    /** memcpy(). */
    static method CopyAt(copies: array<byte>, at: nat, p: seq<byte>)
      requires at + |p| <= copies.Length
      modifies copies
      ensures copies[..] == old(copies[..at]) + p + old(copies[at + |p|..])
      ensures copies[at..] == p + old(copies[at + |p|..])
    {
      forall k | 0 <= k < |p| {
        copies[at + k] := p[k];
      }
    }

    method AvatarRepeat(b: byte)
      requires buf.Length == 128
      modifies this, buf
      ensures Result(View(), RepeatState, 1) == Avatar.RepeatPattern(old(View()), b)
    {
      var copies := CopyPattern(b);
      repeat := copies[..];
      avatar := avatar.(yCount := 0, pattern := [], scan := AtNone);
      var insert := d.insert;
      ClearAvatar();
      if insert {
        d := d.(insert := true);
      }
    }

    /** One line of ^V^L or ^V^M: the colour is borrowed for it. */
    method FillOne(fill: byte, attr: byte, width: byte)
      modifies this`d
      ensures d == Avatar.FillLine(env, old(d), fill, attr, width)
    {
      var color := d.color;
      d := d.(color := Avatar.PcColor(attr));
      var from := env.cursorX(d.trace);
      d := d.Emit(Event.FillLine(from, from + width, fill, d.color));
      d := d.(color := color);
      if env.cursorY(d.trace) <= env.rows - 1 {
        d := d.Emit(CursorDown(1));
      }
    }

    method AvatarFill(b: byte)
      requires buf.Length == 128
      modifies this, buf
      ensures Silent(View()) == Avatar.FillArea(env, old(View()), b)
    {
      hide Avatar.FillLine;
      if n < 5 {
        fault := true;
        return;
      }
      var x, y := env.cursorX(d.trace), env.cursorY(d.trace);
      FillAll(buf[2], buf[3], buf[4], b);
      d := d.Emit(CursorPosition(y, x));
      ClearAvatar();
    }

    method FillAll(fill: byte, attr: byte, width: byte, lines: nat)
      modifies this`d
      ensures d == Avatar.FillLines(env, old(d), fill, attr, width, lines)
    {
      hide Avatar.FillLine;
      for k := 0 to lines
        invariant d == Avatar.FillLines(env, old(d), fill, attr, width, k)
      {
        FillOne(fill, attr, width);
      }
    }

    method AvatarCommand(b: byte) returns (status: Status, ch: int)
      requires BufferOk(View()) && AnsiOk(View()) && AvatarOk(View()) && avatar.scan == AtV && !fault
      modifies this, buf
      ensures Result(View(), status, ch) == Avatar.Command(env, old(View()), b)
    {
      hide Avatar.Rejected;
      status, ch := NoCharYet, 1;
      match b {
        case 0x01 => SaveChar(b); avatar := avatar.(scan := AtA1);
        case 0x02 => d := d.(color := d.color.(blink := true)); ClearAvatar();
        case 0x03 => d := d.Emit(CursorUp(1)); ClearAvatar();
        case 0x04 => d := d.Emit(CursorDown(1)); ClearAvatar();
        case 0x05 => d := d.Emit(CursorLeft(1)); ClearAvatar();
        case 0x06 => d := d.Emit(CursorRight(1)); ClearAvatar();
        case 0x07 => d := d.Emit(EraseLine(env.cursorX(d.trace), env.columns - 1)); ClearAvatar();
        case 0x08 => SaveChar(b); avatar := avatar.(scan := AtH1);
        case 0x09 => ClearAvatar(); d := d.(insert := true);
        case 0x0A => avatar := avatar.(scrollUp := true); SaveChar(b); SaveChar(0x20); avatar := avatar.(scan := AtJK1);
        case 0x0B => avatar := avatar.(scrollUp := false); SaveChar(b); SaveChar(0x20); avatar := avatar.(scan := AtJK1);
        case 0x0C => SaveChar(b); SaveChar(0x20); avatar := avatar.(scan := AtVM2);
        case 0x0D => SaveChar(b); avatar := avatar.(scan := AtVM1);
        case 0x0E => d := d.Emit(DeleteCharacter(1)); ClearAvatar();
        case 0x10 => ClearAvatar();
        case 0x19 => SaveChar(b); avatar := avatar.(scan := AtVY1);
        case _ => status, ch := AvatarRejected();
      }
    }

    /** SCAN_ESC and SCAN_CSI. */
    method AvatarEscape(b: byte) returns (status: Status, ch: int)
      requires BufferOk(View()) && AnsiOk(View()) && AvatarOk(View()) && avatar.scan in {AtEsc, AtCsi} && !fault
      modifies this, buf
      ensures Result(View(), status, ch) ==
              if old(avatar.scan) == AtEsc then Avatar.Escape(env, old(View()), b) else Avatar.Bracket(env, old(View()), b)
    {
      hide Avatar.Rejected;
      SaveChar(b);
      if avatar.scan == AtEsc {
        if b == '[' as int && env.avatarColor {
          avatar := avatar.(scan := AtCsi);
          return NoCharYet, 1;
        }
      } else {
        if IsDigit(b) {
          avatar := avatar.(count := n - 1, scan := AtCsiParam);
          return NoCharYet, 1;
        }
        if b == 'm' as int {
          d := d.(color := env.Text());
          ClearAvatar();
          return NoCharYet, 1;
        }
      }
      status, ch := AvatarRejected();
    }

    method AvatarParameter(b: byte) returns (status: Status, ch: int)
      requires BufferOk(View()) && AnsiOk(View()) && AvatarOk(View()) && avatar.scan == AtCsiParam && !fault
      modifies this, buf
      ensures Result(View(), status, ch) == Avatar.Parameter(env, old(View()), b)
    {
      hide Avatar.Rejected, Csi.AnsiColor;
      SaveChar(b);
      if IsDigit(b) || b == ';' as int {
        return NoCharYet, 1;
      }
      if b == 'm' as int {
        var ok, pen := AnsiColor(avatar.count, avatar.attributes);
        avatar := avatar.(attributes := pen);
        if ok {
          d := d.(color := pen);
          ClearAvatar();
          return NoCharYet, 1;
        }
      }
      status, ch := AvatarRejected();
    }

    /** The end of avatar(): fall back to ansi(), or begin to print. */
    method AvatarRejected() returns (status: Status, ch: int)
      requires BufferOk(View()) && (fault || (ansi.scan == AnsiNone && i == 0 && 0 < n))
      modifies this, buf
      ensures Result(View(), status, ch) == Avatar.Rejected(env, old(View()))
    {
      hide Avatar.Relay;
      if fault {
        return NoCharYet, 1;
      }
      if env.avatarFallback {
        assert buf[..n] == buf[..][..n];
        avatar := avatar.(scan := AtFallback, relay := buf[..n], relayed := 0);
        i := 0;
        n := 0;
        status, ch := AvatarRelay();
        return;
      }
      avatar := avatar.(scan := AtDump);
      ch := env.glyph(buf[i]);
      i := i + 1;
      if n == 1 {
        i := 0;
        n := 0;
        return OneChar, ch;
      }
      return ManyChars, ch;
    }

    /** SCAN_ANSI_FALLBACK: hand bytes over until ansi() answers. */
    method AvatarRelay() returns (status: Status, ch: int)
      requires BufferOk(View()) && AnsiOk(View()) && AnsiIdleOk(View()) && !fault
      requires avatar.relayed < |avatar.relay| && avatar.scan == AtFallback
      modifies this, buf
      ensures Result(View(), status, ch) == Avatar.Relay(env, old(View()))
    {
      hide Ansi.Step;
      status, ch := NoCharYet, 1;
      while status == NoCharYet && !fault
        invariant !fault && status == NoCharYet ==>
                    && BufferOk(View()) && AnsiOk(View()) && AnsiIdleOk(View())
                    && avatar.relayed < |avatar.relay| && avatar.scan == AtFallback
                    && Avatar.Relay(env, View()) == Avatar.Relay(env, old(View()))
        invariant fault || status != NoCharYet ==> Result(View(), status, ch) == Avatar.Relay(env, old(View()))
        decreases |avatar.relay| - avatar.relayed, status == NoCharYet
      {
        ghost var was := View();
        var v := avatar;
        AnsiStepKeeps(env, was, v.relay[v.relayed]);
        status, ch := AnsiByte(v.relay[v.relayed]);
        var scan := match status
                    case NoCharYet => AtFallback
                    case ManyChars => AtDump
                    case _ => AtNone;
        avatar := v.(scan := scan, relayed := v.relayed + 1);
        if avatar.relayed == |avatar.relay| {
          avatar := avatar.(relay := [], relayed := 0);
          return;
        }
      }
    }

    method AvatarDump() returns (status: Status, ch: int)
      requires buf.Length == 128 && (n != 0 ==> i < 128)
      modifies this, buf
      ensures Result(View(), status, ch) == Avatar.Dump(env, old(View()))
    {
      if n == 0 {
        fault := true;
        return NoCharYet, 1;
      }
      ch := env.glyph(buf[i]);
      if i + 1 == n {
        Wipe();
        avatar := avatar.(scan := AtNone);
        return OneChar, ch;
      }
      i := i + 1;
      return ManyChars, ch;
    }

    /** The states that end a command with their operand. */
    method AvatarLastOperand(b: byte)
      requires buf.Length == 128 && avatar.scan in {AtA1, AtH2}
      modifies this, buf
      ensures Silent(View()) == Avatar.Step(env, old(View()), b)
    {
      hide Avatar.EmitRun, Avatar.Relay, Avatar.Rejected, Avatar.Command, Avatar.Escape, Avatar.Bracket, Avatar.Parameter,
           Avatar.Dump, Avatar.FillArea, Avatar.ScrollRectangle, Avatar.CapturePattern, Avatar.RepeatPattern, Avatar.Ground,
           Avatar.FallbackByte;
      if avatar.scan == AtA1 {
        d := d.(color := Avatar.PcColor(b));
      } else {
        var y, x := buf[2] as int - 1, b as int - 1;
        if x < 0 { x := 0; }
        if y < 0 { y := 0; }
        d := d.Emit(CursorPosition(y, x));
      }
      ClearAvatar();
    }

    /** The states that keep an operand of ^V^J and ^V^K. */
    method AvatarScrollOperand(b: byte)
      requires buf.Length == 128 && avatar.scan in {AtJK1, AtJK2, AtJK3, AtJK4}
      modifies this, buf
      ensures Silent(View()) == Avatar.Step(env, old(View()), b)
    {
      hide Avatar.EmitRun, Avatar.Relay, Avatar.Rejected, Avatar.Command, Avatar.Escape, Avatar.Bracket, Avatar.Parameter,
           Avatar.Dump, Avatar.FillArea, Avatar.ScrollRectangle, Avatar.CapturePattern, Avatar.RepeatPattern, Avatar.Ground,
           Avatar.FallbackByte;
      match avatar.scan {
        case AtJK1 => avatar := avatar.(lines := b, scan := AtJK2);
        case AtJK2 => avatar := avatar.(upper := b, scan := AtJK3);
        case AtJK3 => avatar := avatar.(left := b, scan := AtJK4);
        case AtJK4 => avatar := avatar.(lower := b, scan := AtJK5);
      }
      SaveChar(b);
    }

    /** The other states that keep an operand. */
    method AvatarOperand(b: byte)
      requires buf.Length == 128 && avatar.scan in {AtH1, AtY1, AtVY1, AtVM1, AtVM2, AtVM3}
      modifies this, buf
      ensures Silent(View()) == Avatar.Step(env, old(View()), b)
    {
      hide Avatar.EmitRun, Avatar.Relay, Avatar.Rejected, Avatar.Command, Avatar.Escape, Avatar.Bracket, Avatar.Parameter,
           Avatar.Dump, Avatar.FillArea, Avatar.ScrollRectangle, Avatar.CapturePattern, Avatar.RepeatPattern, Avatar.Ground,
           Avatar.FallbackByte;
      match avatar.scan {
        case AtH1 => avatar := avatar.(scan := AtH2);
        case AtY1 => avatar := avatar.(yChar := b, scan := AtY2);
        case AtVY1 => avatar := avatar.(patternSize := b, pattern := [], scan := AtVY2);
        case AtVM1 => avatar := avatar.(scan := AtVM2);
        case AtVM2 => avatar := avatar.(scan := AtVM3);
        case AtVM3 => avatar := avatar.(scan := AtVM4);
      }
      SaveChar(b);
    }

    /** avatar(). */
    method AvatarByte(b: byte) returns (status: Status, ch: int)
      requires BufferOk(View()) && AnsiOk(View()) && AvatarOk(View()) && !fault
      modifies this, buf
      ensures Result(View(), status, ch) == Avatar.Step(env, old(View()), b)
    {
      hide Avatar.EmitRun, Avatar.Relay, Avatar.Rejected, Avatar.Command, Avatar.Escape, Avatar.Bracket, Avatar.Parameter,
           Avatar.Dump, Avatar.FillArea, Avatar.ScrollRectangle, Avatar.CapturePattern, Avatar.RepeatPattern, Avatar.Ground,
           Ansi.Step;
      status, ch := NoCharYet, 1;
      match avatar.scan {
        case AtFallback =>
          if avatar.relay == [] {
            avatar := avatar.(relay := [b]);
          }
          status, ch := AvatarRelay();
        case AtNone => status, ch := AvatarGround(b);
        case AtY2 =>
          avatar := avatar.(yCount := b, scan := AtYEmit);
          status, ch := AvatarRun();
        case AtYEmit => status, ch := AvatarRun();
        case AtJK5 => AvatarScroll(b);
        case AtVY2 => AvatarCapture(b);
        case AtVY3 =>
          AvatarRepeat(b);
          status := RepeatState;
        case AtVM4 => AvatarFill(b);
        case AtV => status, ch := AvatarCommand(b);
        case AtEsc => status, ch := AvatarEscape(b);
        case AtCsi => status, ch := AvatarEscape(b);
        case AtCsiParam => status, ch := AvatarParameter(b);
        case AtDump => status, ch := AvatarDump();
        case AtA1 => AvatarLastOperand(b);
        case AtH2 => AvatarLastOperand(b);
        case AtJK1 => AvatarScrollOperand(b);
        case AtJK2 => AvatarScrollOperand(b);
        case AtJK3 => AvatarScrollOperand(b);
        case AtJK4 => AvatarScrollOperand(b);
        case _ => AvatarOperand(b);
      }
    }

    // ------------------------------------------------- the dispatcher and the console

    method Emulate(b: byte) returns (status: Status, ch: int)
      requires BufferOk(View()) && AnsiOk(View()) && !fault
      requires match env.emulation case EmulateAnsi => AnsiIdleOk(View()) case EmulateAvatar => AvatarOk(View())
      modifies this, buf
      ensures Result(View(), status, ch) == Console.Emulate(env, old(View()), b)
    {
      hide Ansi.Step, Avatar.Step;
      match env.emulation {
        case EmulateAnsi => status, ch := AnsiByte(b);
        case EmulateAvatar => status, ch := AvatarByte(b);
      }
    }

    /** The loop over a stored pattern. */
    method Replay(bytes: seq<byte>)
      requires env.emulation == EmulateAvatar && BufferOk(View()) && AnsiOk(View()) && AvatarOk(View()) && !fault
      modifies this, buf
      ensures View() == Console.Replay(env, old(View()), bytes)
    {
      hide Ansi.Step, Avatar.Step;
      var k := 0;
      while k < |bytes| && !fault
        invariant k <= |bytes|
        invariant !fault ==> BufferOk(View()) && AnsiOk(View()) && AvatarOk(View())
        invariant Console.Replay(env, View(), bytes[k..]) == Console.Replay(env, old(View()), bytes)
      {
        ghost var was := View();
        AvatarStepKeeps(env, was, bytes[k]);
        var status, ch := AvatarByte(bytes[k]);
        assert bytes[k..][0] == bytes[k] && bytes[k..][1..] == bytes[k + 1..];
        if status == OneChar {
          d := d.Put(env.glyph(ch % 256));
        }
        if status == RepeatState {
          fault := true;
        }
        k := k + 1;
      }
    }

    /** terminal_emulator(). */
    method TerminalEmulator(b: byte) returns (status: Status, ch: int)
      requires Console.Inv(env, View()) && !fault
      modifies this, buf
      ensures Result(View(), status, ch) == Console.TerminalEmulator(env, old(View()), b)
    {
      hide Console.Continue, Console.Fresh;
      Console.JunkKeeps(env, View());
      if n >= 127 {
        Wipe();
        last := NoCharYet;
      }
      if last == ManyChars {
        status, ch := Continue(b);
      } else {
        received := received + 1;
        status, ch := Fresh(b);
      }
    }

    method Continue(b: byte) returns (status: Status, ch: int)
      requires Console.Inv(env, View()) && !fault && last == ManyChars
      modifies this, buf
      ensures Result(View(), status, ch) == Console.Continue(env, old(View()), b)
    {
      hide Ansi.Step, Avatar.Step;
      if env.emulation == EmulateAvatar {
        status, ch := AvatarByte(b);
        last := status;
        return;
      }
      if n == 0 {
        last := NoCharYet;
        return NoCharYet, 0;
      }
      ch := env.glyph(buf[i]);
      i := i + 1;
      if i == n {
        Wipe();
      }
      return ManyChars, ch;
    }

    method Fresh(b: byte) returns (status: Status, ch: int)
      requires Console.Ready(env, View())
      modifies this, buf
      ensures Result(View(), status, ch) == Console.Fresh(env, old(View()), b)
    {
      hide Ansi.Step, Avatar.Step, Console.Replay;
      if env.emulation == EmulateAnsi {
        if b == CR {
          d := d.Emit(CarriageReturn);
          return NoCharYet, 1;
        }
        if b == LF {
          d := d.Emit(LineFeed);
          return NoCharYet, 1;
        }
      }
      Answers(env, View(), b);
      status, ch := Emulate(b);
      if status == RepeatState {
        if !fault {
          Replay(repeat);
        } else {
          Console.FaultStays(env, View(), repeat);
        }
        repeat := [];
        ch := 1;
        status := NoCharYet;
      }
      last := status;
    }

    /** console_process_incoming_data(), for as long as nothing stops it. */
    method ProcessIncomingData(bytes: seq<byte>)
      requires Console.Inv(env, View()) && !fault
      modifies this, buf
      ensures View() == Console.Feed(env, old(View()), bytes)
    {
      hide Console.Inv, Console.TerminalEmulator, Console.Pending, Console.CallKept;
      var k := 0;
      while k < |bytes| && !fault
        invariant k <= |bytes|
        invariant fault || Console.Inv(env, View())
        invariant Console.Feed(env, View(), bytes[k..]) == Console.Feed(env, old(View()), bytes)
      {
        assert bytes[k..][0] == bytes[k] && bytes[k..][1..] == bytes[k + 1..];
        ProcessByte(bytes[k]);
        k := k + 1;
      }
    }

    /** The loop around one received byte. */
    method ProcessByte(b: byte)
      requires Console.Inv(env, View()) && !fault
      modifies this, buf
      ensures View() == Console.ConsoleByte(env, old(View()), b)
    {
      hide Console.Inv, Console.TerminalEmulator, Console.Pending;
      Console.TerminalEmulatorKeeps(env, View(), b);
      var status, ch := TerminalEmulator(b);
      while true
        invariant Console.CallKept(env, Result(View(), status, ch))
        invariant Console.Drain(env, Result(View(), status, ch)) == Console.ConsoleByte(env, old(View()), b)
        decreases if status == ManyChars && !fault then 1 + Console.Pending(env, View()) else 0
      {
        if fault || status == NoCharYet {
          break;
        } else if status == OneChar {
          d := d.Put(ch);
          break;
        } else {
          ghost var was := View();
          Console.PutKeeps(env, was, ch);
          d := d.Put(ch);
          Console.TerminalEmulatorKeeps(env, View(), 0xFF);
          status, ch := TerminalEmulator(0xFF);
        }
      }
    }
  }

  lemma Answers(env: Env, st: State, b: byte)
    requires Console.Ready(env, st)
    ensures var r := Console.Emulate(env, st, b);
            r.status == RepeatState ==>
              env.emulation == EmulateAvatar && (r.st.fault || (BufferOk(r.st) && AnsiOk(r.st) && AvatarOk(r.st)))
  {
    hide Ansi.Step, Avatar.Step;
    match env.emulation
    case EmulateAnsi => AnsiStepKeeps(env, st, b);
    case EmulateAvatar => AvatarStepKeeps(env, st, b);
  }

  lemma {:induction false} TimesLength(p: seq<byte>, count: nat)
    ensures |Avatar.Times(p, count)| == |p| * count
    decreases count
  {
    if count != 0 {
      TimesLength(p, count - 1);
      assert |p| * count == |p| * (count - 1) + |p|;
    }
  }

  lemma {:induction false} DigitsTaken(buf: seq<byte>, at: nat, k: nat, limit: nat)
    requires at + k < |buf| && k <= limit && (forall j | at <= j < at + k :: IsDigit(buf[j]))
    requires k < limit ==> !IsDigit(buf[at + k])
    ensures Csi.DigitCount(buf, at, limit) == k
    decreases k
  {
    if k != 0 {
      DigitsTaken(buf, at + 1, k - 1, limit - 1);
    }
  }
}
