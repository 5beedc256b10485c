/**
 Sequences that are not understood: what is held in the buffer comes out again, each byte once and in order,
 unless there are exactly 127 of them.  Conservation.dfy says which received bytes are held.
 */
module Rejection {
  import opened Display
  import opened Machine
  import opened Invariant
  import opened Console
  import Ansi
  import Avatar
  import Csi

  /** The glyphs of some bytes. */
  function Glyphs(env: Env, bytes: seq<byte>): seq<int> {
    if bytes == [] then [] else [env.glyph(bytes[0])] + Glyphs(env, bytes[1..])
  }

  /** A whole sequence printed, the first byte as it is and the others through the code page. */
  function Shown(env: Env, d: Display, s: seq<byte>): Display
    requires s != []
  {
    d.Put(s[0]).PutAll(Glyphs(env, s[1..]))
  }

  // ------------------------------------------------------- what ansi() rejects

  /** The answer to a rejected byte: everything held and the byte itself are about to be printed, first byte first. */
  predicate HandsBack(st: State, b: byte, r: Result) {
    r.status == ManyChars ==>
      && st.n < |st.buf| && r.st.buf == st.buf[st.n := b] && r.st.n == st.n + 1 && r.st.i == 1
      && r.st.d == st.d && r.ch == r.st.buf[0] && r.st.last == st.last && r.st.received == st.received
      && Remembers(st.ansi, r.st.ansi)
  }

  /** What ansi() remembers, the private markers among it, outlasts a rejection. */
  predicate Remembers(v: AnsiVars, w: AnsiVars) {
    w == v.(scan := AnsiNone, attributes := w.attributes)
  }

  lemma UnknownHandsBack(st: State, b: byte)
    requires BufferOk(st) && st.i == 0 && st.n < 127
    ensures HandsBack(st, b, Ansi.Unknown(st, b))
  {
  }

  lemma LocateHandsBack(env: Env, st: State, b: byte)
    requires BufferOk(st) && st.i == 0 && st.n < 127
    ensures HandsBack(st, b, Ansi.Locate(env, st, b))
  {
    hide Csi.ParsePosition;
    UnknownHandsBack(st, b);
  }

  lemma ColourHandsBack(env: Env, st: State, b: byte)
    requires BufferOk(st) && st.i == 0 && st.n < 127
    ensures HandsBack(st, b, Ansi.Colour(env, st, b))
  {
    hide Csi.AnsiColor;
    var sgr := Csi.AnsiColor(env, st.buf, st.ansi.count, st.ansi.attributes, st.d.color);
    UnknownHandsBack(st.(ansi := st.ansi.(attributes := sgr.pen)), b);
  }

  lemma AnsiHandsBack(env: Env, st: State, b: byte)
    requires BufferOk(st) && AnsiIdleOk(st) && st.n < 127
    ensures HandsBack(st, b, Ansi.Step(env, st, b))
  {
    hide Ansi.Locate, Ansi.Colour, Ansi.Unknown, Csi.Ps, Csi.ParseOne, Ansi.CountEffect, Ansi.StartEffect;
    UnknownHandsBack(st, b);
    LocateHandsBack(env, st, b);
    ColourHandsBack(env, st, b);
  }

  // ------------------------------------------------------------- the printouts

  /** The rest of a printout under ANSI. */
  lemma {:induction false} AnsiPrintout(env: Env, st: State, ch: int)
    requires env.emulation == EmulateAnsi && Inv(env, st) && !st.fault && st.last == ManyChars && st.n < 127
    ensures var r := Drain(env, Result(st, ManyChars, ch));
            && r.d == st.d.Put(ch).PutAll(Glyphs(env, st.buf[st.i..st.n]))
            && r.n == 0 && r.i == 0 && r.ansi == st.ansi && r.ansi.scan == AnsiNone && r.last == NoCharYet
            && r.received == st.received && !r.fault
    decreases st.n - st.i
  {
    var printed := st.(d := st.d.Put(ch));
    PutKeeps(env, st, ch);
    TerminalEmulatorKeeps(env, printed, 0xFF);
    var next := TerminalEmulator(env, printed, 0xFF);
    assert next == PrintHeld(env, printed);
    if st.n != 0 {
      assert next.ch == env.glyph(st.buf[st.i]);
      assert st.buf[st.i..st.n][1..] == st.buf[st.i + 1..st.n];
      hide TerminalEmulator, Drain, Glyphs;
      AnsiPrintout(env, next.st, next.ch);
      PrintoutStep(env, st, ch, next);
    }
  }

  lemma PrintoutStep(env: Env, st: State, ch: int, next: Result)
    requires CallKept(env, Result(st, ManyChars, ch)) && !st.fault
    requires next == TerminalEmulator(env, st.(d := st.d.Put(ch)), 0xFF) && CallKept(env, next)
    ensures Drain(env, Result(st, ManyChars, ch)) == Drain(env, next)
  {
    hide TerminalEmulator, Inv;
  }

  /** What ANSI's dispatcher answers when it is asked to print what it held. */
  lemma AnsiRejects(env: Env, st: State, b: byte)
    requires env.emulation == EmulateAnsi && Ready(env, st) && TerminalEmulator(env, st, b).status == ManyChars
    ensures var r := TerminalEmulator(env, st, b);
            && 0 < st.n && Inv(env, r.st) && !r.st.fault && r.st.last == ManyChars && CallKept(env, r)
            && r.st.buf == st.buf[st.n := b] && r.st.n == st.n + 1 && r.st.i == 1
            && r.st.d == st.d && r.ch == st.buf[0] && r.st.received == st.received + 1 && Remembers(st.ansi, r.st.ansi)
  {
    hide Ansi.Step, Avatar.Step, Inv;
    var counted := st.(received := st.received + 1);
    ReadyParts(env, st);
    ReadyParts(env, counted);
    AnsiHandsBack(env, counted, b);
    AnsiStepKeeps(env, counted, b);
    TerminalEmulatorKeeps(env, st, b);
    assert Junk(st) == st;
  }

  /** A fresh byte other than CR and LF is answered by ansi(). */
  lemma AnsiCall(env: Env, st: State, b: byte)
    requires env.emulation == EmulateAnsi && Ready(env, st) && b != CR && b != LF
    ensures TerminalEmulator(env, st, b) == Noted(Ansi.Step(env, st.(received := st.received + 1), b))
    ensures AnsiKept(st.(received := st.received + 1), Ansi.Step(env, st.(received := st.received + 1), b))
  {
    hide Ansi.Step, Avatar.Step, Inv;
    var counted := st.(received := st.received + 1);
    ReadyParts(env, st);
    ReadyParts(env, counted);
    AnsiStepKeeps(env, counted, b);
    assert Junk(st) == st;
  }

  lemma ReadyParts(env: Env, st: State)
    requires env.emulation == EmulateAnsi && Ready(env, st)
    ensures BufferOk(st) && AnsiOk(st) && AnsiIdleOk(st) && Inv(env, st)
    ensures Ready(env, st.(received := st.received + 1))
  {
  }

  /** Every byte held comes out, the first as it is and the others through the code page. */
  predicate PrintedBack(env: Env, st: State, b: byte, d: Display)
    requires |st.buf| == 128 && 0 < st.n < 127
  {
    d == st.d.Put(st.buf[0]).PutAll(Glyphs(env, st.buf[1..st.n] + [b]))
  }

  lemma AnsiRejectionConserves(env: Env, st: State, b: byte)
    requires env.emulation == EmulateAnsi && Ready(env, st) && TerminalEmulator(env, st, b).status == ManyChars
    requires st.n + 1 < 127
    ensures var r := ConsoleByte(env, st, b);
            && 0 < st.n && PrintedBack(env, st, b, r.d)
            && r.n == 0 && r.ansi.scan == AnsiNone && !r.fault && r.received == st.received + 1
            && Remembers(st.ansi, r.ansi)
  {
    AnsiRejects(env, st, b);
    var r := TerminalEmulator(env, st, b);
    assert r.st.buf[1..r.st.n] == st.buf[1..st.n] + [b];
    hide TerminalEmulator, Drain, Glyphs, Inv;
    AnsiPrintout(env, r.st, r.ch);
  }

  lemma {:induction false} PutAllLength(d: Display, chs: seq<int>)
    ensures |d.PutAll(chs).trace| == |d.trace| + |chs|
    decreases chs
  {
    if chs != [] {
      PutAllLength(d.Put(chs[0]), chs[1..]);
    }
  }

  lemma {:induction false} GlyphsLength(env: Env, bytes: seq<byte>)
    ensures |Glyphs(env, bytes)| == |bytes|
  {
    if bytes != [] {
      GlyphsLength(env, bytes[1..]);
    }
  }

  /** With 127 bytes to print, the next call throws the rest away and takes its own argument for a received byte. */
  lemma AnsiRejectionLoses(env: Env, st: State, b: byte)
    requires env.emulation == EmulateAnsi && Ready(env, st) && TerminalEmulator(env, st, b).status == ManyChars
    requires st.n + 1 == 127
    ensures var r := ConsoleByte(env, st, b);
            && |st.d.trace| + 2 <= |r.d.trace| <= |st.d.trace| + 3
            && st.d.Put(st.buf[0]).trace <= r.d.trace
            && r.received == st.received + 2 && r.n == 0 && r.ansi.scan == AnsiNone && !r.fault && r.d.color == st.d.color
  {
    AnsiRejects(env, st, b);
    var r := TerminalEmulator(env, st, b);
    var printed := r.st.(d := st.d.Put(r.ch));
    PutKeeps(env, r.st, r.ch);
    TerminalEmulatorKeeps(env, printed, 0xFF);
    var next := TerminalEmulator(env, printed, 0xFF);
    var counted := Junk(printed).(received := printed.received + 1);
    assert next == Noted(Ansi.Ground(env, counted, 0xFF));
    hide TerminalEmulator, Inv;
    PrintoutStep(env, r.st, r.ch, next);
  }

  /** Conservation under ANSI: everything held is printed exactly when there are fewer than 127 bytes of it. */
  lemma AnsiConservesExactly(env: Env, st: State, b: byte)
    requires env.emulation == EmulateAnsi && Ready(env, st) && TerminalEmulator(env, st, b).status == ManyChars
    ensures 0 < st.n && (PrintedBack(env, st, b, ConsoleByte(env, st, b).d) <==> st.n + 1 < 127)
  {
    AnsiRejects(env, st, b);
    hide TerminalEmulator, ConsoleByte;
    if st.n + 1 < 127 {
      AnsiRejectionConserves(env, st, b);
    } else {
      AnsiRejectionLoses(env, st, b);
      var rest := st.buf[1..st.n] + [b];
      GlyphsLength(env, rest);
      PutAllLength(st.d.Put(st.buf[0]), Glyphs(env, rest));
    }
  }

  // ------------------------------------------------------------------- AVATAR

  lemma {:induction false} AvatarPrintout(env: Env, st: State, ch: int)
    requires env.emulation == EmulateAvatar && Inv(env, st) && !st.fault && st.last == ManyChars && st.n < 127
    requires st.avatar.scan == AtDump
    ensures var r := Drain(env, Result(st, ManyChars, ch));
            && r.d == st.d.Put(ch).PutAll(Glyphs(env, st.buf[st.i..st.n]))
            && r.n == 0 && r.i == 0 && r.avatar.scan == AtNone && r.ansi.scan == AnsiNone
            && r.last == OneChar && r.received == st.received && !r.fault
    decreases st.n - st.i
  {
    var printed := st.(d := st.d.Put(ch));
    PutKeeps(env, st, ch);
    TerminalEmulatorKeeps(env, printed, 0xFF);
    var next := TerminalEmulator(env, printed, 0xFF);
    assert Avatar.Step(env, printed, 0xFF) == Avatar.Dump(env, printed);
    hide Avatar.Step;
    assert next == Noted(Avatar.Dump(env, printed));
    assert next.ch == env.glyph(st.buf[st.i]);
    PrintoutStep(env, st, ch, next);
    assert st.buf[st.i..st.n][1..] == st.buf[st.i + 1..st.n];
    if st.i + 1 < st.n {
      hide TerminalEmulator, Drain, Glyphs;
      AvatarPrintout(env, next.st, next.ch);
      assert Glyphs(env, st.buf[st.i..st.n]) == [next.ch] + Glyphs(env, st.buf[st.i + 1..st.n]) by {
        GlyphsFirst(env, st.buf[st.i..st.n]);
      }
    }
  }

  lemma GlyphsFirst(env: Env, bytes: seq<byte>)
    requires bytes != []
    ensures Glyphs(env, bytes) == [env.glyph(bytes[0])] + Glyphs(env, bytes[1..])
  {
  }

  lemma AvatarReadyParts(env: Env, st: State)
    requires env.emulation == EmulateAvatar && Ready(env, st)
    ensures BufferOk(st) && AnsiOk(st) && AvatarOk(st) && Inv(env, st)
    ensures Ready(env, st.(received := st.received + 1))
  {
  }

  /** With fallback off, avatar() is about to print what it held and the byte, all of it through the code page. */
  lemma AvatarRejects(env: Env, st: State, b: byte)
    requires env.emulation == EmulateAvatar && !env.avatarFallback && Ready(env, st)
    requires st.avatar.scan in {AtEsc, AtCsi, AtCsiParam} && TerminalEmulator(env, st, b).status == ManyChars
    ensures var r := TerminalEmulator(env, st, b);
            && 0 < st.n && Inv(env, r.st) && !r.st.fault && r.st.last == ManyChars && CallKept(env, r)
            && r.st.buf == st.buf[st.n := b] && r.st.n == st.n + 1 && r.st.i == 1 && r.st.avatar.scan == AtDump
            && r.st.d == st.d && r.ch == env.glyph(st.buf[0]) && r.st.received == st.received + 1
  {
    hide Avatar.Step, Ansi.Step, Inv, Replay;
    var counted := st.(received := st.received + 1);
    AvatarReadyParts(env, st);
    AvatarReadyParts(env, counted);
    AvatarStepKeeps(env, counted, b);
    TerminalEmulatorKeeps(env, st, b);
    assert Junk(st) == st;
    StopsExactlyWhenStuck(env, counted, b);
    AvatarDumpBegins(env, counted, b);
  }

  lemma AvatarDumpBegins(env: Env, st: State, b: byte)
    requires !env.avatarFallback && st.avatar.scan in {AtEsc, AtCsi, AtCsiParam}
    requires BufferOk(st) && AnsiOk(st) && AvatarOk(st) && !st.fault && st.n < 127
    ensures var r := Avatar.Step(env, st, b);
            && r.status != RepeatState
            && (r.status == ManyChars ==>
                  && r.st.buf == st.buf[st.n := b] && r.st.n == st.n + 1 && r.st.i == 1 && r.st.avatar.scan == AtDump
                  && r.st.d == st.d && r.ch == env.glyph(r.st.buf[0]) && r.st.received == st.received && 0 < st.n)
            && (r.status == OneChar ==> st.n == 0)
  {
    hide Csi.AnsiColor;
  }

  /** Conservation under AVATAR without fallback: every byte held comes out through the code page if there are
      fewer than 127; with 127 the emulator stops. */
  lemma AvatarConservesExactly(env: Env, st: State, b: byte)
    requires env.emulation == EmulateAvatar && !env.avatarFallback && Ready(env, st)
    requires st.avatar.scan in {AtEsc, AtCsi, AtCsiParam} && TerminalEmulator(env, st, b).status == ManyChars
    ensures var r := ConsoleByte(env, st, b);
            && (r.fault <==> st.n + 1 == 127)
            && (!r.fault ==> r.d == st.d.PutAll(Glyphs(env, st.buf[..st.n] + [b]))
                             && r.n == 0 && r.avatar.scan == AtNone && r.received == st.received + 1)
  {
    AvatarRejects(env, st, b);
    var r := TerminalEmulator(env, st, b);
    var all := st.buf[..st.n] + [b];
    assert all == [st.buf[0]] + r.st.buf[1..r.st.n];
    assert all[1..] == r.st.buf[1..r.st.n];
    GlyphsFirst(env, all);
    if st.n + 1 < 127 {
      hide TerminalEmulator, Drain, Glyphs, Inv;
      AvatarPrintout(env, r.st, r.ch);
      assert Glyphs(env, all)[1..] == Glyphs(env, all[1..]);
    } else {
      AvatarLoses(env, r.st, r.ch);
    }
  }

  /** A printout of 127 bytes under AVATAR is thrown away after its first byte, and the next call fails its assertion. */
  lemma AvatarLoses(env: Env, st: State, ch: int)
    requires env.emulation == EmulateAvatar && Inv(env, st) && !st.fault && st.last == ManyChars && st.n == 127
    requires st.avatar.scan == AtDump && CallKept(env, Result(st, ManyChars, ch))
    ensures Drain(env, Result(st, ManyChars, ch)).fault
    ensures Drain(env, Result(st, ManyChars, ch)).d == st.d.Put(ch)
  {
    var printed := st.(d := st.d.Put(ch));
    PutKeeps(env, st, ch);
    TerminalEmulatorKeeps(env, printed, 0xFF);
    var clean := Junk(printed).(received := printed.received + 1);
    assert Avatar.Step(env, clean, 0xFF) == Avatar.Dump(env, clean);
    hide Avatar.Step;
    var next := TerminalEmulator(env, printed, 0xFF);
    assert next.st.fault;
    PrintoutStep(env, st, ch, next);
  }

  /** Conservation under AVATAR when it is ansi() that rejects: the first byte raw, the others mapped, up to 126 of them. */
  lemma FallbackConservesExactly(env: Env, st: State, b: byte)
    requires env.emulation == EmulateAvatar && Ready(env, st)
    requires st.avatar.scan == AtFallback && TerminalEmulator(env, st, b).status == ManyChars
    ensures 0 < st.n
    ensures var r := ConsoleByte(env, st, b);
            && (r.fault <==> st.n + 1 == 127)
            && (r.fault ==> r.d == st.d.Put(st.buf[0]))
            && (!r.fault ==> PrintedBack(env, st, b, r.d) && r.n == 0 && r.avatar.scan == AtNone && r.received == st.received + 1)
  {
    RelayedCall(env, st, b);
    var r := TerminalEmulator(env, st, b);
    hide Avatar.Step, TerminalEmulator, Drain, Glyphs, Inv;
    assert r.st.buf[1..r.st.n] == st.buf[1..st.n] + [b];
    if st.n + 1 < 127 {
      AvatarPrintout(env, r.st, r.ch);
    } else {
      AvatarLoses(env, r.st, r.ch);
    }
  }

  lemma RelayedCall(env: Env, st: State, b: byte)
    requires env.emulation == EmulateAvatar && Ready(env, st)
    requires st.avatar.scan == AtFallback && TerminalEmulator(env, st, b).status == ManyChars
    ensures var r := TerminalEmulator(env, st, b);
            && 0 < st.n && Inv(env, r.st) && !r.st.fault && r.st.last == ManyChars && CallKept(env, r)
            && r.st.buf == st.buf[st.n := b] && r.st.n == st.n + 1 && r.st.i == 1 && r.st.avatar.scan == AtDump
            && r.st.d == st.d && r.ch == st.buf[0] && r.st.received == st.received + 1
  {
    hide Avatar.Step, Ansi.Step, Inv, Replay;
    var counted := st.(received := st.received + 1);
    AvatarReadyParts(env, st);
    AvatarReadyParts(env, counted);
    RelayedRejects(env, counted, b);
    TerminalEmulatorKeeps(env, st, b);
    assert Junk(st) == st;
  }

  lemma RelayedRejects(env: Env, st: State, b: byte)
    requires BufferOk(st) && AnsiOk(st) && AvatarOk(st) && !st.fault && st.n < 127 && st.avatar.scan == AtFallback
    ensures var r := Avatar.Step(env, st, b);
            && r.status != RepeatState && !r.st.fault
            && (r.status == ManyChars ==>
                  && 0 < st.n && r.st.buf == st.buf[st.n := b] && r.st.n == st.n + 1 && r.st.i == 1
                  && r.st.avatar.scan == AtDump && r.st.d == st.d && r.ch == st.buf[0] && r.st.received == st.received)
  {
    hide Ansi.Step;
    var one := st.(avatar := st.avatar.(relay := [b]));
    AnsiStepKeeps(env, one, b);
    AnsiHandsBack(env, one, b);
    assert Avatar.Step(env, st, b) == Avatar.Relay(env, one);
  }

  // ------------------------------------------------------ when AVATAR cannot go on

  lemma {:induction false} RunFinishes(env: Env, st: State, ch: int)
    requires env.emulation == EmulateAvatar && Inv(env, st) && !st.fault && st.last == ManyChars
    requires st.avatar.scan == AtYEmit
    ensures !Drain(env, Result(st, ManyChars, ch)).fault && Drain(env, Result(st, ManyChars, ch)).avatar.scan == AtNone
    decreases st.avatar.yCount
  {
    var printed := st.(d := st.d.Put(ch));
    PutKeeps(env, st, ch);
    TerminalEmulatorKeeps(env, printed, 0xFF);
    RunKeeps(env, printed);
    RunShrinks(env, printed);
    var next := TerminalEmulator(env, printed, 0xFF);
    assert next == Noted(Avatar.EmitRun(env, printed));
    PrintoutStep(env, st, ch, next);
    hide Avatar.EmitRun, TerminalEmulator;
    if next.status == ManyChars {
      RunFinishes(env, next.st, next.ch);
    }
  }

  /** A fresh byte that does not run a pattern is processed to its end, except when avatar() is stuck already, or when
      its answer is a printout of exactly 127 held bytes. */
  lemma AnswerDecides(env: Env, st: State, b: byte)
    requires env.emulation == EmulateAvatar && Ready(env, st)
    ensures var r := Avatar.Step(env, st.(received := st.received + 1), b);
            r.status != RepeatState ==>
              (ConsoleByte(env, st, b).fault <==>
                 Stuck(st) || (r.status == ManyChars && r.st.avatar.scan == AtDump && r.st.n == 127))
  {
    hide Avatar.Step, Inv;
    var counted := st.(received := st.received + 1);
    AvatarReadyParts(env, st);
    AvatarReadyParts(env, counted);
    StopsExactlyWhenStuck(env, counted, b);
    AvatarStepKeeps(env, counted, b);
    var r := Avatar.Step(env, counted, b);
    if r.status != RepeatState {
      TerminalEmulatorKeeps(env, st, b);
      assert Junk(st) == st;
      assert TerminalEmulator(env, st, b) == Noted(r);
      hide TerminalEmulator;
      AnswerStops(env, Noted(r));
    }
  }

  lemma AnswerStops(env: Env, r: Result)
    requires env.emulation == EmulateAvatar && CallKept(env, r)
    ensures Drain(env, r).fault <==> r.st.fault || (r.status == ManyChars && r.st.avatar.scan == AtDump && r.st.n == 127)
  {
    if r.status == ManyChars && !r.st.fault {
      if r.st.avatar.scan == AtYEmit {
        RunFinishes(env, r.st, r.ch);
      } else if r.st.n == 127 {
        AvatarLoses(env, r.st, r.ch);
      } else {
        AvatarPrintout(env, r.st, r.ch);
      }
      hide Drain, TerminalEmulator;
    }
  }

  /** The bytes that may follow ^V. */
  predicate IsKnown(b: byte) {
    1 <= b <= 0x0E || b == 0x10 || b == 0x19
  }

  /** With fallback off, ^V and a byte that is no command print the ^V, forget the byte, and leave avatar() stuck:
      the next byte, whatever it is, fails its assertion.  Nothing else after ^V leaves it stuck. */
  lemma UnknownCommandSticks(env: Env, st: State, b: byte)
    requires env.emulation == EmulateAvatar && Ready(env, st) && st.avatar.scan == AtV
    ensures var r := ConsoleByte(env, st, b);
            && !r.fault
            && (Stuck(r) <==> !IsKnown(b) && !env.avatarFallback)
            && (Stuck(r) ==> r.d == st.d.Put(env.glyph(st.buf[0])) && forall next :: ConsoleByte(env, r, next).fault)
  {
    CommandCall(env, st, b);
    var r := ConsoleByte(env, st, b);
    hide ConsoleByte;
    if Stuck(r) {
      forall next ensures ConsoleByte(env, r, next).fault {
        StuckStays(env, r, next);
      }
    }
  }

  lemma CommandCall(env: Env, st: State, b: byte)
    requires env.emulation == EmulateAvatar && Ready(env, st) && st.avatar.scan == AtV
    ensures var r := ConsoleByte(env, st, b);
            && !r.fault && r.last != ManyChars
            && (Stuck(r) <==> !IsKnown(b) && !env.avatarFallback)
            && (Stuck(r) ==> r.d == st.d.Put(env.glyph(st.buf[0])) && r.avatar.scan == AtDump)
  {
    hide Avatar.Step, Inv, Replay;
    var counted := st.(received := st.received + 1);
    AvatarReadyParts(env, st);
    AvatarReadyParts(env, counted);
    CommandOutcome(env, counted, b);
    TerminalEmulatorKeeps(env, st, b);
    assert Junk(st) == st;
    assert TerminalEmulator(env, st, b) == Noted(Avatar.Step(env, counted, b));
    hide TerminalEmulator;
  }

  lemma CommandOutcome(env: Env, st: State, b: byte)
    requires BufferOk(st) && AnsiOk(st) && AvatarOk(st) && !st.fault && st.n < 127 && st.avatar.scan == AtV
    ensures var r := Avatar.Step(env, st, b);
            && r.status in {NoCharYet, OneChar} && !r.st.fault && r.st.avatar.scan != AtVY2
            && (Stuck(r.st) <==> !IsKnown(b) && !env.avatarFallback)
            && (Stuck(r.st) ==> r.status == OneChar && r.st.d == st.d && r.ch == env.glyph(st.buf[0]))
  {
    if IsKnown(b) {
      hide Avatar.Rejected;
    } else {
      assert Avatar.Step(env, st, b) == Avatar.Rejected(env, st);
      hide Avatar.Step, Ansi.Step;
      if env.avatarFallback {
        LoneLead(env, st);
      }
    }
  }

  /** ^V handed over alone is an ordinary control character to ansi(). */
  lemma LoneLead(env: Env, st: State)
    requires BufferOk(st) && AnsiOk(st) && AvatarOk(st) && !st.fault && st.avatar.scan == AtV && env.avatarFallback
    ensures var r := Avatar.Rejected(env, st);
            r.status in {NoCharYet, OneChar} && !r.st.fault && r.st.avatar.scan in {AtNone, AtFallback}
  {
    var begun := st.(avatar := st.avatar.(scan := AtFallback, relay := st.buf[..1], relayed := 0), n := 0, i := 0);
    assert Ansi.Step(env, begun, begun.avatar.relay[0]) == Ansi.Ground(env, begun, begun.avatar.relay[0]);
    hide Ansi.Step;
    RejectedGoesOn(env, st);
  }

  lemma StuckStays(env: Env, st: State, b: byte)
    requires env.emulation == EmulateAvatar && Inv(env, st) && !st.fault && st.last != ManyChars
    requires st.avatar.scan == AtDump && st.n == 0
    ensures ConsoleByte(env, st, b).fault
  {
    hide Replay;
  }
}
