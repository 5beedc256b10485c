/**
 ANSI fallback: from an ESC on, avatar() does what ansi() alone does with the same bytes,
 until ansi() has something to print.
 */
module AnsiFallback {
  import opened Display
  import opened Machine
  import opened Invariant
  import Ansi
  import Avatar
  import Csi

  /** All that ansi() reads or writes. */
  predicate SameCore(a: State, b: State) {
    a.buf == b.buf && a.n == b.n && a.i == b.i && a.d == b.d && a.ansi == b.ansi && a.fault == b.fault
  }

  predicate SameAnswer(a: Result, b: Result) {
    a.status == b.status && a.ch == b.ch && SameCore(a.st, b.st)
  }

  lemma UnknownCongruent(a: State, b: State, x: byte)
    requires SameCore(a, b)
    ensures SameAnswer(Ansi.Unknown(a, x), Ansi.Unknown(b, x))
  {
  }

  lemma LocateCongruent(env: Env, a: State, b: State, x: byte)
    requires SameCore(a, b)
    ensures SameAnswer(Ansi.Locate(env, a, x), Ansi.Locate(env, b, x))
  {
    hide Csi.ParsePosition;
  }

  lemma ColourCongruent(env: Env, a: State, b: State, x: byte)
    requires SameCore(a, b)
    ensures SameAnswer(Ansi.Colour(env, a, x), Ansi.Colour(env, b, x))
  {
    hide Csi.AnsiColor;
  }

  lemma OneParameterCongruent(env: Env, a: State, b: State, x: byte, ps: int)
    requires SameCore(a, b) && -1 <= ps
    ensures SameAnswer(if ps == -1 then Ansi.Unknown(a, x) else Ansi.Done(a.(d := Ansi.CountEffect(env, a.d, a.ansi, x, ps))),
                       if ps == -1 then Ansi.Unknown(b, x) else Ansi.Done(b.(d := Ansi.CountEffect(env, b.d, b.ansi, x, ps))))
  {
    hide Ansi.CountEffect;
    UnknownCongruent(a, b, x);
  }

  lemma CountCongruent(env: Env, a: State, b: State, x: byte)
    requires SameCore(a, b)
    ensures SameAnswer(Ansi.Count(env, a, x), Ansi.Count(env, b, x))
  {
    hide Csi.Ps, Csi.ParseOne, Ansi.Locate, Ansi.Colour, Ansi.CountEffect, Ansi.Unknown;
    if x == 'H' as int || x == 'f' as int {
      LocateCongruent(env, a, b, x);
    } else if x == 'm' as int {
      ColourCongruent(env, a, b, x);
    } else if x as char in {'K', 'J', 'A', 'B', 'C', 'D'} {
      OneParameterCongruent(env, a, b, x, Csi.Ps(a.buf, a.ansi.count).value);
    } else if x as char in {'@', 'I', 'L', 'M', 'P', 'b', 'd', 'G', 'h', 'l'} {
      OneParameterCongruent(env, a, b, x, Csi.ParseOne(a.buf, a.ansi.count, if x as char in {'d', 'G', 'I'} then 1 else 0));
    } else {
      UnknownCongruent(a, b, x);
    }
  }

  lemma StartCongruent(env: Env, a: State, b: State, x: byte)
    requires SameCore(a, b)
    ensures SameAnswer(Ansi.Start(env, a, x), Ansi.Start(env, b, x))
  {
    hide Ansi.StartEffect, Ansi.Unknown;
    UnknownCongruent(a, b, x);
  }

  lemma CountTwoCongruent(env: Env, a: State, b: State, x: byte)
    requires SameCore(a, b)
    ensures SameAnswer(Ansi.CountTwo(env, a, x), Ansi.CountTwo(env, b, x))
  {
    hide Ansi.Locate, Ansi.Colour, Ansi.Unknown;
    LocateCongruent(env, a, b, x);
    ColourCongruent(env, a, b, x);
    UnknownCongruent(a, b, x);
  }

  lemma CountManyCongruent(env: Env, a: State, b: State, x: byte)
    requires SameCore(a, b)
    ensures SameAnswer(Ansi.CountMany(env, a, x), Ansi.CountMany(env, b, x))
  {
    hide Ansi.Colour, Ansi.Unknown;
    ColourCongruent(env, a, b, x);
    UnknownCongruent(a, b, x);
  }

  /** ansi() depends on nothing else, and changes nothing else. */
  lemma AnsiCongruent(env: Env, a: State, b: State, x: byte)
    requires SameCore(a, b)
    ensures SameAnswer(Ansi.Step(env, a, x), Ansi.Step(env, b, x))
  {
    hide Ansi.Start, Ansi.Count, Ansi.CountTwo, Ansi.CountMany;
    match a.ansi.scan
    case AnsiStart => StartCongruent(env, a, b, x);
    case AnsiCount => CountCongruent(env, a, b, x);
    case AnsiCountTwo => CountTwoCongruent(env, a, b, x);
    case AnsiCountMany => CountManyCongruent(env, a, b, x);
    case _ =>
  }

  // ------------------------------------------------------------ the two runs

  /** ansi() called for every byte; the answer to the last. */
  function AnsiRun(env: Env, st: State, bytes: seq<byte>): Result
    requires bytes != []
    decreases |bytes|
  {
    var r := Ansi.Step(env, st, bytes[0]);
    if |bytes| == 1 then r else AnsiRun(env, r.st, bytes[1..])
  }

  /** avatar() called for every byte; the answer to the last. */
  function AvatarRun(env: Env, st: State, bytes: seq<byte>): Result
    requires bytes != []
    decreases |bytes|
  {
    var r := Avatar.Step(env, st, bytes[0]);
    if |bytes| == 1 then r else AvatarRun(env, r.st, bytes[1..])
  }

  /** ansi() says nothing before the last byte, and the buffer never fills up. */
  predicate QuietUntilLast(env: Env, st: State, bytes: seq<byte>)
    requires bytes != []
    decreases |bytes|
  {
    && st.n < 127
    && (|bytes| == 1 ||
        var r := Ansi.Step(env, st, bytes[0]);
        r.status == NoCharYet && QuietUntilLast(env, r.st, bytes[1..]))
  }

  /** The same buffer, except that after ESC the bytes handed over still lie where the next one goes. */
  predicate SameBuffer(av: State, an: State) {
    && |av.buf| == |an.buf| == 128
    && (forall k | 0 <= k < 128 && !(k == 1 && an.ansi.scan == AnsiEsc) :: av.buf[k] == an.buf[k])
  }

  predicate SameButBuffer(av: State, an: State) {
    av.n == an.n && av.i == an.i && av.d == an.d && av.ansi == an.ansi && av.fault == an.fault
  }

  /** avatar() is relaying, and is where ansi() is. */
  predicate Relaying(av: State, an: State) {
    && SameBuffer(av, an) && SameButBuffer(av, an)
    && av.avatar.scan == AtFallback && av.avatar.relay == [] && av.avatar.relayed == 0
    && BufferOk(an) && AnsiOk(an) && AnsiIdleOk(an) && !an.fault
  }

  /** What the theorem compares: the answer, the display with everything printed so far, and ansi()'s own state. */
  predicate Agree(av: Result, an: Result) {
    && av.status == an.status && av.ch == an.ch
    && SameBuffer(av.st, an.st) && SameButBuffer(av.st, an.st)
    && match an.status
       case NoCharYet => Relaying(av.st, an.st)
       case OneChar => av.st.avatar.scan == AtNone
       case ManyChars => av.st.avatar.scan == AtDump
       case RepeatState => false
  }

  /** Right after ESC the second cell does not matter: whatever comes next overwrites it or clears it. */
  lemma EscapeIgnoresSecondCell(env: Env, av: State, an: State, b: byte)
    requires SameBuffer(av, an) && SameButBuffer(av, an) && an.ansi.scan == AnsiEsc && an.n == 1 && an.i == 0 && !an.fault
    ensures var x, y := Ansi.Step(env, av, b), Ansi.Step(env, an, b);
            x.status == y.status && x.ch == y.ch && SameBuffer(x.st, y.st) && SameButBuffer(x.st, y.st)
  {
    assert Ansi.Step(env, av, b) == Ansi.Escape(env, av, b) && Ansi.Step(env, an, b) == Ansi.Escape(env, an, b);
    hide Ansi.Step;
  }

  lemma StepsAgree(env: Env, av: State, an: State, b: byte)
    requires SameBuffer(av, an) && SameButBuffer(av, an)
    requires BufferOk(an) && AnsiOk(an) && AnsiIdleOk(an) && !an.fault && an.n < 127
    ensures var x, y := Ansi.Step(env, av, b), Ansi.Step(env, an, b);
            x.status == y.status && x.ch == y.ch && SameBuffer(x.st, y.st) && SameButBuffer(x.st, y.st)
  {
    hide Ansi.Step;
    if an.ansi.scan == AnsiEsc {
      EscapeIgnoresSecondCell(env, av, an, b);
    } else {
      assert av.buf == an.buf;
      AnsiStepKeeps(env, an, b);
      AnsiCongruent(env, av, an, b);
    }
  }

  /** One relayed byte. */
  lemma RelayAgrees(env: Env, av: State, an: State, b: byte)
    requires Relaying(av, an) && an.n < 127
    ensures Agree(Avatar.Step(env, av, b), Ansi.Step(env, an, b))
  {
    hide Ansi.Step;
    StepsAgree(env, av, an, b);
    AnsiStepKeeps(env, an, b);
    var one := av.(avatar := av.avatar.(relay := [b]));
    AnsiCongruent(env, one, av, b);
    assert Avatar.Step(env, av, b) == Avatar.Relay(env, one);
    hide Avatar.Step;
  }

  lemma {:induction false} RelayedRunAgrees(env: Env, av: State, an: State, bytes: seq<byte>)
    requires Relaying(av, an) && bytes != [] && QuietUntilLast(env, an, bytes)
    ensures Agree(AvatarRun(env, av, bytes), AnsiRun(env, an, bytes))
    decreases |bytes|
  {
    hide Ansi.Step, Avatar.Step;
    RelayAgrees(env, av, an, bytes[0]);
    if |bytes| > 1 {
      RelayedRunAgrees(env, Avatar.Step(env, av, bytes[0]).st, Ansi.Step(env, an, bytes[0]).st, bytes[1..]);
    }
  }

  /** Between sequences, with nothing left over in the buffer. */
  predicate AtRest(st: State) {
    && BufferOk(st) && TailIsZero(st) && st.n == 0 && st.i == 0 && !st.fault
    && st.ansi.scan == AnsiNone && st.avatar.scan == AtNone
  }

  /** The ESC that was held back goes first, and is stored where it already lies. */
  lemma EscapeRelayed(env: Env, begun: State, b: byte)
    requires begun.avatar.relay == [ESC, b] && begun.avatar.relayed == 0 && begun.n == 0
    requires |begun.buf| == 128 && begun.ansi.scan == AnsiNone && !begun.fault
    ensures var first := Ansi.Step(env, begun, ESC).st;
      Avatar.Relay(env, begun)
      == Avatar.Relay(env, first.(avatar := begun.avatar.(scan := AtFallback, relayed := 1)))
  {
    assert Ansi.Step(env, begun, ESC) == Ansi.Ground(env, begun, ESC);
    hide Ansi.Step;
  }

  /** ESC and the byte after it, ready to be handed over. */
  function Begun(st: State, b: byte): State {
    var kept := st.Store(ESC).AvatarTo(AtEsc).Store(b);
    kept.(avatar := kept.avatar.(scan := AtFallback, relay := [ESC, b], relayed := 0), n := 0, i := 0)
  }

  lemma EscapeHeld(env: Env, st: State, b: byte)
    requires AtRest(st) && env.avatarFallback && !env.avatarColor
    ensures Avatar.Step(env, st, ESC).st == st.Store(ESC).AvatarTo(AtEsc)
    ensures Avatar.Step(env, st.Store(ESC).AvatarTo(AtEsc), b) == Avatar.Relay(env, Begun(st, b))
  {
    hide Avatar.Relay;
    var kept := st.Store(ESC).AvatarTo(AtEsc).Store(b);
    assert kept.buf[..2] == [ESC, b];
  }

  /** The first two bytes are held back, then handed over together. */
  lemma HandOver(env: Env, st: State, b: byte)
    requires AtRest(st) && env.avatarFallback && !env.avatarColor
    ensures Agree(AvatarRun(env, st, [ESC, b]), AnsiRun(env, st, [ESC, b]))
  {
    EscapeHeld(env, st, b);
    EscapeRelayed(env, Begun(st, b), b);
    var an := Ansi.Step(env, st, ESC).st;
    var first := Ansi.Step(env, Begun(st, b), ESC).st;
    var second := first.(avatar := Begun(st, b).avatar.(scan := AtFallback, relayed := 1));
    assert SameBuffer(second, an) && SameButBuffer(second, an);
    hide Avatar.Step, Ansi.Step;
    StepsAgree(env, second, an, b);
    AnsiStepKeeps(env, an, b);
    assert [ESC, b][1..] == [b];
  }

  /** From an ESC met at rest, and for as long as ansi() alone would stay silent on the same bytes, avatar() shows
      what ansi() shows, gives the same answer to the last byte, and leaves ansi() in the same state. */
  lemma FallbackRefinesAnsi(env: Env, st: State, bytes: seq<byte>)
    requires AtRest(st) && env.avatarFallback && !env.avatarColor
    requires 2 <= |bytes| && bytes[0] == ESC && QuietUntilLast(env, st, bytes)
    ensures Agree(AvatarRun(env, st, bytes), AnsiRun(env, st, bytes))
  {
    hide Avatar.Step, Ansi.Step;
    var b := bytes[1];
    HandOver(env, st, b);
    var av, an := Avatar.Step(env, st, ESC).st, Ansi.Step(env, st, ESC).st;
    assert [ESC, b][1..] == [b] && bytes[1..][0] == b && bytes[1..][1..] == bytes[2..];
    assert AvatarRun(env, st, [ESC, b]) == Avatar.Step(env, av, b);
    assert AnsiRun(env, st, [ESC, b]) == Ansi.Step(env, an, b);
    if |bytes| > 2 {
      RelayedRunAgrees(env, Avatar.Step(env, av, b).st, Ansi.Step(env, an, b).st, bytes[2..]);
      assert AvatarRun(env, st, bytes) == AvatarRun(env, av, bytes[1..]);
    }
  }
}
