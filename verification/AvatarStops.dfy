/**
 When AVATAR stops, said of the state and the byte before they meet, and which streams never make it stop.
 */
module AvatarStops {
  import opened Display
  import opened Machine
  import opened Invariant
  import opened Console
  import opened Rejection
  import opened Conservation
  import Ansi
  import AnsiFallback
  import Avatar
  import Csi

  // ------------------------------------------------------- what ansi() refuses

  /** The bytes that no sequence allows where ansi() is, parameters taken into account. */
  predicate Refuses(env: Env, st: State, b: byte) {
    match st.ansi.scan
    case AnsiEsc => b != '[' as int && b != 'Z' as int && b != ESC
    case AnsiStart =>
      && !IsDigit(b) && b as char !in {';', '=', '?', ' ', 's'} && !(b == 'M' as int && env.ansiMusic)
      && !Ansi.IsStartFinal(b)
    case AnsiCount =>
      if b as char in {'K', 'J', 'A', 'B', 'C', 'D'} then Csi.Ps(st.buf, st.ansi.count).value == -1
      else if b as char in {'@', 'I', 'L', 'M', 'P', 'b', 'd', 'G', 'h', 'l'} then
        Csi.ParseOne(st.buf, st.ansi.count, if b as char in {'d', 'G', 'I'} then 1 else 0) == -1
      else RefusesList(env, st, b) && b as char !in {' ', 'n', '!'}
    case AnsiCountTwo => RefusesList(env, st, b) && b != ' ' as int && !(b == 'D' as int && st.ansi.discard)
    case AnsiCountMany => RefusesList(env, st, b) || b == 'H' as int || b == 'f' as int
    case _ => false
  }

  /** What is no more of a list, nor a final byte that accepts the list. */
  predicate RefusesList(env: Env, st: State, b: byte) {
    if b == 'H' as int || b == 'f' as int then Csi.ParsePosition(st.buf, st.ansi.count).BadPosition?
    else if b == 'm' as int then !Csi.AnsiColor(env, st.buf, st.ansi.count, st.ansi.attributes, st.d.color).ok
    else !IsDigit(b) && b != ';' as int
  }

  lemma UnknownAnswers(st: State, b: byte)
    ensures Ansi.Unknown(st, b).status != NoCharYet
  {
  }

  lemma LocateAnswers(env: Env, st: State, b: byte)
    ensures Ansi.Locate(env, st, b).status != NoCharYet <==> Csi.ParsePosition(st.buf, st.ansi.count).BadPosition?
  {
    hide Csi.ParsePosition;
  }

  lemma ColourAnswers(env: Env, st: State, b: byte)
    ensures Ansi.Colour(env, st, b).status != NoCharYet
       <==> !Csi.AnsiColor(env, st.buf, st.ansi.count, st.ansi.attributes, st.d.color).ok
  {
    hide Csi.AnsiColor;
  }

  lemma CountAnswers(env: Env, st: State, b: byte)
    requires st.ansi.scan == AnsiCount
    ensures Ansi.Count(env, st, b).status != NoCharYet <==> Refuses(env, st, b)
  {
    hide Csi.AnsiColor, Csi.ParsePosition, Csi.Ps, Csi.ParseOne, Ansi.CountEffect, Ansi.Unknown, Ansi.Locate, Ansi.Colour;
    UnknownAnswers(st, b);
    LocateAnswers(env, st, b);
    ColourAnswers(env, st, b);
  }

  lemma ListAnswers(env: Env, st: State, b: byte)
    ensures st.ansi.scan == AnsiCountTwo ==> (Ansi.CountTwo(env, st, b).status != NoCharYet <==> Refuses(env, st, b))
    ensures st.ansi.scan == AnsiCountMany ==> (Ansi.CountMany(env, st, b).status != NoCharYet <==> Refuses(env, st, b))
  {
    hide Csi.AnsiColor, Csi.ParsePosition, Ansi.Unknown, Ansi.Locate, Ansi.Colour;
    UnknownAnswers(st, b);
    LocateAnswers(env, st, b);
    ColourAnswers(env, st, b);
  }

  lemma StartAnswers(env: Env, st: State, b: byte)
    ensures st.ansi.scan == AnsiStart ==> (Ansi.Start(env, st, b).status != NoCharYet <==> Refuses(env, st, b))
    ensures st.ansi.scan == AnsiEsc ==> (Ansi.Escape(env, st, b).status != NoCharYet <==> Refuses(env, st, b))
  {
    hide Ansi.StartEffect, Ansi.Unknown;
    UnknownAnswers(st, b);
  }

  /** Inside a sequence ansi() answers exactly the bytes that it refuses. */
  lemma RefusesExactly(env: Env, st: State, b: byte)
    requires InSequence(st.ansi.scan)
    ensures Ansi.Step(env, st, b).status != NoCharYet <==> Refuses(env, st, b)
  {
    hide Ansi.Start, Ansi.Escape, Ansi.Count, Ansi.CountTwo, Ansi.CountMany, Refuses;
    StartAnswers(env, st, b);
    ListAnswers(env, st, b);
    if st.ansi.scan == AnsiCount {
      CountAnswers(env, st, b);
    }
  }

  // ------------------------------------------------------- when avatar() stops

  /** The byte that ends an SGR which avatar() reads itself without making it one. */
  predicate AvatarRefuses(env: Env, st: State, b: byte) {
    var kept := st.Store(b);
    if b == 'm' as int
    then !Csi.AnsiColor(env, kept.buf, kept.avatar.count, kept.avatar.attributes, kept.d.color).ok
    else !IsDigit(b) && b != ';' as int
  }

  /** ansi() would hold each of these bytes but the last, and refuse that one. */
  predicate HoldsAll(env: Env, st: State, bytes: seq<byte>)
    decreases |bytes|
  {
    if bytes == [] then false
    else if |bytes| == 1 then InSequence(st.ansi.scan) && Refuses(env, st, bytes[0])
    else
      var r := Ansi.Step(env, st, bytes[0]);
      r.status == NoCharYet && r.st.n == st.n + 1 && HoldsAll(env, r.st, bytes[1..])
  }

  /** The byte is the 127th of a sequence that is then rejected. */
  predicate Overfills(env: Env, st: State, b: byte) {
    st.n == 126 &&
    match st.avatar.scan
    case AtFallback => Refuses(env, st, b)
    case AtCsiParam => AvatarRefuses(env, st, b) && (env.avatarFallback ==> HoldsAll(env, Emptied(st, b), st.buf[..Min(126, |st.buf|)] + [b]))
    case _ => false
  }

  function Min(a: nat, b: nat): nat {
    if a < b then a else b
  }

  /** The state in which all of it is handed over. */
  function Emptied(st: State, b: byte): State {
    st.Store(b).(n := 0, i := 0)
  }

  /** What makes a printout of 127 bytes. */
  predicate Full(r: Result) {
    r.status == ManyChars && r.st.avatar.scan == AtDump && r.st.n == 127
  }

  lemma {:induction false} RelayBound(env: Env, st: State)
    requires BufferOk(st) && AnsiOk(st) && AnsiIdleOk(st) && !st.fault && st.avatar.relayed < |st.avatar.relay|
    ensures var r := Avatar.Relay(env, st).st; r.fault || r.n <= st.n + |st.avatar.relay| - st.avatar.relayed
    decreases |st.avatar.relay| - st.avatar.relayed
  {
    hide Ansi.Step;
    AnsiStepKeeps(env, st, st.avatar.relay[st.avatar.relayed]);
    var r := Ansi.Step(env, st, st.avatar.relay[st.avatar.relayed]);
    if r.status == NoCharYet && st.avatar.relayed + 1 < |st.avatar.relay| && !r.st.fault {
      RelayBound(env, r.st.(avatar := st.avatar.(scan := AtFallback, relayed := st.avatar.relayed + 1)));
    }
  }

  lemma {:induction false} HoldsAllCongruent(env: Env, a: State, b: State, bytes: seq<byte>)
    requires AnsiFallback.SameCore(a, b)
    ensures HoldsAll(env, a, bytes) == HoldsAll(env, b, bytes)
    decreases |bytes|
  {
    hide Ansi.Step;
    if |bytes| > 1 {
      AnsiFallback.AnsiCongruent(env, a, b, bytes[0]);
      HoldsAllCongruent(env, Ansi.Step(env, a, bytes[0]).st, Ansi.Step(env, b, bytes[0]).st, bytes[1..]);
    }
  }

  lemma LastFull(env: Env, st: State)
    requires BufferOk(st) && AnsiOk(st) && AnsiIdleOk(st) && !st.fault
    requires st.avatar.relayed + 1 == |st.avatar.relay| && st.n == 126
    ensures Full(Avatar.Relay(env, st)) <==> HoldsAll(env, st, st.avatar.relay[st.avatar.relayed..])
  {
    hide Ansi.Step, Refuses;
    var b := st.avatar.relay[st.avatar.relayed];
    assert InSequence(st.ansi.scan);
    LastRelayed(env, st);
    AnsiHandsBack(env, st, b);
    RefusesExactly(env, st, b);
    OneCharMeansEmpty(env, st, b);
    AnsiStepKeeps(env, st, b);
  }

  /** As many bytes handed over as fill the buffer: they are about to be printed exactly when ansi() holds them all. */
  lemma {:induction false} RelayFull(env: Env, st: State)
    requires BufferOk(st) && AnsiOk(st) && AnsiIdleOk(st) && !st.fault
    requires st.avatar.relayed < |st.avatar.relay| && st.n + |st.avatar.relay| - st.avatar.relayed == 127
    ensures Full(Avatar.Relay(env, st)) <==> HoldsAll(env, st, st.avatar.relay[st.avatar.relayed..])
    decreases |st.avatar.relay| - st.avatar.relayed
  {
    var bytes := st.avatar.relay[st.avatar.relayed..];
    if |bytes| == 1 {
      LastFull(env, st);
    } else {
      hide Ansi.Step, Refuses;
      AnsiStepKeeps(env, st, bytes[0]);
      var r := Ansi.Step(env, st, bytes[0]);
      var on := r.st.(avatar := st.avatar.(scan := AtFallback, relayed := st.avatar.relayed + 1));
      assert bytes[1..] == st.avatar.relay[st.avatar.relayed + 1..];
      if r.status == NoCharYet {
        assert Avatar.Relay(env, st) == Avatar.Relay(env, on);
        if r.st.n == st.n + 1 {
          RelayFull(env, on);
          HoldsAllCongruent(env, on, r.st, bytes[1..]);
        } else {
          RelayBound(env, on);
          RelayGoesOn(env, on);
        }
      }
    }
  }

  lemma FallbackFull(env: Env, st: State, b: byte)
    requires BufferOk(st) && AnsiOk(st) && AvatarOk(st) && !st.fault && st.n < 127 && st.avatar.scan == AtFallback
    ensures Full(Avatar.Step(env, st, b)) <==> Overfills(env, st, b)
  {
    var one := st.(avatar := st.avatar.(relay := [b]));
    assert Avatar.Step(env, st, b) == Avatar.Relay(env, one);
    hide Avatar.Step, Ansi.Step, Refuses, Avatar.Relay;
    if st.n == 126 {
      assert InSequence(st.ansi.scan);
      RelayFull(env, one);
      assert one.avatar.relay[0..] == [b];
      SameRefusal(env, one, st, b);
    } else {
      RelayBound(env, one);
      RelayGoesOn(env, one);
    }
  }

  lemma SameRefusal(env: Env, a: State, b: State, x: byte)
    requires a.buf == b.buf && a.ansi == b.ansi && a.d == b.d
    ensures Refuses(env, a, x) == Refuses(env, b, x)
  {
    hide Csi.AnsiColor, Csi.ParsePosition, Csi.Ps, Csi.ParseOne;
  }

  /** A rejected sequence of `n` bytes, be it handed over or printed. */
  lemma RejectedFull(env: Env, st: State)
    requires BufferOk(st) && st.ansi.scan == AnsiNone && st.i == 0 && 0 < st.n && !st.fault
    ensures Full(Avatar.Rejected(env, st)) <==>
      st.n == 127 && (env.avatarFallback ==> HoldsAll(env, st.(n := 0, i := 0), st.buf[..127]))
  {
    if env.avatarFallback {
      var begun := st.(avatar := st.avatar.(scan := AtFallback, relay := st.buf[..st.n], relayed := 0), n := 0, i := 0);
      assert Avatar.Rejected(env, st) == Avatar.Relay(env, begun);
      hide Avatar.Rejected, Avatar.Relay;
      RelayBound(env, begun);
      RelayGoesOn(env, begun);
      if st.n == 127 {
        RelayFull(env, begun);
        assert begun.avatar.relay[0..] == st.buf[..127];
        HoldsAllCongruent(env, begun, st.(n := 0, i := 0), st.buf[..127]);
      }
    }
  }

  lemma ParameterFull(env: Env, st: State, b: byte)
    requires BufferOk(st) && AnsiOk(st) && AvatarOk(st) && !st.fault && st.n < 127 && st.avatar.scan == AtCsiParam
    ensures Full(Avatar.Step(env, st, b)) <==> Overfills(env, st, b)
  {
    hide Csi.AnsiColor, Avatar.Rejected, HoldsAll;
    assert Avatar.Step(env, st, b) == Avatar.Parameter(env, st, b);
    hide Avatar.Step;
    var kept := st.Store(b);
    if AvatarRefuses(env, st, b) {
      var sgr := Csi.AnsiColor(env, kept.buf, kept.avatar.count, kept.avatar.attributes, kept.d.color);
      var after := if b == 'm' as int then kept.(avatar := kept.avatar.(attributes := sgr.pen)) else kept;
      assert Avatar.Parameter(env, st, b) == Avatar.Rejected(env, after);
      RejectedFull(env, after);
      if st.n == 126 {
        assert kept.buf[..127] == st.buf[..126] + [b];
        HoldsAllCongruent(env, after.(n := 0, i := 0), Emptied(st, b), kept.buf[..127]);
      }
    }
  }

  lemma ShortFull(env: Env, st: State, b: byte)
    requires BufferOk(st) && AnsiOk(st) && AvatarOk(st) && !st.fault && st.n < 127
    requires st.avatar.scan in {AtV, AtEsc, AtCsi}
    ensures !Full(Avatar.Step(env, st, b))
  {
    hide Avatar.Rejected, HoldsAll;
    RejectedFull(env, if st.avatar.scan == AtV then st else st.Store(b));
  }

  /** The answer is a printout of 127 bytes exactly when the byte overfills. */
  lemma FullExactly(env: Env, st: State, b: byte)
    requires BufferOk(st) && AnsiOk(st) && AvatarOk(st) && !st.fault && st.n < 127
    ensures Full(Avatar.Step(env, st, b)) <==> Overfills(env, st, b)
  {
    hide Avatar.EmitRun, Avatar.Relay, Avatar.Rejected, Ansi.Step, HoldsAll, Refuses, AvatarRefuses;
    match st.avatar.scan
    case AtFallback => FallbackFull(env, st, b);
    case AtCsiParam => ParameterFull(env, st, b);
    case AtV => ShortFull(env, st, b);
    case AtEsc => ShortFull(env, st, b);
    case AtCsi => ShortFull(env, st, b);
    case AtY2 => RunFull(env, st.(avatar := st.avatar.(yCount := b, scan := AtYEmit)));
    case AtYEmit => RunFull(env, st);
    case _ =>
  }

  lemma RunFull(env: Env, st: State)
    requires st.avatar.scan == AtYEmit
    ensures !Full(Avatar.EmitRun(env, st))
  {
    hide Avatar.EmitRun;
    RunShrinks(env, st);
  }

  lemma OverfillsCounted(env: Env, st: State, b: byte)
    ensures Overfills(env, st.(received := st.received + 1), b) == Overfills(env, st, b)
  {
    hide HoldsAll, Refuses, AvatarRefuses;
    var counted := st.(received := st.received + 1);
    SameRefusal(env, counted, st, b);
    SameAvatarRefusal(env, counted, st, b);
    HoldsAllCongruent(env, Emptied(counted, b), Emptied(st, b), st.buf[..Min(126, |st.buf|)] + [b]);
  }

  lemma SameAvatarRefusal(env: Env, a: State, b: State, x: byte)
    requires b == a.(received := b.received)
    ensures AvatarRefuses(env, a, x) == AvatarRefuses(env, b, x)
  {
    hide Csi.AnsiColor;
  }

  lemma RepeatsOnlyPatterns(env: Env, st: State, b: byte)
    requires BufferOk(st) && AnsiOk(st) && AvatarOk(st) && !st.fault && st.n < 127 && st.avatar.scan != AtVY3
    ensures Avatar.Step(env, st, b).status != RepeatState
  {
    hide Avatar.EmitRun, Avatar.Relay, Avatar.Rejected, Ansi.Step, Csi.AnsiColor;
    match st.avatar.scan
    case AtY2 => RunShrinks(env, st.(avatar := st.avatar.(yCount := b, scan := AtYEmit)));
    case AtYEmit => RunShrinks(env, st);
    case AtFallback => RelayedStatus(env, st.(avatar := st.avatar.(relay := [b])));
    case AtV => RejectedStatus(env, st);
    case AtEsc => RejectedStatus(env, st.Store(b));
    case AtCsi => RejectedStatus(env, st.Store(b));
    case AtCsiParam =>
      var kept := st.Store(b);
      RejectedStatus(env, kept);
      RejectedStatus(env, kept.(avatar := kept.avatar.(attributes :=
        Csi.AnsiColor(env, kept.buf, kept.avatar.count, kept.avatar.attributes, kept.d.color).pen)));
    case _ =>
  }

  lemma {:induction false} RelayedStatus(env: Env, st: State)
    requires BufferOk(st) && AnsiOk(st) && AnsiIdleOk(st) && !st.fault && st.avatar.relayed < |st.avatar.relay|
    ensures Avatar.Relay(env, st).status != RepeatState
    decreases |st.avatar.relay| - st.avatar.relayed
  {
    hide Ansi.Step;
    AnsiStatus(env, st, st.avatar.relay[st.avatar.relayed]);
    AnsiStepKeeps(env, st, st.avatar.relay[st.avatar.relayed]);
    var r := Ansi.Step(env, st, st.avatar.relay[st.avatar.relayed]);
    if r.status == NoCharYet && st.avatar.relayed + 1 < |st.avatar.relay| && !r.st.fault {
      RelayedStatus(env, r.st.(avatar := st.avatar.(scan := AtFallback, relayed := st.avatar.relayed + 1)));
    }
  }

  lemma AnsiStatus(env: Env, st: State, b: byte)
    ensures Ansi.Step(env, st, b).status != RepeatState
  {
    hide Csi.AnsiColor, Csi.ParsePosition, Csi.Ps, Csi.ParseOne, Ansi.CountEffect, Ansi.StartEffect;
  }

  lemma RejectedStatus(env: Env, st: State)
    requires BufferOk(st) && st.ansi.scan == AnsiNone && st.i == 0 && 0 < st.n && !st.fault
    ensures Avatar.Rejected(env, st).status != RepeatState
  {
    if env.avatarFallback {
      hide Avatar.Relay;
      RelayedStatus(env, st.(avatar := st.avatar.(scan := AtFallback, relay := st.buf[..st.n], relayed := 0), n := 0, i := 0));
    }
  }

  /**
   A received byte that does not complete a ^V^Y is processed to its end unless avatar() is stuck or the byte is the
   127th of a sequence that is then rejected, and exactly then it is not.
   */
  lemma StopsExactly(env: Env, st: State, b: byte)
    requires env.emulation == EmulateAvatar && Ready(env, st) && st.avatar.scan != AtVY3
    ensures ConsoleByte(env, st, b).fault <==> Stuck(st) || Overfills(env, st, b)
  {
    hide Avatar.Step, ConsoleByte, Overfills, Inv;
    var counted := st.(received := st.received + 1);
    AvatarReadyParts(env, st);
    AvatarReadyParts(env, counted);
    AnswerDecides(env, st, b);
    RepeatsOnlyPatterns(env, counted, b);
    FullExactly(env, counted, b);
    OverfillsCounted(env, st, b);
  }

  // ------------------------------------------------------- replayed patterns

  /** No ESC sequence, run or pattern begins with any of these bytes, wherever in a replay they are met, and no command
      does unless an unknown one would be handed over. */
  predicate Harmless(env: Env, pattern: seq<byte>) {
    forall c | c in pattern :: c != ESC && c != 0x19 && (c == 0x16 ==> env.avatarFallback)
  }

  /** Where such bytes can lead. */
  predicate Calm(env: Env, st: State) {
    && BufferOk(st) && AnsiOk(st) && AvatarOk(st) && !st.fault && st.ansi.scan == AnsiNone
    && st.avatar.scan !in {AtY1, AtY2, AtYEmit, AtVY1, AtVY2, AtVY3, AtEsc, AtCsi, AtCsiParam, AtDump}
    && (st.avatar.scan == AtV ==> st.buf[0] == 0x16 && env.avatarFallback)
    && st.n <= 7
  }

  lemma CalmCommand(env: Env, st: State, b: byte)
    requires env.avatarFallback && Calm(env, st) && st.avatar.scan == AtV && b != 0x19
    ensures var r := Avatar.Step(env, st, b); r.status in {NoCharYet, OneChar} && Calm(env, r.st)
  {
    hide Avatar.Rejected, Avatar.Relay;
    assert Avatar.Step(env, st, b) == Avatar.Command(env, st, b);
    hide Avatar.Step;
    CommandKeeps(env, st, b);
    if !IsKnown(b) {
      CalmLead(env, st);
    }
  }

  /** ^V handed over alone. */
  lemma CalmLead(env: Env, st: State)
    requires env.avatarFallback && Calm(env, st) && st.avatar.scan == AtV
    ensures var r := Avatar.Rejected(env, st); r.status in {NoCharYet, OneChar} && Calm(env, r.st)
  {
    assert st.buf[..1] == [0x16];
    var begun := st.(avatar := st.avatar.(scan := AtFallback, relay := st.buf[..1], relayed := 0), n := 0, i := 0);
    assert Avatar.Rejected(env, st) == Avatar.Relay(env, begun);
    hide Avatar.Rejected;
    LastRelayed(env, begun);
    assert Ansi.Step(env, begun, 0x16) == Ansi.Ground(env, begun, 0x16);
    hide Ansi.Step, Avatar.Relay;
  }

  lemma CalmRelay(env: Env, st: State, b: byte)
    requires Calm(env, st) && st.avatar.scan == AtFallback && b != ESC
    ensures var r := Avatar.Step(env, st, b); r.status in {NoCharYet, OneChar} && Calm(env, r.st)
  {
    var one := st.(avatar := st.avatar.(relay := [b]));
    assert Avatar.Step(env, st, b) == Avatar.Relay(env, one);
    hide Avatar.Step;
    LastRelayed(env, one);
    assert Ansi.Step(env, one, b) == Ansi.Ground(env, one, b);
    hide Ansi.Step, Avatar.Relay;
  }

  lemma CalmStep(env: Env, st: State, b: byte)
    requires Calm(env, st) && b != ESC && b != 0x19 && (b == 0x16 ==> env.avatarFallback)
    ensures var r := Avatar.Step(env, st, b); r.status in {NoCharYet, OneChar} && Calm(env, r.st)
  {
    hide Avatar.Step;
    match st.avatar.scan
    case AtV => CalmCommand(env, st, b);
    case AtFallback => CalmRelay(env, st, b);
    case AtNone => CalmGround(env, st, b);
    case AtA1 => CalmEnd(env, st, b);
    case AtH2 => CalmEnd(env, st, b);
    case AtJK5 => CalmEnd(env, st, b);
    case AtVM4 => CalmEnd(env, st, b);
    case _ => CalmOperand(env, st, b);
  }

  lemma CalmGround(env: Env, st: State, b: byte)
    requires Calm(env, st) && st.avatar.scan == AtNone && b != ESC && b != 0x19 && (b == 0x16 ==> env.avatarFallback)
    ensures var r := Avatar.Step(env, st, b); r.status in {NoCharYet, OneChar} && Calm(env, r.st)
  {
    assert Avatar.Step(env, st, b) == Avatar.Ground(env, st, b);
    hide Avatar.Step;
  }

  lemma CalmEnd(env: Env, st: State, b: byte)
    requires Calm(env, st) && st.avatar.scan in {AtA1, AtH2, AtJK5, AtVM4}
    ensures var r := Avatar.Step(env, st, b); r.status in {NoCharYet, OneChar} && Calm(env, r.st)
  {
    hide Avatar.FillLines;
  }

  lemma CalmStore(env: Env, st: State, b: byte, v: AvatarVars)
    requires Calm(env, st) && v.scan in {AtH2, AtVM2, AtVM3, AtVM4, AtJK2, AtJK3, AtJK4, AtJK5} && st.n + 1 == Held(v.scan)
    ensures Calm(env, st.Store(b).(avatar := v))
  {
  }

  lemma CalmOperand(env: Env, st: State, b: byte)
    requires Calm(env, st) && st.avatar.scan in {AtH1, AtVM1, AtVM2, AtVM3, AtJK1, AtJK2, AtJK3, AtJK4}
    ensures var r := Avatar.Step(env, st, b); r.status in {NoCharYet, OneChar} && Calm(env, r.st)
  {
    var v := st.avatar;
    match v.scan
    case AtH1 => CalmStore(env, st, b, v.(scan := AtH2));
    case AtVM1 => CalmStore(env, st, b, v.(scan := AtVM2));
    case AtVM2 => CalmStore(env, st, b, v.(scan := AtVM3));
    case AtVM3 => CalmStore(env, st, b, v.(scan := AtVM4));
    case AtJK1 => CalmStore(env, st, b, v.(lines := b, scan := AtJK2));
    case AtJK2 => CalmStore(env, st, b, v.(upper := b, scan := AtJK3));
    case AtJK3 => CalmStore(env, st, b, v.(left := b, scan := AtJK4));
    case AtJK4 => CalmStore(env, st, b, v.(lower := b, scan := AtJK5));
  }

  /** The replay of such a pattern never stops, and ends between two sequences or inside a command. */
  lemma {:induction false} ReplayGoesOn(env: Env, st: State, bytes: seq<byte>)
    requires env.emulation == EmulateAvatar && Calm(env, st) && Harmless(env, bytes)
    ensures Calm(env, Replay(env, st, bytes))
    decreases bytes
  {
    if bytes != [] {
      hide Avatar.Step;
      assert bytes[0] in bytes && forall c | c in bytes[1..] :: c in bytes;
      CalmStep(env, st, bytes[0]);
      var r := Avatar.Step(env, st, bytes[0]);
      hide Calm;
      CalmPut(env, r.st, env.glyph(r.ch % 256));
      ReplayGoesOn(env, if r.status == OneChar then r.st.(d := r.st.d.Put(env.glyph(r.ch % 256))) else r.st, bytes[1..]);
      CalmHasNoFault(env, st);
    }
  }

  lemma CalmHasNoFault(env: Env, st: State)
    requires Calm(env, st)
    ensures !st.fault
  {
  }

  lemma CalmPut(env: Env, st: State, ch: int)
    requires Calm(env, st)
    ensures Calm(env, st.(d := st.d.Put(ch)))
  {
  }

  /** A byte that completes a ^V^Y whose pattern is harmless is processed to its end. */
  lemma PatternGoesOn(env: Env, st: State, b: byte)
    requires env.emulation == EmulateAvatar && Ready(env, st)
    requires st.avatar.scan == AtVY3 && Harmless(env, st.avatar.pattern)
    ensures var r := ConsoleByte(env, st, b);
      !r.fault && r.avatar.scan != AtDump && r.avatar.scan != AtVY2
  {
    hide Replay, Calm, Harmless, Inv, TerminalEmulator, Avatar.Times, Avatar.RepeatPattern, Avatar.Step;
    var r := Avatar.RepeatPattern(st.(received := st.received + 1), b);
    AvatarReadyParts(env, st);
    HarmlessTimes(env, st.avatar.pattern, b);
    PatternIsCalm(env, st, b);
    ReplayGoesOn(env, r.st, r.st.repeat);
    PatternCall(env, st, b);
    CalmEnds(env, Replay(env, r.st, r.st.repeat));
    SilentDrains(env, st, b);
  }

  lemma PatternCall(env: Env, st: State, b: byte)
    requires env.emulation == EmulateAvatar && Ready(env, st) && st.avatar.scan == AtVY3
    ensures var r := Avatar.RepeatPattern(st.(received := st.received + 1), b);
      TerminalEmulator(env, st, b) == Silent(Replay(env, r.st, r.st.repeat).(repeat := [], last := NoCharYet))
  {
    var counted := st.(received := st.received + 1);
    PatternAnswer(env, counted, b);
    hide Avatar.Step, Replay, Avatar.RepeatPattern, Answered, TerminalEmulator;
    AvatarCall(env, st, b);
  }

  lemma PatternAnswer(env: Env, st: State, b: byte)
    requires st.avatar.scan == AtVY3
    ensures var r := Avatar.RepeatPattern(st, b);
      && Avatar.Step(env, st, b) == r
      && Answered(env, r) == Silent(Replay(env, r.st, r.st.repeat).(repeat := [], last := NoCharYet))
  {
    hide Replay, Avatar.Times;
  }

  lemma {:induction false} HarmlessTimes(env: Env, pattern: seq<byte>, count: nat)
    requires Harmless(env, pattern)
    ensures Harmless(env, Avatar.Times(pattern, count))
    decreases count
  {
    if count > 0 {
      HarmlessTimes(env, pattern, count - 1);
    }
  }

  lemma PatternIsCalm(env: Env, st: State, b: byte)
    requires env.emulation == EmulateAvatar && Ready(env, st) && st.avatar.scan == AtVY3
    ensures var r := Avatar.RepeatPattern(st.(received := st.received + 1), b);
      Calm(env, r.st) && r.st.repeat == Avatar.Times(st.avatar.pattern, b)
  {
    hide Avatar.Times;
  }

  lemma CalmEnds(env: Env, st: State)
    requires Calm(env, st)
    ensures !st.fault && st.avatar.scan != AtDump && st.avatar.scan != AtVY2
  {
  }

  // ------------------------------------------------------- streams that never stop

  /** Bytes met where AVATAR may stop: the 127th of an ESC sequence that is then rejected, a pattern's length of 0, and
      the count of a pattern that is not harmless. */
  predicate IsCorner(env: Env, st: State, b: byte) {
    || Overfills(env, st, b)
    || (st.avatar.scan == AtVY1 && b == 0)
    || (st.avatar.scan == AtVY3 && !Harmless(env, st.avatar.pattern))
  }

  /** What a run away from the corners keeps, with fallback on. */
  predicate Sound(env: Env, st: State) {
    && env.emulation == EmulateAvatar && Inv(env, st) && !st.fault && st.last != ManyChars
    && st.avatar.scan != AtDump
    && (st.avatar.scan == AtVY2 ==> |st.avatar.pattern| < st.avatar.patternSize)
  }

  /** The part of it that one answer of avatar() decides. */
  predicate GoesOn(st: State) {
    st.avatar.scan != AtDump && (st.avatar.scan == AtVY2 ==> |st.avatar.pattern| < st.avatar.patternSize)
  }

  lemma {:induction false} RelayedGoesOn(env: Env, st: State)
    requires BufferOk(st) && AnsiOk(st) && AnsiIdleOk(st) && !st.fault && st.avatar.relayed < |st.avatar.relay|
    ensures var r := Avatar.Relay(env, st); r.st.fault || r.status == ManyChars || r.st.avatar.scan in {AtNone, AtFallback}
    decreases |st.avatar.relay| - st.avatar.relayed
  {
    hide Ansi.Step;
    AnsiStatus(env, st, st.avatar.relay[st.avatar.relayed]);
    AnsiStepKeeps(env, st, st.avatar.relay[st.avatar.relayed]);
    var r := Ansi.Step(env, st, st.avatar.relay[st.avatar.relayed]);
    if r.status == NoCharYet && st.avatar.relayed + 1 < |st.avatar.relay| && !r.st.fault {
      RelayedGoesOn(env, r.st.(avatar := st.avatar.(scan := AtFallback, relayed := st.avatar.relayed + 1)));
    }
  }

  lemma RejectedFallsBack(env: Env, st: State)
    requires env.avatarFallback && BufferOk(st) && st.ansi.scan == AnsiNone && st.i == 0 && 0 < st.n && !st.fault
    ensures var r := Avatar.Rejected(env, st); r.st.fault || r.status == ManyChars || r.st.avatar.scan in {AtNone, AtFallback}
  {
    hide Avatar.Relay;
    RelayedGoesOn(env, st.(avatar := st.avatar.(scan := AtFallback, relay := st.buf[..st.n], relayed := 0), n := 0, i := 0));
  }

  lemma SequenceGoesOn(env: Env, st: State, b: byte)
    requires env.avatarFallback && BufferOk(st) && AnsiOk(st) && AvatarOk(st) && !st.fault && st.n < 127
    requires st.avatar.scan in {AtV, AtEsc, AtCsi}
    ensures var r := Avatar.Step(env, st, b); r.st.fault || r.status == ManyChars || GoesOn(r.st)
  {
    hide Avatar.Rejected;
    if st.avatar.scan == AtV {
      RejectedFallsBack(env, st);
    } else {
      var kept := st.Store(b);
      RejectedFallsBack(env, kept);
    }
  }

  lemma ParameterGoesOn(env: Env, st: State, b: byte)
    requires env.avatarFallback && BufferOk(st) && AnsiOk(st) && AvatarOk(st) && !st.fault && st.n < 127
    requires st.avatar.scan == AtCsiParam
    ensures var r := Avatar.Step(env, st, b); r.st.fault || r.status == ManyChars || GoesOn(r.st)
  {
    hide Avatar.Rejected, Csi.AnsiColor;
    assert Avatar.Step(env, st, b) == Avatar.Parameter(env, st, b);
    hide Avatar.Step;
    var kept := st.Store(b);
    RejectedFallsBack(env, kept);
    RejectedFallsBack(env, kept.(avatar := kept.avatar.(attributes :=
      Csi.AnsiColor(env, kept.buf, kept.avatar.count, kept.avatar.attributes, kept.d.color).pen)));
  }

  lemma CommandGoesOn(env: Env, st: State, b: byte)
    requires BufferOk(st) && AvatarOk(st) && !st.fault && GoesOn(st) && !IsCorner(env, st, b)
    requires st.avatar.scan !in {AtV, AtEsc, AtCsi, AtCsiParam, AtFallback, AtY2, AtYEmit, AtVY3}
    ensures GoesOn(Avatar.Step(env, st, b).st)
  {
    hide Avatar.FillLines, Overfills;
  }

  /** avatar() starts no dump without saying so. */
  lemma AnswerGoesOn(env: Env, st: State, b: byte)
    requires env.avatarFallback && BufferOk(st) && AnsiOk(st) && AvatarOk(st) && !st.fault && st.n < 127
    requires GoesOn(st) && !IsCorner(env, st, b) && st.avatar.scan != AtVY3
    ensures var r := Avatar.Step(env, st, b); r.st.fault || r.status == ManyChars || GoesOn(r.st)
  {
    hide Ansi.Step, Avatar.EmitRun, Avatar.Relay, Overfills;
    match st.avatar.scan
    case AtY2 =>
      RunShrinks(env, st.(avatar := st.avatar.(yCount := b, scan := AtYEmit)));
      hide Avatar.Ground, Avatar.Command;
    case AtYEmit => RunShrinks(env, st);
    case AtFallback => RelayedGoesOn(env, st.(avatar := st.avatar.(relay := [b])));
    case AtV => SequenceGoesOn(env, st, b); hide Avatar.Step;
    case AtEsc => SequenceGoesOn(env, st, b); hide Avatar.Step;
    case AtCsi => SequenceGoesOn(env, st, b); hide Avatar.Step;
    case AtCsiParam => ParameterGoesOn(env, st, b); hide Avatar.Step;
    case _ => CommandGoesOn(env, st, b); hide Avatar.Step;
  }

  /** One byte away from the corners: it is processed to its end, and so can the next one be. */
  lemma SoundByte(env: Env, st: State, b: byte)
    requires Sound(env, st) && env.avatarFallback && !IsCorner(env, st, b)
    ensures Sound(env, ConsoleByte(env, st, b))
  {
    hide TerminalEmulator, ConsoleByte, Inv, Avatar.Step;
    JunkFirst(env, st, b);
    var clean := Junk(st);
    JunkIsNoCorner(env, st, b);
    if clean.avatar.scan == AtVY3 {
      PatternGoesOn(env, clean, b);
    } else {
      SoundAnswer(env, clean, b);
    }
  }

  lemma JunkIsNoCorner(env: Env, st: State, b: byte)
    requires !IsCorner(env, st, b)
    ensures !IsCorner(env, Junk(st), b)
  {
    hide Harmless, HoldsAll, Refuses, AvatarRefuses;
  }

  lemma SoundAnswer(env: Env, st: State, b: byte)
    requires env.emulation == EmulateAvatar && env.avatarFallback && Ready(env, st)
    requires GoesOn(st) && !IsCorner(env, st, b) && st.avatar.scan != AtVY3
    ensures var r := ConsoleByte(env, st, b); !r.fault && GoesOn(r)
  {
    hide TerminalEmulator, ConsoleByte, Inv, Avatar.Step, Drain, Overfills;
    var counted := st.(received := st.received + 1);
    ReadyIsInv(env, st);
    NotStuck(env, st, b);
    StopsExactly(env, st, b);
    AvatarCall(env, st, b);
    CornerCounted(env, st, b);
    AnswerGoesOn(env, counted, b);
    RepeatsOnlyPatterns(env, counted, b);
    var a := Avatar.Step(env, counted, b);
    NotedAnswer(env, a);
    TerminalEmulatorKeeps(env, st, b);
    if a.status == ManyChars {
      ManyCharsDrains(env, st, b);
      ManyGoesOn(env, Noted(a));
    } else if a.status == OneChar {
      OneCharDrains(env, st, b);
    } else {
      SilentDrains(env, st, b);
    }
  }

  lemma CornerCounted(env: Env, st: State, b: byte)
    requires !IsCorner(env, st, b) && GoesOn(st)
    ensures var counted := st.(received := st.received + 1); !IsCorner(env, counted, b) && GoesOn(counted)
  {
    hide Harmless, Overfills;
    OverfillsCounted(env, st, b);
  }

  lemma NotStuck(env: Env, st: State, b: byte)
    requires GoesOn(st) && !IsCorner(env, st, b)
    ensures !Stuck(st) && !Overfills(env, st, b)
  {
    hide Harmless, Overfills;
  }

  /** A printout that is not cut off ends between two sequences. */
  lemma ManyGoesOn(env: Env, r: Result)
    requires env.emulation == EmulateAvatar && CallKept(env, r) && r.status == ManyChars
    requires !Drain(env, Result(r.st, ManyChars, r.ch)).fault
    ensures GoesOn(Drain(env, Result(r.st, ManyChars, r.ch)))
  {
    if r.st.fault {
    } else if r.st.avatar.scan == AtYEmit {
      RunFinishes(env, r.st, r.ch);
    } else if r.st.n == 127 {
      AvatarLoses(env, r.st, r.ch);
    } else {
      AvatarPrintout(env, r.st, r.ch);
    }
    hide Drain, TerminalEmulator;
  }

  ghost predicate AwayFromCorners(env: Env, st: State, bytes: seq<byte>) {
    && (st.fault || Inv(env, st))
    && forall k | 0 <= k < |bytes| :: !IsCorner(env, Feed(env, st, bytes[..k]), bytes[k])
  }

  /**
   With fallback on, AVATAR processes every byte of every stream to its end, as long as no ESC sequence of 127
   bytes is rejected, no pattern has length 0 and none holds an ESC, a run or another pattern.
   */
  lemma {:induction false} AvatarGoesOn(env: Env, st: State, bytes: seq<byte>)
    requires Sound(env, st) && env.avatarFallback && AwayFromCorners(env, st, bytes)
    ensures Sound(env, Feed(env, st, bytes))
    decreases |bytes|
  {
    hide Feed, ConsoleByte, Inv, IsCorner;
    SoundHasInv(env, st);
    if bytes == [] {
      FedNothing(env, st);
    } else {
      var n := |bytes| - 1;
      var front, b := bytes[..n], bytes[n];
      forall k | 0 <= k < n ensures !IsCorner(env, Feed(env, st, front[..k]), front[k]) {
        assert front[..k] == bytes[..k];
      }
      AvatarGoesOn(env, st, front);
      assert bytes == front + [b] && !IsCorner(env, Feed(env, st, front), b);
      SoundByte(env, Feed(env, st, front), b);
      SoundHasInv(env, Feed(env, st, front));
      FeedConcat(env, st, front, [b]);
      FeedIs(env, Feed(env, st, front), [b], b, []);
    }
  }

  lemma FedNothing(env: Env, st: State)
    requires st.fault || Inv(env, st)
    ensures Feed(env, st, []) == st
  {
  }

  lemma SoundHasInv(env: Env, st: State)
    requires Sound(env, st)
    ensures Inv(env, st) && !st.fault
  {
  }

  lemma InitialIsSound(env: Env, d: Display)
    requires env.emulation == EmulateAvatar
    ensures Sound(env, Initial(env, d))
  {
  }

  lemma AvatarNeverStops(env: Env, d: Display, bytes: seq<byte>)
    requires env.emulation == EmulateAvatar && env.avatarFallback && AwayFromCorners(env, Initial(env, d), bytes)
    ensures !Feed(env, Initial(env, d), bytes).fault
  {
    hide Feed, IsCorner, Inv;
    InitialIsSound(env, d);
    AvatarGoesOn(env, Initial(env, d), bytes);
  }
}
