# Verified model of Qodem's terminal core

Qodem turns the bytes of a remote system into a screen. This project models the code that does so and states what
it guarantees, as Dafny theorems. `dafny verify dfyconfig.toml` checks all of it.

**The byte stream.** `console_process_incoming_data()` hands every received byte to `terminal_emulator()`, which
calls `ansi()` or `avatar()`. The three share `q_emul_buffer` and two indices. An emulator can swallow a byte, answer
with one character, start a printout of many (more calls follow), or ask for a pattern to be run again. `avatar()`
can also hand its bytes over to `ansi()`.

- `Display.dfy`: the screen as a trace of events. What the emulators read back from the screen (cursor, length of a
  line), the glyph tables and the options are parameters, so every theorem holds for every screen and every code page.
- `Machine.dfy`, `Csi.dfy`, `Ansi.dfy`, `Avatar.dfy`, `Console.dfy`: the state and one step of each machine, as
  functions. `fault` marks the places where the C code fails an assertion, and two where the model goes no further: a
  pattern inside a replayed pattern, and a store into the last cell of the buffer, which only a replay can attempt. The
  source goes on with the first, and writes outside the buffer one byte after the second.
- `Terminal.dfy`: the same code in its own form, a class with fields, a real 128-cell array, loops and early returns.
  Each method is proved equal to its function. All array accesses, and with them the pointers of the parameter
  parsers, are proved to stay inside the buffer.
- `Invariant.dfy`, `Console.dfy`: what every step keeps, and termination.
- `AnsiFraming.dfy` with `AnsiMeaning.dfy`, `AvatarFraming.dfy`: streams mean what their sequences and commands mean,
  said without the functions that read them. `Controls.dfy`, `Decimal.dfy`: the same for a control character and for a
  number.
- `AnsiFallback.dfy`, `FallbackReach.dfy`, `FallbackFeed.dfy`: fallback is `ansi()`, call by call, in every run, and
  seen from the console.
- `Rejection.dfy`, `Conservation.dfy`: what is not understood is printed back, from the bytes held and from the bytes
  received. `AvatarStops.dfy`: when AVATAR stops. `Parameters.dfy`, `Sgr.dfy`, `AvatarSgr.dfy`, `OneNumber.dfy`: the
  grammar and the meaning of parameters. `Reached.dfy`: runs from the first byte on to the surprising places.

**The UTF-8 codec** (`Utf8.dfy`) against RFC 3629: the table automaton, the encoder, and both round trips.

**Six array algorithms.** `DirectorySort.dfy` (with `Names.dfy`, `strcmp()`), `FieldEditor.dfy`, `HelpIndex.dfy`,
`EntityDecoder.dfy`, `TabStops.dfy` and `Tokenizer.dfy`.

## Where the code does not do what one would expect

The model follows the code. Each of these has its exact condition proved, in the lemma named with it. `Reached.dfy`
runs the console from its first byte to each of those that need a state to be reached, as the lemma named last shows.

- A rejected sequence of 127 bytes is not printed back: the next call finds the buffer full, throws it away, and under
  ANSI takes its own argument (-1, so 0xFF) for a received byte (`Rejection.AnsiConservesExactly`,
  `Reached.OverlongUnderAnsi`). Under AVATAR it ends in a failed assertion (`Rejection.AvatarConservesExactly`,
  `AvatarStops.StopsExactly`, `Reached.OverlongUnderAvatar`, `Reached.OverlongInFallback`).
- Of a shorter one, `ESC [ ? x` say, the bytes that `ansi()` swallows without storing are lost: `=`, `?`, the blank and
  a repeated ESC. A CR or LF under ANSI is obeyed in its midst. All others come back
  (`Conservation.ReproducedExactly`, `Reached.MarkerIsLost`).
- So a CR or LF inside a sequence is where the console shows something else under AVATAR with fallback than under
  ANSI; the other place is the 127th byte of a rejected sequence (`FallbackFeed.FeedsAgreeExactly`).
- Without fallback, `^V` and a byte that is no command print the `^V`, drop the byte and leave `avatar()` in its dump
  state with an empty buffer, where the next byte fails an assertion (`Rejection.UnknownCommandSticks`,
  `Reached.UnknownCommandStops`).
- A replayed pattern looks each glyph up a second time, so `^V^Y` is repetition exactly for bytes that this does not
  change (`AvatarFraming.PatternIsRepetition`). Any printable ASCII with an identity glyph is such a byte.
- `ESC [ ; 5 H` is rejected although the comment says that an omitted row means 0: an omitted row is read only when
  the column is omitted too (`Parameters.LocatesExactly`, `Reached.OmittedRowIsShown`).
- AVATAR's own SGR starts from the attributes its last SGR left, not from those in force, and leaves insert mode. It
  does what the same SGR does under ANSI exactly when insert mode was off and the list decides every flag in which
  the two sets of attributes differ (`AvatarSgr.AvatarSgrExactly`, `Reached.AttributesAreStale`).
- A rejected sequence leaves its private marker behind, so `ESC [ 7 h`, which needs one, is obeyed after `ESC [ ? x`.
  Mode 7 is obeyed exactly if a marker has come since a sequence was last finished (`AnsiFraming.SequenceRuns`,
  `AnsiFraming.RejectionKeepsMarks`, `Reached.MarkerIsStale`).
- `ESC [ 0 d`, `ESC [ 0 G` and `ESC [ 0 I` are printed, not obeyed, and `ESC [ 1 I` moves no tab: these three count
  from one (`OneNumber.NumberExactly`).
- The identify answer of seven bytes is sent with a length of 3, so only `ESC [ ?` ever leaves
  (`OneNumber.AnswerIsCut`).
- A CR ends ANSI music exactly under AVATAR. Under ANSI the dispatcher takes it first and moves the cursor, and only
  the byte 0x0E is left to play it (`OneNumber.ReturnEndsMusicExactly`).
- Overwriting in the last column of a scrolling field does not scroll it, which loses the cursor in a field of any
  width (`FieldEditor.StepFramesExactly`, `FieldEditor.OverwritingLosesCursor`). In insert mode only a field of one
  column can lose it (`FieldEditor.VisibleExactly`).
- Surrogates are encoded but not decoded (`Utf8.RoundTripExactly`).
- An ampersand directly after an ampersand starts no escape, `&#x;` is the number 0, and an escape that the line ends
  in is lost (`EntityDecoder.DecodesExactly`).

## Model

| member | source | states |
|---|---|---|
| `Console.TerminalEmulatorKeeps` | source/emulation.c:809-1007 | whatever the byte and the state, one call keeps the invariant of the shared variables, brings a printout strictly nearer to its end, and under ANSI never stops |
| `Console.Drain` | source/console.c:2350-2395 | the unbounded loop around one received byte ends for every byte and every state (its measure decreases), with the invariant kept and no printout pending |
| `Console.Feed` | source/console.c:2350-2395 | a whole stream of bytes keeps the invariant |
| `Console.FeedConcat` | source/console.c:2350-2395 | a stream may arrive in any pieces |
| `Console.RunShrinks` | source/avatar.c:402-436 | the goto loop of a run ends, and each character it yields uses up part of the count |
| `Console.ReplayKeeps` | source/emulation.c:949-1004 | running a stored pattern keeps the invariant or stops |
| `Invariant.AnsiStepKeeps` | source/ansi.c:1260-2110 | one call of ansi() keeps 0 <= i <= n <= 127, the free last cell, the zero tail and the fill level each scan state implies |
| `Invariant.AvatarStepKeeps` | source/avatar.c:213-925 | one call of avatar() keeps the invariant, including that ansi() is idle whenever avatar() is not in fallback |
| `Invariant.RelayKeeps` | source/avatar.c:228-284 | handing any bytes over to ansi() keeps the invariant |
| `Invariant.StopsExactlyWhenStuck` | source/avatar.c:842-866 | between bytes avatar() stops exactly in a dump of nothing or in a pattern of length 0 |
| `FallbackReach.AnsiNeverStops` | source/emulation.c:817-870 | no byte stream stops the console under ANSI, and after each the whole buffer invariant holds |
| `AnsiFraming.SequenceRuns` | source/ansi.c:1260-2110 | the bytes of any one ANSI sequence, with its numbers in decimal, fed through the console, show what ECMA-48 (or ANSI.SYS) means by it, and leave what ansi() remembers as stated |
| `AnsiFraming.SequencesRun` | source/console.c:2350-2395 | the concatenated bytes of any list of plain bytes, sequences and tunes show exactly what each means in order, and every byte is counted once |
| `AnsiFraming.NumberEffect` | source/ansi.c:1638-2053 | A B C D G d I K J @ P L M b do what CUU, CUD, CUF, CUB, CHA, VPA, CHT, EL, ED, ICH, DCH, IL, DL and REP mean, for every number |
| `AnsiFraming.DefaultEffect` | source/ansi.c:1360-1590 | without a number they do what 1 means, K and J what 0 means, and I what 2 means |
| `AnsiFraming.NumberedSequenceRuns` | source/ansi.c:968-1078 | h and l switch line wrap for mode 7 if there is a private marker, before the number or left over, and do nothing otherwise |
| `AnsiFraming.RepeatIsRepetition` | source/ansi.c:885-960 | c and ESC [ n b show exactly what n + 1 times c shows, ANSI animation included |
| `AnsiFraming.RestoreUndoesMoves` | source/ansi.c:1446-1463 | ESC [ u ends where the cursor was at ESC [ s, whatever other sequences came between |
| `AnsiFraming.RejectionKeepsMarks` | source/ansi.c:2089-2110 | after a rejected byte ansi() is between two sequences and remembers what it did before, the private markers included |
| `AvatarFraming.CommandRuns` | source/avatar.c:286-766 | the bytes of any one AVATAR command, fed through the console, show what the command means, its colours given by the CGA bits and each control character spelled out, and end between commands |
| `AvatarFraming.CommandsRun` | source/avatar.c:286-766 | the concatenated bytes of any list of commands show exactly what each means in order, the insert mode included, so no operand is read as a command; every byte is counted once |
| `AvatarFraming.AreaIsFilled` | source/avatar.c:576-609 | ^V^L and ^V^M fill as many lines as they say with their character, CGA colour and width, and leave the colour in force and the modes as they were |
| `AvatarFraming.AreaIsMeant` | source/avatar.c:576-609 | each line starts at the cursor, and the step down to the next is left out below the screen |
| `AvatarFraming.CgaIsMeant` | source/avatar.c:143-200 | the foreground and background are the ECMA-48 colours of their three bits turned round, with bold and blink from bits 3 and 7 |
| `Controls.ControlIsMeant` | source/emulation.c:239-372 | ENQ, BEL, BS, HT, LF, VT, FF and CR do what they are for, and every other control character shows its glyph of code page 437 |
| `AvatarFraming.RepeatRuns` | source/avatar.c:387-436 | a run, drained by the console, shows its character count times |
| `AvatarFraming.RunIsRepetition` | source/avatar.c:387-436 | ^Y c n shows exactly what n copies of c show and leaves the same mode, for printable and control c |
| `AvatarFraming.TimesIsPattern` | source/avatar.c:531-559 | cell k of the repeat buffer is byte k mod m of the pattern |
| `AvatarFraming.CaptureByte` | source/avatar.c:512-521 | the capture of a pattern is unaffected by the shared buffer filling up and being thrown away |
| `AvatarFraming.PatternRuns` | source/avatar.c:500-559 | ^V^Y with any pattern of plain bytes and any count replays exactly that many copies |
| `AvatarFraming.PatternIsRepetition` | source/emulation.c:949-1004 | the replay shows what the copies themselves show if and only if looking each glyph up twice changes no byte of the pattern |
| `AnsiFallback.AnsiCongruent` | source/ansi.c:1260-2110 | ansi() depends on nothing but its own variables, the buffer and the display, and changes nothing else |
| `AnsiFallback.RelayAgrees` | source/avatar.c:228-284 | one relayed byte does what ansi() alone does |
| `AnsiFallback.HandOver` | source/avatar.c:870-897 | the two bytes held back are handed over without a trace |
| `AnsiFallback.FallbackRefinesAnsi` | source/avatar.c:228-284 | from an ESC at rest until ansi() answers, avatar() shows, answers and leaves behind what ansi() alone does on the same bytes |
| `FallbackReach.BetweenSequencesIsAtRest` | source/avatar.c:213-925 | after every byte stream, avatar() between two sequences is at rest |
| `FallbackReach.FallbackRefinesAnsiInEveryRun` | source/avatar.c:228-284 | so the refinement holds from every ESC that any run meets between two sequences |
| `FallbackFeed.StepIgnores` | source/ansi.c:1260-2110 | ansi() does not depend on which emulation is on |
| `FallbackFeed.SecondByte` | source/emulation.c:817-1004 | an ESC at rest and any byte after it, fed through the dispatcher, show the same under AVATAR with fallback as under ANSI if and only if that byte is no CR or LF |
| `FallbackFeed.ByteAgreesExactly` | source/emulation.c:809-1007 | one byte received in fallback shows the same through the dispatcher under either emulation if and only if it is no CR or LF inside a sequence and not the 127th of a refused one |
| `FallbackFeed.FeedsAgreeExactly` | source/emulation.c:809-1007 | from an ESC at rest on, whole byte streams in fallback show the same under either emulation up to the first such byte, and there they differ |
| `Rejection.AnsiHandsBack` | source/ansi.c:2089-2110 | when ansi() starts a printout, the buffer is the one before with the rejected byte appended |
| `Rejection.AnsiPrintout` | source/emulation.c:845-869 | the dispatcher prints each byte still held once, in order and mapped, and ends with an empty buffer |
| `Rejection.AnsiConservesExactly` | source/ansi.c:2089-2110 | every byte held in the buffer is printed back, first byte raw and the others mapped, if and only if they are fewer than 127 with the rejected one |
| `Rejection.AnsiRejectionConserves` | source/emulation.c:845-869 | and then every byte held is shown, the state is idle with an empty buffer, and one byte is counted |
| `Rejection.AnsiRejectionLoses` | source/emulation.c:817-822 | with 127 bytes the rest is thrown away and two received bytes are counted |
| `Rejection.AvatarPrintout` | source/avatar.c:842-866 | avatar() prints each byte still held once, in order and mapped |
| `Rejection.AvatarConservesExactly` | source/avatar.c:899-924 | without fallback all bytes of a rejected ESC sequence are printed mapped, unless they are 127, and exactly then it stops |
| `Rejection.AvatarLoses` | source/emulation.c:817-822 | a printout of 127 bytes under AVATAR ends in a failed assertion |
| `Rejection.FallbackConservesExactly` | source/avatar.c:274-281 | what ansi() holds when it rejects in fallback is printed back by avatar(), up to 126 bytes, and exactly with 127 it stops |
| `Conservation.AnsiSwallows` | source/ansi.c:1347-1636 | of the bytes that leave ansi() inside a sequence each is stored, except the private markers, the blank and a repeated ESC |
| `Conservation.ReceivedIsHeld` | source/emulation.c:809-1007 | after any bytes that a sequence swallows, under ANSI or in fallback, the buffer holds the received bytes without those and without the CR and LF that the dispatcher obeyed, or has been thrown away full |
| `Conservation.StoredComesBack` | source/ansi.c:2089-2110 | when the next byte is rejected, exactly these bytes are shown, after the effects of the CR and LF among them |
| `Conservation.ReproducedExactly` | source/ansi.c:1260-2110 | the display is that of the received bytes printed in order if and only if they are fewer than 127 and none of them was dropped or obeyed |
| `AvatarStops.RefusesExactly` | source/ansi.c:1286-2053 | inside a sequence ansi() answers exactly the bytes that no sequence allows there, by a list of them and the grammar of the parameters |
| `AvatarStops.StopsExactly` | source/avatar.c:842-924 | a received byte that does not complete a ^V^Y stops AVATAR if and only if avatar() was stuck or the byte is the 127th of a sequence that is then refused, be it held by ansi(), by avatar() or handed over |
| `AvatarStops.PatternGoesOn` | source/emulation.c:949-1004 | a byte that completes a ^V^Y whose pattern holds no ESC and no ^Y (and no ^V with fallback off) never stops AVATAR, although the pattern may hold whole commands |
| `AvatarStops.AvatarNeverStops` | source/emulation.c:873-1004 | with fallback on, no byte stream stops AVATAR unless it meets one of the listed corners: the 127th byte of a refused sequence, a pattern of length 0, or the replay of a pattern with ESC or ^Y |
| `Rejection.UnknownCommandSticks` | source/avatar.c:768-768 | an unknown byte after ^V leaves avatar() stuck if and only if fallback is off, and then every next byte stops it |
| `Parameters.ParameterRead` | source/ansi.c:154-219 | one to six digits that no digit follows are read as their value, which the next two rows give |
| `Decimal.NumberIsRead` | source/ansi.c:154-219 | every number below a million, written in decimal with or without zeros before it in at most six digits, is read as itself |
| `Decimal.ParameterIsWritten` | source/ansi.c:154-219 | and every string of one to six digits is such a number, written so |
| `Parameters.ReadIsParameter` | source/ansi.c:154-219 | nothing else is read as a number |
| `Parameters.AcceptsExactlyLists` | source/ansi.c:1087-1249 | ansi_color() accepts a string of digits and semicolons if and only if it is a list of parameters |
| `Parameters.ListParsed` | source/ansi.c:1087-1249 | an accepted list gives the fold of its parameters |
| `Parameters.LocatesExactly` | source/ansi.c:227-316 | ansi_position() reads a string as a position if and only if it is one, with that row and column |
| `Sgr.StringRuns` | source/ansi.c:1347-1636 | ESC [ and any digits and semicolons that fit are held as they are, through every scan state |
| `Sgr.SgrFolds` | source/ansi.c:1638-2053 | ESC [ p1;...;pk m sets the colour to the left fold of the parameters and changes nothing else |
| `Sgr.LastDecides` | source/ansi.c:1112-1221 | after any list, each colour and each flag is what the last parameter about it says |
| `Sgr.SgrSplits` | source/ansi.c:1087-1249 | one sequence with two lists does what two sequences in a row do |
| `Sgr.RejectedSgrKeepsColor` | source/ansi.c:1087-1249 | a rejected list leaves the colour as it was |
| `Sgr.LocateExactly` | source/ansi.c:1755-1765 | H or f moves the cursor if and only if the string is a position, and otherwise all of it is printed back |
| `AvatarSgr.AvatarSgrFolds` | source/avatar.c:784-840 | the bytes ESC [ p1;...;pk m, fed to AVATAR with its colour option, set the colour to the fold of the parameters from the attributes that its last SGR left, leave insert mode, and change nothing else |
| `AvatarSgr.FoldsAgreeExactly` | source/ansi.c:1112-1221 | a list makes two pens of the same colours equal if and only if it decides every flag in which they differ |
| `AvatarSgr.AvatarSgrExactly` | source/avatar.c:812-840 | the sequence leaves the same display under AVATAR as under ANSI if and only if insert mode was off and the list decides every flag in which the attributes of AVATAR's last SGR differ from those in force |
| `AvatarSgr.EmptySgrResets` | source/avatar.c:800-809 | ESC [ m under AVATAR with its colour option resets the colour to that of plain text and leaves insert mode |
| `AvatarSgr.CgaMatchesSgr` | source/avatar.c:143-200 | ^V^A with a CGA colour number gives, through the console, the colour that ESC [ 3k m or ESC [ 4k m gives under ANSI for the number with its bits turned round |
| `OneNumber.NumberExactly` | source/ansi.c:1836-1868 | ESC [ n d, ESC [ n G and ESC [ n I, for every decimal number n, go to row n, to column n or on by n-1 tabs if n is at least 1, and are printed back whole otherwise |
| `OneNumber.AnswerIsCut` | source/ansi.c:1322-1330 | ESC Z and ESC [ c send the first three bytes of the answer |
| `OneNumber.ReturnEndsMusicExactly` | source/emulation.c:889-911 | a CR in ANSI music plays it under AVATAR, and under ANSI moves the cursor while the music goes on |
| `Reached.OverlongUnderAnsi` | source/emulation.c:817-822 | ESC [, 124 digits and x from reset: at most three of 127 bytes come back and 128 are counted |
| `Reached.OverlongUnderAvatar` | source/avatar.c:899-924 | the same bytes stop AVATAR with its colour option on and fallback off |
| `Reached.OverlongInFallback` | source/avatar.c:228-284 | and with fallback on |
| `Reached.OmittedRowIsShown` | source/ansi.c:227-316 | ESC [ ; 5 H from reset shows its five bytes |
| `Reached.MarkerIsLost` | source/ansi.c:1464-1636 | ESC [ ? x from reset shows three of its four bytes |
| `Reached.MarkerIsStale` | source/ansi.c:2089-2110 | ESC [ 7 h from reset changes nothing, and after ESC [ ? x it switches line wrap on |
| `Reached.ResetIsNeutral` | source/ansi.c:109-118 | from reset ESC [ m changes nothing, ESC [ u goes back to where the cursor was, and a printable byte is shown in plain text without a refresh |
| `Reached.AttributesAreStale` | source/avatar.c:812-840 | ^V^A for bold and ESC [ 7 m from reset end in another display than ESC [ 7 m gives under ANSI there |
| `Reached.UnknownCommandStops` | source/avatar.c:768-768 | ^V, 0 and any byte from reset stop AVATAR with fallback off |
| `Terminal.Terminal.AnsiPs` | source/ansi.c:154-219 | the digit loop computes the parsed number and stays inside the buffer |
| `Terminal.Terminal.AnsiPosition` | source/ansi.c:227-316 | the position loop computes the parsed position and stays inside the buffer |
| `Terminal.Terminal.AnsiOne` | source/ansi.c:324-1078 | the loops of the one-parameter parsers compute the parsed number |
| `Terminal.Terminal.AnsiColor` | source/ansi.c:1087-1249 | the SGR loop computes the parsed attributes |
| `Terminal.Terminal.AnsiByte` | source/ansi.c:1260-2110 | ansi(), updating fields and array, does one step of the specification |
| `Terminal.Terminal.AvatarRun` | source/avatar.c:402-436 | the repeat loop does what the specification of a run says |
| `Terminal.Terminal.CopyPattern` | source/avatar.c:531-559 | the buffer that is filled back to front holds the copies of the pattern |
| `Terminal.Terminal.AvatarRelay` | source/avatar.c:228-284 | the loop that hands bytes over does what the specification says |
| `Terminal.Terminal.AvatarByte` | source/avatar.c:213-925 | avatar(), updating fields and array, does one step of the specification |
| `Terminal.Terminal.Replay` | source/emulation.c:949-1004 | the loop over a stored pattern does what the specification says |
| `Terminal.Terminal.TerminalEmulator` | source/emulation.c:809-1007 | the dispatcher does one step of the specification |
| `Terminal.Terminal.ProcessByte` | source/console.c:2350-2395 | the loop around one byte leaves the state that the specification gives |
| `Terminal.Terminal.ProcessIncomingData` | source/console.c:2350-2395 | a whole stream leaves the state that the specification gives |
| `Utf8.TableHoldsByteClass` | source/codepage.c:201-216 | the first 256 entries of the table are the byte classes |
| `Utf8.TableHoldsNextState` | source/codepage.c:201-216 | the others are the transitions |
| `Utf8.Decoder.Decode` | source/codepage.c:229-237 | a call does one step of the automaton, with its table look-ups in range |
| `Utf8.AcceptsExactlyWellFormed` | source/codepage.c:229-237 | a run from ACCEPT ends in ACCEPT if and only if the bytes are well formed by section 4 of RFC 3629 |
| `Utf8.AcceptsExactlyAtBoundaries` | source/codepage.c:229-237 | inside a well-formed stream ACCEPT falls exactly between characters, with the scalar value of the last one |
| `Utf8.RejectIsAbsorbing` | source/codepage.c:201-237 | after REJECT nothing is decoded any more |
| `Utf8.CharIsDecoded` | source/codepage.c:229-237 | a character yields its scalar value at its last byte, and no prefix of it ends or rejects |
| `Utf8.StreamIsDecoded` | source/codepage.c:229-237 | a stream of characters yields their scalar values in order |
| `Utf8.EncodeInto` | source/codepage.c:144-171 | the encoder writes the encoding and touches no other cell |
| `Utf8.EncodeIsChar` | source/codepage.c:144-171 | the encoding of a scalar value is a character of the grammar with that value |
| `Utf8.CharIsEncoded` | source/codepage.c:144-171 | every character of the grammar is the encoding of its value |
| `Utf8.StreamRoundTrip` | source/codepage.c:144-171 | decoding the concatenated encodings of scalar values gives them back, and no prefix of the bytes rejects |
| `Utf8.RoundTripExactly` | source/codepage.c:144-171 | any list of code points survives the round trip if and only if it has no surrogate and nothing above 10FFFF |
| `Utf8.SurrogateIsRejected` | source/codepage.c:144-171 | a surrogate is written as bytes that the decoder rejects |
| `DirectorySort.SwapRemovesOne` | source/forms.c:1714-1776 | each swap removes exactly one inversion |
| `DirectorySort.NeighboursList` | source/forms.c:1714-1776 | a pass without a swap means directories first and each group in name order |
| `DirectorySort.Sort` | source/forms.c:1714-1776 | the sort that steps back ends, with directories before files, no name of a group before an earlier one in dictionary order, and the same entries |
| `DirectorySort.SwapFileInfo` | source/forms.c:1456-1461 | swaps two neighbours and nothing else |
| `Names.ComparesAsDictionary` | source/forms.c:1740-1742 | strcmp() is negative exactly if the first name is a proper prefix of the second or has the lesser byte, as unsigned, where they first differ |
| `Names.CompareTransitive` | source/forms.c:1740-1742 | the order that strcmp() gives is transitive, strictly so when one step is strict |
| `FieldEditor.StepFramesExactly` | source/field.c:180-187 | of all edits in a scrolling field exactly one loses the cursor: overwriting in the last column |
| `FieldEditor.InsertingStaysFramed` | source/field.c:116-373 | any run of edits in insert mode keeps the cursor in the window, and right of its start once it has scrolled |
| `FieldEditor.VisibleExactly` | source/field.c:116-373 | every run in insert mode shows the cursor if and only if the field has at least two columns |
| `FieldEditor.FixedStaysInside` | source/field.c:116-373 | no run of edits in either mode moves a fixed field's window, outgrows its width or puts the cursor outside |
| `FieldEditor.WindowMovesLeast` | source/field.c:116-373 | a step that does not jump scrolls the window no further than the cursor needs |
| `FieldEditor.JumpShowsMost` | source/field.c:218-257 | a jump or a new value shows as much of the text as fits before the cursor |
| `FieldEditor.PlainIsZipper` | source/field.c:73-373 | each edit does to the text before and after the cursor what an editor without indices does, with the one exception of a full fixed field spelled out |
| `FieldEditor.RunIsZipper` | source/field.c:73-373 | and so does any list of edits |
| `FieldEditor.TypingAppends` | source/field.c:73-212 | typing at the end appends, and a fixed field keeps exactly what fits |
| `FieldEditor.BackspaceUndoesExactly` | source/field.c:97-337 | backspace undoes a typed key in insert mode, with the exact exceptions of a fixed field |
| `FieldEditor.Field.AppendChar` | source/field.c:73-91 | the buffer, cursor and window change as the plain editor says |
| `FieldEditor.Field.InsertChar` | source/field.c:97-108 | inserts as the plain editor does, and its assertion holds |
| `FieldEditor.Field.Keystroke` | source/field.c:116-212 | every branch does what typing a key does in the plain editor, and its assertion holds |
| `FieldEditor.Field.EndChar` | source/field.c:238-257 | moves the cursor and the window as specified |
| `FieldEditor.Field.MoveLeft` | source/field.c:264-281 | moves the cursor and the window as specified |
| `FieldEditor.Field.MoveRight` | source/field.c:288-308 | moves the cursor and the window as specified |
| `FieldEditor.Field.BackspaceChar` | source/field.c:315-337 | removes the cell before the cursor, as the plain editor does |
| `FieldEditor.Field.DeleteChar` | source/field.c:359-373 | removes the cell at the cursor, as the plain editor does |
| `FieldEditor.Field.SetTo` | source/field.c:527-546 | replaces the text, with the cursor and the window at its end |
| `FieldEditor.Follow` | source/field.c:73-546 | any list of edits on the buffer gives the text, cursor and window that the plain editor's run gives |
| `FieldEditor.OverwritingLosesCursor` | source/field.c:180-187 | in a scrolling field of any width there is a run from the empty field that ends with the cursor outside the window |
| `HelpIndex.BuildHelpIndex` | source/help.c:484-635 | one link for each wanted key and no other, in strictly increasing dictionary order, on lines 0, 1, 2, ..., with the title of the topic found |
| `HelpIndex.Sort` | source/help.c:561-573 | the exchange sort leaves no key before an earlier one in dictionary order and keeps all keys |
| `HelpIndex.ExchangeOrders` | source/help.c:561-573 | an exchange keeps the sorted part and makes the key at i the least so far |
| `HelpIndex.Uniq` | source/help.c:585-599 | the shrinking in-place uniq ends with strictly increasing keys and loses none |
| `HelpIndex.DropRepeat` | source/help.c:585-599 | closing up over a repeat keeps order, keys and the part already strict |
| `HelpIndex.Gather` | source/help.c:503-544 | gathers exactly the keys of all links and topics |
| `HelpIndex.FindTopic` | source/help.c:104-117 | finds the first topic with the key, if and only if there is one |
| `EntityDecoder.DecodesExactly` | source/help.c:235-349 | decoding aborts exactly on text that is no list of pieces with at most one unfinished escape, and otherwise gives the meaning of the pieces |
| `EntityDecoder.Parsed` | source/help.c:235-349 | every text that is decoded is such a list |
| `EntityDecoder.PieceRead` | source/help.c:235-349 | each piece is read as its meaning, whatever came before |
| `EntityDecoder.RoundTrip` | source/help.c:235-349 | every text of code points, each written plainly, in decimal or in hexadecimal, with any zeros before it, a small or a capital x and small or capital letters, is decoded to itself |
| `EntityDecoder.NumberOfDigits` | source/help.c:307-343 | the digits of a number stand for it, in both bases |
| `EntityDecoder.WideExtendsSign` | source/help.c:235-349 | a plain byte is widened as a signed char |
| `EntityDecoder.NeverAhead` | source/help.c:235-349 | no more cells are written than bytes read |
| `EntityDecoder.ConvertUnicode` | source/help.c:235-349 | the loop writes what the specification gives, inside a buffer as long as the input, and touches nothing past it |
| `TabStops.Follow` | source/atascii.c:118-188 | every history of reset, set and clear leaves an increasing array with the columns of the set model |
| `TabStops.SameColumns` | source/atascii.c:118-188 | which no other array does |
| `TabStops.Tabs.ResetTabStops` | source/atascii.c:118-131 | the multiples of 8 below the width |
| `TabStops.Tabs.SetTabStop` | source/atascii.c:136-162 | adds the cursor's column, in its place |
| `TabStops.Tabs.ClearTabStop` | source/atascii.c:166-188 | removes the cursor's column |
| `TabStops.Tabs.AdvanceToNextTabStop` | source/atascii.c:95-114 | moves to the least stop right of the cursor, or to the last column if there is none |
| `Tokenizer.TokenizeCommand` | source/dialer.c:126-178 | stores one pointer for each word and NULL in the last cell, and each pointer is the start of a C string that is the word |
| `Tokenizer.CountTokens` | source/dialer.c:144-151 | the first pass counts what the second one stores |
| `Tokenizer.StoreTokens` | source/dialer.c:157-166 | the second pass stays inside the array that the first one sized, and zeros exactly the separators |
| `Tokenizer.PointersAreExact` | source/dialer.c:126-178 | the pointers are all places where a word starts, once and in order |
| `Tokenizer.CStringIsWord` | source/dialer.c:157-166 | in the copy with zeroed separators the C string at a word's start is that word |
| `Tokenizer.CutUndoesJoin` | source/dialer.c:126-178 | cutting words joined by any white space gives back the words |
| `Tokenizer.SeparatesExactly` | source/common.h:162-162 | of all bytes exactly the blank, CR and LF between two words separate them |

## Left out

- The screen, scrollback, clipboard, capture, serial line and sound: their calls are events, and what they return is a parameter.
- The glyph tables: any function from bytes to code points stands for `codepage_map_char()`.
- The other emulations of the dispatcher (VT52, VT100 and its family, PETSCII, ATASCII, TTY, DEBUG).
- The rest of `console_process_incoming_data()`: file-transfer autostart, translation tables, stripping of the eighth bit, doorway and host modes.
- Colour packing: a colour is a record of foreground, background and flags rather than a bit field.
- `iscntrl()` in locales other than "C".
- `Replay`: a pattern inside a replayed pattern, and a sequence that fills the buffer during a replay, end the model with `fault`, while the source goes on (with the buffer it is reading from overwritten, or until it writes past the other one).
- `ReplayKeeps`: the same two cases are what it calls stopping.
- `StopsExactly`: leaves out the byte that completes a ^V^Y. `PatternGoesOn` decides it for patterns without ESC, ^Y and, with fallback off, ^V; for the others a stop of the model need not be one of the source.
- Tab stops of the ANSI terminal: the loop that prints blanks up to the next one is one event with its limit.
- Keyboard translation (`ansi_keystroke()` and its likes): pure tables.
- `FallbackRefinesAnsiInEveryRun`: with AVATAR's colour option on, bytes handed over can stay in the buffer, so the refinement is stated for the option off.
- `SequenceRuns`: rejected sequences are not in its list (`Conservation.dfy` has them), nor are the private markers, blanks and repeated ESC that `ansi()` swallows elsewhere than before a mode or a font.
- `SgrFolds`: lists of up to 124 bytes, which is what the buffer can hold before the final byte.
- `AvatarSgrFolds`: the same.
- `AvatarSgrExactly`: the same.
- `FeedsAgreeExactly`: the colour option is off here too, and it follows one fallback, from its ESC to its end.
- `ConvertUnicode`: the number of an escape is unbounded here, while a `wchar_t` overflows from 2^31 on; a plain `char` is taken to be signed.
- `EncodeInto`: `wchar_t` is taken as unsigned, so negative code points are not modelled.
- `Keystroke`: requires that the text still fits the buffer afterwards, since the code does not look at the size of the buffer in a scrolling field.
- `BackspaceChar`: requires a free cell after the text if it has something to remove, because the move takes one cell past the text with it.
- `DeleteChar`: requires the same, for the same reason.
- `SetTo`: requires what the two assertions of `field_set_value()` demand.
- Rendering of fields, focus and the other members of a fieldset.
- `BuildHelpIndex`: the topic list is a sequence, and the empty lines appended to the index topic are not kept, only their number.
- `TokenizeCommand`: pointers are offsets into the copy.
- `SwapFileInfo`: only the name and the kind of an entry matter; the other attributes are one number.
- `Sort`: the two sorts compare bytes as unsigned, which is what the C standard asks of `strcmp()`.
