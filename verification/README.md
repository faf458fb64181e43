# Quava: verified models

Quava links an Android phone to a Linux daemon. These Dafny modules model the parts of it whose
correctness is hardest to see from the code, and prove what those parts promise. Code that changes
state in place is modelled by classes and methods with loops; each method is proved against a
specification, and the theorems are proved about the specification. Protocols between concurrent
parties are state machines whose steps are single lock sections.

| files | subject |
|---|---|
| `TerminalModel`, `TerminalEmulation`, `TerminalLayout`, `TerminalSafety`, `TerminalSequences` | the terminal: parser, grid of row arrays shifted by reference, scrollback; what each written sequence does |
| `Wire`, `SecureStreams`, `Framing`, `ConcurrentWriters`, `Handshake` | the sealed wire format as both programs implement it, and the handshake that keys it |
| `RemoteInputs`, `InputWorker`, `InputOrder`, `TokenBucket`, `ImeText` | remote input: validation, merging of pointer moves, rate limit, committed keyboard text |
| `Requests` | request and reply correlation on a session |
| `DnsNames`, `DnsPacket`, `DnsRecords`, `Collector`, `CollectedDevices` | discovery: the mDNS codec and the join of its records |
| `DaemonModel`, `DaemonHistory`, `DaemonLifecycle` | the daemon's sessions and the ownership of remote input; what the history of events says of them |
| `ArtworkCache`, `ArtworkShrink`, `MediaSelection` | artwork cache and shrink loop, choice of the active player |
| `Numbers`, `Sequences`, `Utf16` | shared helpers: comparisons, options, splitting and joining, UTF-16 text |

## How to read the models

- A Kotlin `Char` is a `CodeUnit`, a number below 2^16, because Dafny characters exclude surrogates.
  Kotlin `Int` arithmetic on the cursor wraps at 32 bits explicitly. DNS names are byte strings in
  the codec and strings of the same bytes in the collector.
- An exception that leaves a method is a `None`, an `ok == false` or an error value. In the terminal it
  is `ArrayIndexOutOfBoundsException`; the state it leaves half way through an operation is not
  modelled. A screen has sides from 1 to 2^30.
- ChaCha20-Poly1305 (section 2.8 of RFC 8439), HMAC, HKDF and SHA-256 are function-valued parameters.
  The hypotheses about them are stated at each theorem: opening undoes sealing, a seal adds 16 bytes,
  the texts recorded on this wire open only as they were sealed, the MACs of these two transcripts
  do not collide, the key derivation keeps its two labels apart. Nothing else is assumed of them.
- What the environment decides (how much a socket returns or takes, what a handler answers, in which
  order Go walks a map, when the reader runs beside a worker) is chosen freely, so the theorems hold
  for every choice. Times, file access and the network are parameters or left out.

## What the code does that its comments do not say

- `CSI` numbers may be negative. A negative count moves the cursor past the edge that its clamp does
  not guard: `NegativeCountLeaves` leaves a screen of any height. `StepStaysInGrid` gives the exact
  condition for one character; `SmallMovesStay` is the condition on a whole text.
- Resizing clamps the cursor but not the saved position, and `ESC 8` restores it unclamped.
  `ResizeSafeIffSavedFits` says when a later text whose relative moves are all small can still make
  the terminal fail: exactly when the saved position no longer fits. `SessionStaysInGrid` puts feeds,
  resizes and resets together.
- Merging pointer moves clamps the sum, so a merged displacement beyond 10000 is lost: two moves of
  10000 come out as one (`ClampLoses`). `PathKeptIffUnclamped` says that this is the only loss,
  and `PathAlwaysKeptIff` for which arrivals no schedule loses anything.
- U+2028 and U+2029 are passed on by the phone's keyboard and refused by the daemon, with the whole
  chunk (`DaemonAcceptsIff`).
- The phone measures a chunk code point by code point. Two lone surrogates that a dropped control
  character brings together are counted as two bytes and sent as one code point of four
  (`HalvesFuse`). An event can so have 8192 bytes where 4096 are allowed, and the daemon refuses it
  (`LimitBroken`). `TextKeepsLimitIff` says exactly when the limit is kept. It always is when no high
  half comes to stand before a low half (`ApartTextKeepsLimit`), so for all well-formed text.
- The DNS name decoder loops exactly when its walk reads some place twice (`LoopsIffReadsTwice`), as
  a pointer to itself does (`SelfPointerLoops`).
- If a host announces two addresses, the devices listed depend on the order of the records, and only
  then (`IndependentIff`): once its instance is listed the first address stays
  (`AddressOrderMatters`), before that the next address overwrites the last
  (`EarlyAddressOverwritten`).
- When the sealing stream meets a bad length, every later call seals again the frames that stood
  before it: messages go out twice exactly when there are such frames (`SealedAgain`,
  `MessageSentTwice`). The phone's own `writeMessage` writes lengths from 1 to 65536 only, so it
  never gets there, whatever pieces its buffering makes (`MessagesSealed`).

## Model

| member | source | states |
|---|---|---|
| TerminalLayout.PlainTextLayout | android/app/src/main/java/com/dhibaid/quava/TerminalEmulator.kt:121-142 | For any printable text with line feeds on a reset terminal, scrollback followed by the screen down to the cursor equals the text split into lines, cut into padded rows with deferred wrap, less the oldest rows beyond the cap; rows below are blank |
| TerminalLayout.RunShowsLayout | android/app/src/main/java/com/dhibaid/quava/TerminalEmulator.kt:293-346 | The invariant behind it: after every prefix, grid, scrollback, cursor row and column are those of the layout of that prefix |
| TerminalLayout.LineFeedShows | android/app/src/main/java/com/dhibaid/quava/TerminalEmulator.kt:337-346 | A line feed adds one blank row to what is shown, whether or not the screen scrolls and the scrollback drops its oldest row |
| TerminalSafety.StepStaysInGrid | android/app/src/main/java/com/dhibaid/quava/TerminalEmulator.kt:101-189 | From inside the grid, no single character raises an exception, and the cursor leaves the grid exactly when a relative move's number passes the unguarded edge |
| TerminalSafety.SmallMovesStay | android/app/src/main/java/com/dhibaid/quava/TerminalEmulator.kt:92-230 | Over whole texts: if the numbers of its relative moves, as the parser alone reads them, are unsigned and too small to overflow, the run from any terminal inside the grid never fails and stays inside |
| TerminalSafety.HarmlessTextStays | android/app/src/main/java/com/dhibaid/quava/TerminalEmulator.kt:92-230 | In particular for every text with no minus sign and no ten digits in a row, surrogates left out |
| TerminalSafety.ScanFollows | android/app/src/main/java/com/dhibaid/quava/TerminalEmulator.kt:101-189 | The screen has no influence on the parser: its state and parameters depend on the text alone |
| TerminalSafety.NegativeCountLeaves | android/app/src/main/java/com/dhibaid/quava/TerminalEmulator.kt:191-199 | Input for which it fails, on any screen: from the bottom row, moving up by -1 leaves the grid, and the next character is out of bounds |
| TerminalSafety.ResizeSafeIffSavedFits | android/app/src/main/java/com/dhibaid/quava/TerminalEmulator.kt:75-90 | A resize always brings the cursor inside; a later text whose relative moves are unsigned and small can make the terminal fail exactly when the saved position lies outside the new grid |
| TerminalSafety.SessionStaysInGrid | android/app/src/main/java/com/dhibaid/quava/TerminalEmulator.kt:55-95 | Any sequence of feeds with small relative moves, resizes that still hold the saved position, and resets never fails, and cursor and saved position stay inside |
| TerminalSafety.SavedRowFails | android/app/src/main/java/com/dhibaid/quava/TerminalEmulator.kt:154-158 | With the saved row below the grid, restoring it and printing fails |
| TerminalSafety.SavedColumnFails | android/app/src/main/java/com/dhibaid/quava/TerminalEmulator.kt:362-366 | With the saved column right of the grid, restoring it and erasing to the start of the line fails |
| TerminalSafety.RunInPieces | android/app/src/main/java/com/dhibaid/quava/TerminalEmulator.kt:92-95 | Feeding a text in two calls is feeding it in one |
| TerminalSafety.InsertThenDeleteLines | android/app/src/main/java/com/dhibaid/quava/TerminalEmulator.kt:321-335 | Inserting lines and deleting as many restores all but the last rows |
| TerminalSafety.DeleteThenInsertLines | android/app/src/main/java/com/dhibaid/quava/TerminalEmulator.kt:321-335 | Deleting lines and inserting as many blanks exactly the deleted rows |
| TerminalSafety.InsertedTwice | android/app/src/main/java/com/dhibaid/quava/TerminalEmulator.kt:321-327 | Shifting by one repeatedly is one splice of that many rows |
| TerminalSafety.EraseLineHalves | android/app/src/main/java/com/dhibaid/quava/TerminalEmulator.kt:362-366 | Erasing from the cursor on and then before it erases the whole line |
| TerminalSafety.EraseDisplayHalves | android/app/src/main/java/com/dhibaid/quava/TerminalEmulator.kt:348-360 | So for the screen |
| TerminalSafety.MovesCancelIff | android/app/src/main/java/com/dhibaid/quava/TerminalEmulator.kt:199-202 | Moving down and up, or right and left, by the same count returns exactly when the first move is not clamped, or starts at the edge; from the deferred-wrap column too |
| TerminalSequences.ValuesReadBack | android/app/src/main/java/com/dhibaid/quava/TerminalEmulator.kt:191-197 | The parameters of a sequence are the numbers that were printed: decimal digits between semicolons read back as those numbers |
| TerminalSequences.ControlIsHandled | android/app/src/main/java/com/dhibaid/quava/TerminalEmulator.kt:143-182 | ESC [, any parameters and a final byte, fed as text between sequences, have exactly the effect of that final byte with those parameters, and the next character is text again |
| TerminalSequences.OpenersAgree | android/app/src/main/java/com/dhibaid/quava/TerminalEmulator.kt:124-147 | U+009B opens the same sequence as ESC [, whatever follows |
| TerminalSequences.NoNumber | android/app/src/main/java/com/dhibaid/quava/TerminalEmulator.kt:193-197 | A sequence without a number is as with 0 |
| TerminalSequences.CursorAddressed | android/app/src/main/java/com/dhibaid/quava/TerminalEmulator.kt:205-208 | `CSI r;c H` and `f`, fed as text with printed numbers, put the cursor on row r and column c counted from 1, or as near as the screen allows, from any state |
| TerminalSequences.ColumnAddressed | android/app/src/main/java/com/dhibaid/quava/TerminalEmulator.kt:203 | So `G` and `` ` `` for the column alone |
| TerminalSequences.RowAddressed | android/app/src/main/java/com/dhibaid/quava/TerminalEmulator.kt:204 | And `d` for the row |
| TerminalSequences.AddressedInParts | android/app/src/main/java/com/dhibaid/quava/TerminalEmulator.kt:203-208 | `d` then `G` is `H` |
| TerminalSequences.CursorMoved | android/app/src/main/java/com/dhibaid/quava/TerminalEmulator.kt:199-202 | A, B, e, C, a and D move by n, or by 1 for 0, in their own direction, and stop at the edge |
| TerminalSequences.SavedThenRestored | android/app/src/main/java/com/dhibaid/quava/TerminalEmulator.kt:221-228 | `s`, a move to anywhere, `u`: the cursor is back, but never right of the last column |
| TerminalSequences.EscSavedThenRestored | android/app/src/main/java/com/dhibaid/quava/TerminalEmulator.kt:149-158 | ESC 7, a move to anywhere, ESC 8: exactly where it was, deferred wrap included |
| TerminalSequences.Index | android/app/src/main/java/com/dhibaid/quava/TerminalEmulator.kt:159-162 | ESC D moves down and keeps the column; at the bottom the screen scrolls by one row into the scrollback |
| TerminalSequences.ReverseIndex | android/app/src/main/java/com/dhibaid/quava/TerminalEmulator.kt:163-166 | ESC M moves up, but not past the top |
| TerminalSequences.LinesInsertedThenDeleted | android/app/src/main/java/com/dhibaid/quava/TerminalEmulator.kt:215-216 | `CSI n L` then `CSI n M`, fed as text, lose only the rows pushed off the bottom |
| TerminalSequences.LinesDeletedThenInserted | android/app/src/main/java/com/dhibaid/quava/TerminalEmulator.kt:215-216 | In the other order exactly the deleted rows are blank |
| TerminalSequences.LinesInserted | android/app/src/main/java/com/dhibaid/quava/TerminalEmulator.kt:215 | Row by row: the rows from the cursor on move down by n, what comes in is blank, nothing else changes |
| TerminalSequences.LinesDeleted | android/app/src/main/java/com/dhibaid/quava/TerminalEmulator.kt:216 | Row by row: n rows go, those below move up |
| TerminalSequences.CharactersInserted | android/app/src/main/java/com/dhibaid/quava/TerminalEmulator.kt:214 | Cell by cell: the cells from the cursor on move right by n |
| TerminalSequences.CharactersErased | android/app/src/main/java/com/dhibaid/quava/TerminalEmulator.kt:213 | Cell by cell: n cells from the cursor on are blank |
| TerminalSequences.LineErased | android/app/src/main/java/com/dhibaid/quava/TerminalEmulator.kt:212 | Cell by cell: `K` blanks the row from the cursor on, `1 K` before it, `2 K` all of it |
| TerminalSequences.DisplayErased | android/app/src/main/java/com/dhibaid/quava/TerminalEmulator.kt:211 | Cell by cell, so `J` for the screen |
| TerminalSequences.PenReset | android/app/src/main/java/com/dhibaid/quava/TerminalEmulator.kt:232-244 | `CSI m` puts the pen back to its initial value |
| TerminalSequences.AttributesSetAndCleared | android/app/src/main/java/com/dhibaid/quava/TerminalEmulator.kt:245-250 | Bold, underline and reverse: each code sets or clears its own attribute and nothing else |
| TerminalSequences.BasicColors | android/app/src/main/java/com/dhibaid/quava/TerminalEmulator.kt:251-265 | The codes 30 to 37, 40 to 47, 90 to 97, 100 to 107, 39 and 49 set foreground or background, the colours by the bits of their number |
| TerminalSequences.TrueColor | android/app/src/main/java/com/dhibaid/quava/TerminalEmulator.kt:266-287 | `38;2;r;g;b` and `48;2;r;g;b` set foreground and background to that colour |
| TerminalSequences.PaletteColor | android/app/src/main/java/com/dhibaid/quava/TerminalEmulator.kt:266-287 | `38;5;n` and `48;5;n` take a colour of the palette |
| TerminalSequences.Palette | android/app/src/main/java/com/dhibaid/quava/TerminalEmulator.kt:386-396 | The palette: eight basic and eight bright colours, a cube with six levels a channel, 24 grays |
| TerminalSequences.CharacterWritten | android/app/src/main/java/com/dhibaid/quava/TerminalEmulator.kt:293-306 | A character is written with the pen at the cursor, which moves on by one; bold makes a basic colour bright |
| TerminalSequences.CursorShownOrHidden | android/app/src/main/java/com/dhibaid/quava/TerminalEmulator.kt:218-220 | `?25h` shows the cursor and `?25l` hides it |
| TerminalSequences.Controls | android/app/src/main/java/com/dhibaid/quava/TerminalEmulator.kt:136-139 | Carriage return, backspace and tab; a tab stops at the next multiple of eight or the last column |
| TerminalSequences.OtherControlsIgnored | android/app/src/main/java/com/dhibaid/quava/TerminalEmulator.kt:122-142 | Every other control character is ignored |
| TerminalSequences.PairPrintsOnce | android/app/src/main/java/com/dhibaid/quava/TerminalEmulator.kt:107-118 | Two halves of a pair print one replacement character, a half alone nothing, in every parser state |
| TerminalSequences.FullReset | android/app/src/main/java/com/dhibaid/quava/TerminalEmulator.kt:55-73 | ESC c blanks screen and scrollback and puts cursor, saved position, pen and visibility back, field by field |
| TerminalSequences.UnknownIgnored | android/app/src/main/java/com/dhibaid/quava/TerminalEmulator.kt:170-230 | Escapes and control sequences that are not known do nothing |
| TerminalSequences.CommandIgnored | android/app/src/main/java/com/dhibaid/quava/TerminalEmulator.kt:183-187 | An operating system command is read past up to its BEL |
| TerminalSequences.ResizeKeepsOverlap | android/app/src/main/java/com/dhibaid/quava/TerminalEmulator.kt:75-90 | Cell by cell: what fits into the new size stays where it was, the rest is blank; sizes are clamped to 20..240 and 4..400 |
| TerminalEmulation.TerminalEmulator.constructor | android/app/src/main/java/com/dhibaid/quava/TerminalEmulator.kt:7-10 | A new terminal is the initial one, of pairwise distinct rows |
| TerminalEmulation.TerminalEmulator.Reset | android/app/src/main/java/com/dhibaid/quava/TerminalEmulator.kt:55-73 | Resetting gives the initial terminal of the current size |
| TerminalEmulation.TerminalEmulator.Resize | android/app/src/main/java/com/dhibaid/quava/TerminalEmulator.kt:75-90 | The new grid is the overlap with the old one padded with blanks; the saved position is kept |
| TerminalEmulation.TerminalEmulator.Feed | android/app/src/main/java/com/dhibaid/quava/TerminalEmulator.kt:92-95 | Fed text has the effect of the model's run; the grid stays rows of the right width in pairwise distinct arrays; failure exactly where the model fails |
| TerminalEmulation.TerminalEmulator.Consume | android/app/src/main/java/com/dhibaid/quava/TerminalEmulator.kt:101-189 | One code unit: surrogates, then the four parser states |
| TerminalEmulation.TerminalEmulator.ConsumeText | android/app/src/main/java/com/dhibaid/quava/TerminalEmulator.kt:121-142 | Characters outside any sequence |
| TerminalEmulation.TerminalEmulator.ConsumeEscape | android/app/src/main/java/com/dhibaid/quava/TerminalEmulator.kt:143-171 | The character after ESC |
| TerminalEmulation.TerminalEmulator.ConsumeCsi | android/app/src/main/java/com/dhibaid/quava/TerminalEmulator.kt:172-182 | Parameters are collected and the final byte dispatched; a failed sequence leaves the parser as it was |
| TerminalEmulation.TerminalEmulator.ConsumeSurrogate | android/app/src/main/java/com/dhibaid/quava/TerminalEmulator.kt:107-118 | A complete pair prints one replacement glyph, a lone half nothing |
| TerminalEmulation.TerminalEmulator.HandleCsi | android/app/src/main/java/com/dhibaid/quava/TerminalEmulator.kt:191-230 | Each final byte has the effect of the model, whose meaning for sequences fed as text the laws of `TerminalSequences` state |
| TerminalEmulation.TerminalEmulator.ApplySgr | android/app/src/main/java/com/dhibaid/quava/TerminalEmulator.kt:232-291 | The loop over attribute codes, extended colours included, gives the pen of the recursive reading |
| TerminalEmulation.TerminalEmulator.Put | android/app/src/main/java/com/dhibaid/quava/TerminalEmulator.kt:293-306 | Deferred wrap, then one cell is written, in one row only |
| TerminalEmulation.TerminalEmulator.EraseCharacters | android/app/src/main/java/com/dhibaid/quava/TerminalEmulator.kt:308-311 | The cells from the cursor on are blanked, up to the row's end |
| TerminalEmulation.TerminalEmulator.InsertCharacters | android/app/src/main/java/com/dhibaid/quava/TerminalEmulator.kt:313-319 | The in-place shift of cells is one splice of the row |
| TerminalEmulation.TerminalEmulator.InsertLines | android/app/src/main/java/com/dhibaid/quava/TerminalEmulator.kt:321-327 | The repeated shift of row references is one splice of the grid, with no row aliased |
| TerminalEmulation.TerminalEmulator.DeleteLines | android/app/src/main/java/com/dhibaid/quava/TerminalEmulator.kt:329-335 | The counterpart for deletion |
| TerminalEmulation.TerminalEmulator.LineFeed | android/app/src/main/java/com/dhibaid/quava/TerminalEmulator.kt:337-346 | At the bottom the top row goes to the scrollback, capped, and the rows shift by reference |
| TerminalEmulation.TerminalEmulator.EraseDisplay | android/app/src/main/java/com/dhibaid/quava/TerminalEmulator.kt:348-360 | Each mode blanks exactly its cells |
| TerminalEmulation.TerminalEmulator.EraseLine | android/app/src/main/java/com/dhibaid/quava/TerminalEmulator.kt:362-366 | Each mode blanks exactly its cells of the cursor's row |
| Wire.NonceInjective | daemon/libquava/protocol/secure.go:47-61 | No two counters of one key share a nonce |
| Wire.NonceNumber | daemon/libquava/protocol/secure.go:47-61 | A nonce is four zero bytes and the record number, its high-order bytes first |
| Wire.RecordReadsBack | android/app/src/main/java/com/dhibaid/quava/SecureStreams.kt:95-113 | A record followed by anything is read back as its message and that rest |
| Wire.PartialRecord | android/app/src/main/java/com/dhibaid/quava/SecureStreams.kt:142-173 | A proper piece of a record is the end of the stream or a cut, never a message |
| Wire.WireReadsBack | daemon/libquava/protocol/message.go:142-161 | From any initial piece of the wire a receiver accepts exactly a prefix of the messages; from all of it, all, with a clean end |
| Wire.AcceptedInOrder | daemon/libquava/protocol/secure.go:47-84 | From any bytes (records repeated, reordered, dropped, altered, from the other direction) that hold no forgery, what is accepted is a prefix of what was sent |
| Wire.PlayedBackInOrder | daemon/libquava/protocol/secure.go:47-84 | From any sequence of recorded records of both directions, what is accepted is a prefix of what was sent; asked of the cipher is only that each recorded text opens as it was sealed |
| SecureStreams.FramesInPieces | android/app/src/main/java/com/dhibaid/quava/SecureStreams.kt:84-113 | Parsing plain bytes in pieces gives the frames that parsing at once gives |
| SecureStreams.PlainOfFrames | android/app/src/main/java/com/dhibaid/quava/SecureStreams.kt:95-113 | The frames found and the bytes kept back are the bytes written |
| SecureStreams.FramesOfPlain | android/app/src/main/java/com/dhibaid/quava/PairingProtocol.kt:679-697 | Frames as the phone writes them parse back to exactly its messages |
| SecureStreams.SealingOutputStream.EmitCompleteFrames | android/app/src/main/java/com/dhibaid/quava/SecureStreams.kt:95-113 | Seals exactly the complete frames pending, in order; a bad length stops with the pending bytes kept |
| SecureStreams.SealingOutputStream.Write | android/app/src/main/java/com/dhibaid/quava/SecureStreams.kt:78-88 | Does what the specification of one call says, in every state; until a bad length is written, it succeeds and the wire is the sealed complete frames of all bytes written |
| SecureStreams.SealingOutputStream.Flush | android/app/src/main/java/com/dhibaid/quava/SecureStreams.kt:90-93 | Does what the specification says in every state; unless a bad length was written, it succeeds and changes nothing: no incomplete frame is sent |
| SecureStreams.CallsSucceedIff | android/app/src/main/java/com/dhibaid/quava/SecureStreams.kt:78-113 | For any calls of write and flush: all succeed exactly when the bytes hold no bad length, and then wire, pending bytes and counter are those of their complete frames |
| SecureStreams.BadStays | android/app/src/main/java/com/dhibaid/quava/SecureStreams.kt:95-113 | A bad length is never made good by what follows, so an initial piece of good frames is good |
| SecureStreams.MessagesSealed | android/app/src/main/java/com/dhibaid/quava/PairingProtocol.kt:679-697 | For messages of 1 to 65536 bytes cut in any way across calls, no call fails; when all is written, the wire is that of the messages |
| SecureStreams.SealedAgain | android/app/src/main/java/com/dhibaid/quava/SecureStreams.kt:95-113 | The call that meets a bad length and every later one seal the frames before it; a record goes out twice exactly when there are such frames |
| SecureStreams.MessageSentTwice | android/app/src/main/java/com/dhibaid/quava/SecureStreams.kt:95-113 | An input: a frame and a bad length, then a flush; the peer accepts the message twice |
| SecureStreams.SealedInputStream.ReadRecord | android/app/src/main/java/com/dhibaid/quava/SecureStreams.kt:142-173 | One record is read with the outcome the byte-level reading gives, however the socket cuts it |
| SecureStreams.SealedInputStream.Fill | android/app/src/main/java/com/dhibaid/quava/SecureStreams.kt:142-163 | Loads the next record when the buffer is used up; until the first error it ends or fails only as the byte-level reading does |
| SecureStreams.SealedInputStream.Read | android/app/src/main/java/com/dhibaid/quava/SecureStreams.kt:126-140 | Until the first error, bytes returned are a prefix of the accepted messages' plain bytes, and all of them at the end of the stream or at that error |
| SecureStreams.MessagesEndToEnd | android/app/src/main/java/com/dhibaid/quava/SecureStreams.kt:69-173 | For any messages, any cutting across writes with any flushes, and any initial piece of the wire: no call fails, the reader gets a prefix of the messages, and all of them when all was written and arrived |
| SecureStreams.EndToEnd | android/app/src/main/java/com/dhibaid/quava/SecureStreams.kt:69-173 | The same for any bytes without a bad length, an incomplete last frame included |
| SecureStreams.HostileWire | android/app/src/main/java/com/dhibaid/quava/SecureStreams.kt:117-173 | Without forgeries, the plain bytes read from any wire are a prefix of the sender's |
| Framing.FrameCipher.NextNonce | daemon/libquava/protocol/secure.go:47-61 | The shifting loop writes the big-endian counter after four zero bytes, and refuses when the counter is used up |
| Framing.FrameCipher.Seal | daemon/libquava/protocol/secure.go:63-70 | Seals under the next nonce |
| Framing.FrameCipher.Open | daemon/libquava/protocol/secure.go:72-84 | Opens under the next nonce; a failure uses the nonce up |
| Framing.Conn.EnableEncryption | daemon/libquava/protocol/message.go:85-108 | Refused for keys of the wrong size and for a second call; starts both counters at zero |
| Framing.Conn.WriteMessage | daemon/libquava/protocol/message.go:111-139 | The wire stays the handshake followed by the records of all accepted messages; an oversized message leaves no gap |
| Framing.Conn.WriteFrame | daemon/libquava/protocol/message.go:280-290 | Length and payload are appended, or nothing above the limit |
| Framing.Conn.WriteExact | daemon/libquava/protocol/message.go:369-400 | All bytes are written, in whatever pieces the socket takes |
| Framing.Conn.ReadFrame | daemon/libquava/protocol/message.go:257-277 | One frame is read with the outcome the byte-level reading gives, however the socket cuts it |
| Framing.Conn.ReadMessage | daemon/libquava/protocol/message.go:142-161 | The same for one message, before encryption is enabled and after; a failed opening uses up the nonce |
| Framing.PlainFrameReadsBack | daemon/libquava/protocol/message.go:257-290 | A frame as written is read back, whatever follows |
| Framing.BigEndianCons | daemon/libquava/protocol/secure.go:54-57 | The byte a shift and truncation yields is the next byte of the big-endian number |
| Framing.Interoperate | daemon/libquava/protocol/message.go:257-290 | Phone and daemon put the same bytes on the wire for the same messages, and each accepts the other's in full |
| ConcurrentWriters.StepKeepsInvariant | daemon/libquava/protocol/message.go:111-139 | Every step of every caller keeps: wire and unwritten rest are the records in counter order |
| ConcurrentWriters.RunKeepsInvariant | daemon/libquava/protocol/message.go:111-139 | So does every interleaving |
| ConcurrentWriters.WireInCounterOrder | daemon/libquava/protocol/message.go:111-139 | For every interleaving, refused messages included, a reader gets the messages in the order their nonces were taken, with no gap |
| ConcurrentWriters.EachCallOnce | daemon/libquava/protocol/message.go:111-139 | For every interleaving, a call that reported success is among the sealed messages exactly once with its payload; one that was refused is not, and was oversized or came after the last counter |
| ConcurrentWriters.NothingElseSent | daemon/libquava/protocol/message.go:111-139 | Every sealed message comes from a call with that payload, which succeeded or is still writing |
| Handshake.HonestHandshake | daemon/libquava/session/session.go:67-196 | Between a paired host and phone the handshake completes on both sides, each program deriving its keys by its own definition, with keys crossed by direction |
| Handshake.TranscriptInjective | android/app/src/main/java/com/dhibaid/quava/PairingProtocol.kt:569-580 | Equal transcripts of fields of equal sizes have equal fields |
| Handshake.ProofMeansAgreement | android/app/src/main/java/com/dhibaid/quava/PairingProtocol.kt:228-288 | If the phone accepts the daemon's proof and the two MACs do not collide, both saw the same handshake and hold crossed keys |
| Handshake.ChallengeMeansAgreement | daemon/libquava/session/session.go:67-196 | If the daemon accepts a challenge with the phone's MAC and the MACs do not collide, it is the phone's challenge to the daemon's own hello, from the paired identity |
| Handshake.ReadyMeansAgreement | daemon/libquava/session/session.go:67-196 | If the daemon accepts a final proof with the phone's MAC and the MACs do not collide, both saw the same handshake and hold crossed keys |
| Handshake.SameTranscript | android/app/src/main/java/com/dhibaid/quava/PairingProtocol.kt:569-580 | The transcripts of both programs, written out separately, are the same bytes |
| Handshake.AcceptanceNeedsMac | daemon/libquava/session/session.go:67-196 | Neither side accepts without the MAC of that step, under the shared credential, over its own view of the handshake |
| Handshake.PlayedBackProofRefused | daemon/libquava/session/session.go:67-196 | The daemon's own proof, or the challenge's MAC, played back to it as the final proof is refused, if MACs of different purposes do not collide |
| Handshake.HostDirectionsDiffer | daemon/libquava/crypto/pairing.go:172-198 | After a completed handshake the daemon sends under another key than it receives under, if the key derivation keeps the two labels apart |
| Handshake.PhoneDirectionsDiffer | android/app/src/main/java/com/dhibaid/quava/PairingProtocol.kt:228-288 | So the phone |
| Handshake.HostRefusesItsOwn | daemon/libquava/crypto/pairing.go:172-198 | After a completed handshake, from any sequence of recorded records of the session, its own among them, the daemon accepts only a prefix of what the phone sent |
| Handshake.PhoneRefusesItsOwn | android/app/src/main/java/com/dhibaid/quava/PairingProtocol.kt:228-288 | So the phone |
| InputWorker.InputWorker.Arrive | daemon/libquava/session/session.go:341-379 | The next event is queued, or refused with an acknowledgement when it is over the rate or the queue is full |
| InputWorker.InputWorker.Interfere | daemon/libquava/session/session.go:341-379 | Any number of events arrive in the order of the script; accepted and refused events are the subsequences of the arrivals that were and were not queued |
| InputWorker.InputWorker.AcknowledgeAll | daemon/libquava/session/inputs.go:38-44 | Each event of a turn is acknowledged once, in order, with the turn's outcome, whatever arrives in between |
| InputWorker.InputWorker.HandleSingle | daemon/libquava/session/inputs.go:20-29 | An event that is not a move is given to the handler unchanged, if it decodes, and acknowledged with the handler's answer |
| InputWorker.InputWorker.Coalesce | daemon/libquava/session/inputs.go:72-89 | Takes a run of queued moves, stops before anything else and puts that aside; sums are exact |
| InputWorker.InputWorker.HandleMoves | daemon/libquava/session/inputs.go:72-105 | The clamped sum of the run is given to the handler once, unless zero, and every move is acknowledged with the handler's answer |
| InputWorker.AckTellsAnswer | daemon/libquava/session/inputs.go:20-44 | Every event of a turn is told what the handler answered to the turn's input; where nothing was applied, moves that cancel out count as done and an event that did not decode as failed |
| InputWorker.InputWorker.RunInputWorker | daemon/libquava/session/inputs.go:46-106 | At every moment of every schedule, acknowledged, batch, put aside and queue are the queued arrivals in the order they came, and what was applied is determined by the turns; when nothing is left to receive, every accepted event has been acknowledged |
| InputOrder.AppliedKeepsPath | daemon/libquava/session/inputs.go:67-105 | What is applied has the path of what was handled: same other events in order, same displacement before each, unless a sum was clamped |
| InputOrder.ScheduleIndependent | daemon/libquava/session/inputs.go:67-105 | The path does not depend on how the schedule cut the moves into runs |
| InputOrder.PathKeptIffUnclamped | daemon/libquava/session/inputs.go:90-92 | A merged run keeps its path exactly when its sums need no clamping |
| InputOrder.PathAlwaysKeptIff | daemon/libquava/session/inputs.go:67-105 | For decoded arrivals, every schedule keeps their path exactly when every run of moves standing side by side sums to at most 10000 on both axes |
| InputOrder.ClampLoses | daemon/libquava/session/inputs.go:90-92 | Two merged moves of 10000 come out as one of 10000 |
| InputOrder.MovesAddUp | daemon/libquava/session/inputs.go:84-85 | A run of moves adds exactly its sum to the displacement |
| InputOrder.AppliedIsValid | daemon/libquava/models/inputs.go:47-81 | Everything given to the handler, merged moves included, passes the daemon's validation |
| TokenBucket.Limiter.AllowInputEvent | daemon/libquava/session/session.go:477-497 | One event against the bucket |
| TokenBucket.NeverAbove | daemon/libquava/session/session.go:477-497 | In every window at most 100 events and 500 a second are let through |
| TokenBucket.ConformingIsAdmitted | daemon/libquava/session/session.go:477-497 | While a stream keeps that bound the bucket holds exactly what one of its windows leaves over, so nothing is refused |
| TokenBucket.AdmittedIffConforming | daemon/libquava/session/session.go:477-497 | Nothing of a stream is refused exactly when every window of it keeps the bound |
| ImeText.Sender.SendImeText | android/app/src/main/java/com/dhibaid/quava/ui/RemoteControlScreen.kt:272-320 | The events carry exactly the text with CR, LF and CRLF folded to ENTER, tab to TAB, other controls dropped; chunks are nonempty, of whole code points, filled greedily, and counted within the limit; for well-formed text the count is the size |
| ImeText.WellFormedWithinLimit | android/app/src/main/java/com/dhibaid/quava/ui/RemoteControlScreen.kt:266-320 | For every well-formed text, every text event is well formed and has at most 4096 UTF-8 bytes |
| ImeText.EventSizeExact | android/app/src/main/java/com/dhibaid/quava/ui/RemoteControlScreen.kt:309-315 | The size of an event is the counted size and two bytes more for every pair of halves that fuse |
| ImeText.TextKeepsLimitIff | android/app/src/main/java/com/dhibaid/quava/ui/RemoteControlScreen.kt:272-320 | For any text, no event sent for it is above the limit exactly when every chunk leaves room for what fusing adds |
| ImeText.LimitKeptIff | android/app/src/main/java/com/dhibaid/quava/ui/RemoteControlScreen.kt:309-315 | The same for any sequence of chunks and taps that the sender could make |
| ImeText.ApartTextKeepsLimit | android/app/src/main/java/com/dhibaid/quava/ui/RemoteControlScreen.kt:272-320 | The limit is kept for every text in which, dropped control characters taken out, no high half stands before a low half |
| ImeText.WellFormedApart | android/app/src/main/java/com/dhibaid/quava/ui/RemoteControlScreen.kt:272-320 | Every well-formed text is such a text |
| ImeText.LimitBroken | android/app/src/main/java/com/dhibaid/quava/ui/RemoteControlScreen.kt:309-315 | A text for which one event has 8192 bytes, and is refused by the daemon |
| ImeText.Sender.ReadOne | android/app/src/main/java/com/dhibaid/quava/ui/RemoteControlScreen.kt:287-317 | One turn of the loop moves the meaning of one code point, or of a CRLF, from the text to the events |
| ImeText.Sender.Append | android/app/src/main/java/com/dhibaid/quava/ui/RemoteControlScreen.kt:309-315 | A character goes into the open chunk or, when that is full, into a new one |
| ImeText.Sender.Flush | android/app/src/main/java/com/dhibaid/quava/ui/RemoteControlScreen.kt:276-284 | Sends the chunk unless it is empty |
| ImeText.Sender.SendKeyTap | android/app/src/main/java/com/dhibaid/quava/ui/RemoteControlScreen.kt:261-264 | A key goes down and up |
| ImeText.MeaningStep | android/app/src/main/java/com/dhibaid/quava/ui/RemoteControlScreen.kt:287-317 | The meaning of a text is that of its first code point, or CRLF, then that of the rest |
| ImeText.ChunkAccepted | daemon/libquava/models/inputs.go:47-81 | A chunk passes the daemon's validation exactly when it has no U+2028 or U+2029 |
| ImeText.DaemonAcceptsIff | daemon/libquava/models/inputs.go:47-81 | The daemon accepts every event of a well-formed text exactly when the text has neither |
| ImeText.HalvesFuse | android/app/src/main/java/com/dhibaid/quava/ui/RemoteControlScreen.kt:309-315 | Text that is not well formed: two lone halves around a dropped control character are sent as one code point of four bytes, counted as two |
| ImeText.MeaningOfEach | android/app/src/main/java/com/dhibaid/quava/ui/RemoteControlScreen.kt:284-316 | What the text means, unit by unit: line feed, carriage return and the two together are one Enter, tab is Tab, a pair is one character, other controls are nothing, everything else is itself |
| ImeText.NoKeyStaysDown | android/app/src/main/java/com/dhibaid/quava/ui/RemoteControlScreen.kt:261-264 | Whatever the text, a keyboard that follows the events has every key up at the end |
| ImeText.TypedAsMeant | android/app/src/main/java/com/dhibaid/quava/ui/RemoteControlScreen.kt:261-320 | For well-formed text that keyboard, which types a key only when it goes down, has typed exactly the meaning of the text |
| ImeText.GreedyChunks | android/app/src/main/java/com/dhibaid/quava/ui/RemoteControlScreen.kt:309-315 | A chunk is followed by another one only because the next character would not have fitted |
| Utf16.EncodeReadsBack | android/app/src/main/java/com/dhibaid/quava/ui/RemoteControlScreen.kt:288-290 | Code points other than lone halves survive UTF-16 encoding and decoding |
| Requests.StepKeepsInvariant | daemon/libquava/session/session.go:394-444 | Every step of a requester or of the reader keeps the bookkeeping of messages, channels and registrations |
| Requests.RunKeepsInvariant | daemon/libquava/session/session.go:394-444 | So does every interleaving |
| Requests.ReplyIsOwn | daemon/libquava/session/session.go:394-425 | A request returns only a message with its own transaction, and the first such one |
| Requests.OnePlaceEach | daemon/libquava/session/session.go:427-444 | No message reaches two requests, or a request and the queue |
| Requests.FirstReplyArrives | daemon/libquava/session/session.go:341-379 | The first reply that the reader found a request for lands in its channel, never in the event queue |
| Requests.FirstReplyReachesRequest | daemon/libquava/session/session.go:341-379 | Said of the events alone: if a request is registered when a message with its transaction is looked up, and no earlier such message was looked up since, the message goes into that request's channel and stays until it is taken |
| Requests.ElsewhereOnlyIfAnswered | daemon/libquava/session/session.go:427-444 | A message goes to the queue, or is dropped, only if no request was registered for it when it was looked up, or an earlier message had answered each |
| Requests.DeliveredWasRegistered | daemon/libquava/session/session.go:427-444 | And into a channel only if that request was registered for its transaction at its lookup |
| Requests.ResultIffReceived | daemon/libquava/session/session.go:394-425 | A request returns a message exactly when it received one |
| Requests.ReaderNeverStuck | daemon/libquava/session/session.go:341-379 | In every reachable state the reader has a step to take |
| DnsNames.DecodeDNSName | daemon/libquava/discovery/packet.go:118-177 | The loop returns the labels of the recursive reading (section 4.1.4 of RFC 1035) and the offset after the name, or fails exactly where that does; `CompressedRoundTrip` says what that reading is of written names |
| DnsNames.HaltsIff | daemon/libquava/discovery/packet.go:118-177 | The decoder ends on a name exactly when it ends within one reading more than the buffer has bytes |
| DnsNames.LoopsIffReadsTwice | daemon/libquava/discovery/packet.go:118-177 | The decoder loops exactly when its walk reads some place of the buffer twice |
| DnsNames.PlacesRead | daemon/libquava/discovery/packet.go:118-177 | A walk that ends has read at as many different places as it made steps |
| DnsNames.BackwardPointersHalt | daemon/libquava/discovery/packet.go:138-152 | It ends whenever every pointer leads below the start of the label run it stands in |
| DnsNames.SelfPointerLoops | daemon/libquava/discovery/packet.go:138-152 | Input for which it never ends: a pointer to itself |
| DnsNames.DecodedIff | daemon/libquava/discovery/packet.go:118-177 | Decoding succeeds exactly when the walk does, and the next offset depends only on the labels before the first pointer |
| DnsNames.NameEnd | daemon/libquava/discovery/packet.go:118-177 | The next offset lies after the start and within the buffer |
| DnsPacket.ParsePacket | daemon/libquava/discovery/packet.go:43-92 | The loops give the sections of the recursive reading, or fail exactly where it does |
| DnsPacket.ParsedHalts | daemon/libquava/discovery/packet.go:43-92 | The parser ends on every message that has a parse |
| DnsPacket.CountsFit | daemon/libquava/discovery/packet.go:43-92 | A successful parse has 5 bytes for each question and 11 for each record after the header, and as many as the header says |
| DnsPacket.ParseQuestionAt | daemon/libquava/discovery/packet.go:179-193 | One question |
| DnsPacket.ParseRecordAt | daemon/libquava/discovery/packet.go:195-216 | One resource record, with the place of its data |
| DnsPacket.EncodeDNSName | daemon/libquava/discovery/packet.go:95-115 | The loop writes length and bytes of each label and a root; it panics above 63 bytes |
| DnsPacket.NameRoundTrip | daemon/libquava/discovery/packet.go:95-177 | Decoding undoes encoding at any offset inside any surrounding bytes |
| DnsPacket.QuestionRoundTrip | daemon/libquava/discovery/packet.go:179-227 | So for questions |
| DnsPacket.QuestionsRoundTrip | daemon/libquava/discovery/packet.go:179-227 | And for lists of them |
| DnsPacket.HeaderRoundTrip | daemon/libquava/discovery/packet.go:13-40 | Parsing undoes encoding of a header, whatever follows |
| DnsPacket.QueryRoundTrip | daemon/libquava/discovery/packet.go:29-92 | Parsing an encoded header and questions gives back the header and exactly that list |
| DnsPacket.PointerIsRead | daemon/libquava/discovery/packet.go:138-152 | A pointer is two bytes: the top bits, then the target, high part first |
| DnsPacket.CompressedRoundTrip | daemon/libquava/discovery/packet.go:118-177 | Labels and a pointer, in any surroundings, decode to those labels followed by the name at the target; reading goes on after the pointer |
| DnsPacket.CompressedAgainstEarlier | daemon/libquava/discovery/packet.go:118-177 | In particular when the target is a name written earlier in the message |
| DnsPacket.HeaderPlaces | daemon/libquava/discovery/packet.go:13-40 | The six header fields stand where section 4.1.1 of RFC 1035 has them, high bytes first |
| DnsPacket.QuestionBytes | daemon/libquava/discovery/packet.go:218-227 | A question about a name of one label, byte for byte |
| DnsRecords.RecordRoundTrip | daemon/libquava/discovery/packet.go:195-216 | A record laid out as in section 4.1.3 of RFC 1035, in any surroundings, is read back field for field, with the place of its data |
| DnsRecords.SectionRoundTrip | daemon/libquava/discovery/packet.go:195-216 | So a list of records |
| DnsRecords.MessageRoundTrip | daemon/libquava/discovery/packet.go:43-92 | A whole message is read back: header, questions, answers and additional records; the authority records are read past |
| Collector.RecordCollector.AddDevice | daemon/libquava/discovery/client.go:272-296 | A device is entered when new, or when it brings the address the known one lacks; otherwise the known one stays |
| Collector.RecordCollector.IngestAddress | daemon/libquava/discovery/client.go:167-184 | An A record updates the devices of its host, in whatever order the map yields them |
| Collector.RecordCollector.IngestPointer | daemon/libquava/discovery/client.go:186-197 | A PTR record of the service lists its instance if the SRV is known |
| Collector.RecordCollector.IngestService | daemon/libquava/discovery/client.go:199-210 | An SRV record of the service lists its instance if the PTR is known |
| Collector.RecordCollector.IngestText | daemon/libquava/discovery/client.go:212-226 | A TXT record sets the ID of every device whose key has its name as prefix |
| Collector.RecordCollector.Ingest | daemon/libquava/discovery/client.go:157-231 | The records of a packet act one after another, and every device that is new or different afterwards is reported |
| Collector.RunAppend | daemon/libquava/discovery/client.go:157-231 | How records are grouped into packets makes no difference |
| CollectedDevices.ClosedForm | daemon/libquava/discovery/client.go:134-231 | The devices listed are exactly the joins of the records seen: PTR and SRV present, address and ID those of the A and TXT records or empty |
| CollectedDevices.StepKeeps | daemon/libquava/discovery/client.go:157-231 | Each record keeps the device map equal to the join of the other tables |
| CollectedDevices.OrderIrrelevant | daemon/libquava/discovery/client.go:157-231 | Order, repetition and grouping make no difference, given one SRV and ID per instance, bar-free names, and one address for each host of a listed instance |
| CollectedDevices.IndependentIff | daemon/libquava/discovery/client.go:157-296 | For records consistent in everything but addresses, the devices listed do not depend on the order of the records exactly when no host of a listed instance has two addresses |
| CollectedDevices.KeyInjective | daemon/libquava/discovery/client.go:283 | A key determines name, host and port when names are free of the bar |
| CollectedDevices.KeyPrefix | daemon/libquava/discovery/client.go:221 | The prefix match of a TXT record is equality of names |
| CollectedDevices.AddressOrderMatters | daemon/libquava/discovery/client.go:284-292 | For any records with two addresses for the host of an instance with PTR and SRV, two orders of them, both from an empty collector, list different devices |
| CollectedDevices.StepSticks | daemon/libquava/discovery/client.go:284-292 | A device that has an address keeps it under every record |
| CollectedDevices.EarlyAddressOverwritten | daemon/libquava/discovery/client.go:173 | Addresses that come before PTR and SRV overwrite each other: the last one is listed |
| DaemonModel.StepKeepsInvariant | daemon/quavad/daemon_lifecycle.go:97-122 | Every lock section keeps: sessions match live workers, connections match phases, input flags match the owner |
| DaemonModel.RunKeepsInvariant | daemon/quavad/daemon_lifecycle.go:183-310 | So does every interleaving of workers and requests |
| DaemonModel.OneSessionPerPeer | daemon/quavad/daemon_lifecycle.go:97-122 | At most one session worker lives per peer, and it lives exactly while the peer is in the table |
| DaemonModel.OneInputOwner | daemon/quavad/daemon_lifecycle.go:377-461 | Input is enabled for the owner and no one else, and the owner is paired and has a live connection |
| DaemonModel.UnpairedIsCancelled | daemon/quavad/daemon_lifecycle.go:461-485 | In every reachable state, every live session worker of a phone that is not paired has been cancelled |
| DaemonHistory.PairedIff | daemon/quavad/daemon_lifecycle.go:461-485 | Told by the events alone: a phone is in the trust store exactly if it was paired and not forgotten since |
| DaemonHistory.AllowedIff | daemon/quavad/daemon_lifecycle.go:436-457 | A phone is always allowed exactly if that was chosen while it was paired, and neither the choice nor the pairing was taken back since |
| DaemonHistory.SessionIff | daemon/quavad/daemon_lifecycle.go:97-122 | A worker has the session of a phone exactly if it was started while the phone was paired and had none, and has not been cleared |
| DaemonHistory.ConnectedIff | daemon/quavad/daemon_lifecycle.go:266-304 | The table shows a connection exactly if it is the last one of the phone and was neither lost nor cleared |
| DaemonHistory.OwnerIff | daemon/quavad/daemon_lifecycle.go:266-457 | A phone owns input exactly if the history gives it: enabled, or always allowed from then on, while paired and connected, or connected while always allowed; at a time when no other phone owned input, and not taken away since |
| DaemonHistory.OwnerWasAllowed | daemon/quavad/daemon_lifecycle.go:266-457 | So the user has enabled input for the owner or chosen to always allow it, and has not forgotten the phone since |
| DaemonHistory.InputOnConnecting | daemon/quavad/daemon_lifecycle.go:266-281 | A phone that connects while nobody owns input has it at once exactly when it is always allowed |
| DaemonHistory.CancelledIff | daemon/quavad/daemon_lifecycle.go:166-181 | A worker is cancelled exactly if its phone was disconnected or forgotten, or the daemon shut down, while it had the session |
| DaemonLifecycle.Daemon.StartSession | daemon/quavad/daemon_lifecycle.go:97-122 | Refused for unpaired peers and without a local identity, nothing when one is running, else one new worker and entry |
| DaemonLifecycle.Daemon.OnConnect | daemon/quavad/daemon_lifecycle.go:266-281 | The connection is entered; input changes hands only to a phone that is always allowed, and only if it was free; if it was free or its own, such a phone has it |
| DaemonLifecycle.Daemon.OnDisconnect | daemon/quavad/daemon_lifecycle.go:282-304 | The connection is cleared and input released; the emulator is reset exactly if the phone owned input |
| DaemonLifecycle.Daemon.ClearSession | daemon/quavad/daemon_lifecycle.go:377-391 | The entry goes with its worker, and input with it |
| DaemonLifecycle.Daemon.Disconnect | daemon/quavad/daemon_lifecycle.go:166-181 | Cancels the peer's worker, if there is one |
| DaemonLifecycle.Daemon.SetInputEnabled | daemon/quavad/daemon_lifecycle.go:393-431 | Refused unless paired and, to enable, connected with input free or its own; a refusal changes nothing |
| DaemonLifecycle.Daemon.SetInputAuto | daemon/quavad/daemon_lifecycle.go:436-457 | Remembers the choice and, when it was saved and the phone is connected, enables input at once |
| DaemonLifecycle.Daemon.ForgetDevice | daemon/quavad/daemon_lifecycle.go:461-485 | Trust, flags and ownership go at once, the entry when its worker ends |
| DaemonLifecycle.Daemon.Shutdown | daemon/quavad/daemon_lifecycle.go:23-48 | Every worker is cancelled, no one owns input, every flag is off |
| DaemonLifecycle.Daemon.MayApplyInput | daemon/quavad/daemon_lifecycle.go:225-233 | In a reachable state an event is let through exactly if its phone owns input |
| ArtworkCache.ArtworkLRU.Get | daemon/libquava/session/media.go:663-674 | A hit returns the stored data and makes its key the most recent; a miss changes nothing |
| ArtworkCache.ArtworkLRU.Add | daemon/libquava/session/media.go:676-698 | The key becomes the most recent with the new data, and at most five keys stay |
| ArtworkCache.CachedIsRecentHistory | daemon/libquava/session/media.go:643-698 | After every run of calls the cache is the five most recent entries of the full history |
| ArtworkCache.HitIsLastAdded | daemon/libquava/session/media.go:643-698 | A hit returns the data last added under its key; keys are distinct and at most five |
| ArtworkShrink.Compressor.CompressArtwork | daemon/libquava/session/media.go:702-757 | Result and cache afterwards for every branch; nothing above 48 KiB is cached or returned |
| ArtworkShrink.Compressor.Shrink | daemon/libquava/session/media.go:759-794 | The loop ends within nine sizes and returns what the recursive search returns |
| ArtworkShrink.BestIsFirstFit | daemon/libquava/session/media.go:759-794 | The result comes from the first of the falling sizes at which some quality fits |
| ArtworkShrink.LongestAfterEight | daemon/libquava/session/media.go:783-784 | Eight shrinks bring 512 down to the least side |
| ArtworkShrink.EncodedIsBestQuality | daemon/libquava/session/media.go:759-776 | The result at one size is that of the highest of the qualities 75, 60, 45 and 35 that fits 48 KiB, every higher one having come out too big |
| ArtworkShrink.SmallerKeepsShape | daemon/libquava/session/media.go:783-793 | A shrink takes a quarter off each side, not below 64, and the longer side stays the longer |
| ArtworkShrink.BroughtDownKeepsShape | daemon/libquava/session/media.go:741-757 | An image above 512 gets a longest side of exactly 512 and keeps its ratio as closely as whole pixels allow |
| MediaSelection.MPRISService.UpdateActivePlayer | daemon/libquava/media/mpris.go:564-624 | The choice follows the rules (pin, previous while playing, first ready, previous, first controllable, first); exactly it is marked active |
| MediaSelection.MPRISService.SetActivePlayer | daemon/libquava/media/mpris.go:341-361 | Pins an existing player; otherwise nothing changes |
| MediaSelection.MPRISService.UseAutomaticPlayer | daemon/libquava/media/mpris.go:324-339 | Drops the pin and chooses automatically |
| MediaSelection.ChoiceExists | daemon/libquava/media/mpris.go:564-624 | There is an active player exactly when there is a player |
| MediaSelection.IdleMeansAllIdle | daemon/libquava/media/mpris.go:578-617 | An unpinned choice that is not playing means that no controllable player plays |
| MediaSelection.ChoiceUnique | daemon/libquava/media/mpris.go:564-624 | The rules determine the choice |
| MediaSelection.ChoiceStable | daemon/libquava/media/mpris.go:564-624 | A second call changes nothing |
| MediaSelection.ChoiceIsTop | daemon/libquava/media/mpris.go:564-624 | The active player is the one of the highest rank (pinned, still playing, ready, previous, controllable), and of equal ones the first by name |
| MediaSelection.BeforeIff | daemon/libquava/media/mpris.go:590 | The order of names is the usual one: a name comes after its beginnings, otherwise the first difference decides |

## Left out

- TerminalEmulation.TerminalEmulator.Feed: the state after an exception in the middle of an operation is not described, because the program does not go on from it in any defined way; `snapshot` and the SSH bridge that feeds the terminal are left out.
- Framing.Conn.WriteMessage: only completed writes; a write that times out inside a record leaves a torn stream. Payloads are nonempty and shorter than 2^32 bytes, as encoded messages are; CBOR itself is not modelled.
- Framing.Conn.WriteFrame: only completed writes, as for `WriteMessage`.
- Framing.Conn.WriteExact: a write that fails, times out or is cancelled part-way is not described.
- Framing.Conn.ReadFrame: cancellation and read timeouts are not described; CBOR decoding of what was read is a given.
- SecureStreams.SealingOutputStream.Write: the phone's counter is a 64-bit number that is not checked for exhaustion, and writes to the socket complete.
- SecureStreams.SealedInputStream.Read: after an error, only that the reader goes on with the next bytes under the next nonce; what is then delivered need not be a prefix.
- Handshake.HonestHandshake: timeouts, device names and the CBOR encoding of the fields are left out. The pairing protocol is not modelled: its two transcripts carry different version numbers.
- InputWorker.InputWorker.RunInputWorker: decoding of the payload fields is a given; acknowledgements whose sending fails are logged by the program and counted as sent here.
- TokenBucket.NeverAbove: timestamps do not decrease, and arithmetic is exact; rounding of the floating-point tokens is not modelled.
- Requests.ReplyIsOwn: transaction identifiers are fresh, as the random ones are taken to be.
- DnsNames.DecodeDNSName: called only where the decoder ends; on other names the program hangs.
- DnsPacket.ParsePacket: required to reach only names that end; on others the program hangs. Decoding of PTR, SRV, TXT and A payloads is a given of the collector.
- DnsPacket.QueryRoundTrip: labels are nonempty, free of dots and at most 63 bytes; the encoder panics above that length, and its names are not escaped.
- CollectedDevices.IndependentIff: besides one SRV and one ID per instance and bar-free names, `Consistent` asks that an instance name is not the bare service suffix and that a TXT record that matches an instance names it in full.
- DaemonModel.OneInputOwner: errors in saving the trust store after a removal, resets of the emulator, and the SSH service with its allow-list are left out; device IDs are normalised before these methods, in daemon_ipc.go.
- ArtworkShrink.Compressor.CompressArtwork: dimensions are scaled in exact arithmetic, the program uses floating point; image codecs are parameters.
- MediaSelection.MPRISService.UpdateActivePlayer: notifications and the position ticker are left out; bus names are compared as ASCII.
- That no input is applied after it was disabled is not claimed: the enabled check is released before the event is applied.
- D-Bus, uinput, audio routing, clipboard, notifications, the SSH server, the GTK and Compose screens, the command line, logging and timers are left out.
