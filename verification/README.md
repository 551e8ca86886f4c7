# Falkn: attach, switch and notify, verified

Falkn keeps PTY sessions alive in a daemon and lets many clients attach to them, detach from them and
switch between them. This project models the parts of it that make a promise over every run, every way of
cutting a byte stream, or every interleaving, and proves those promises with Dafny 4.11.
`dafny verify dfyconfig.toml` checks all of it.

## What is modelled

| file | part of Falkn |
|---|---|
| `Sequences.dfy` | bytes, sliding windows, substring search |
| `Ring.dfy` | the bounded attach history, in its buffer |
| `Subscriber.dfy`, `LiveSession.dfy` | an attached client's queue, and a session's output side, as the objects the daemon updates |
| `FanOut.dfy` | the same as a protocol: one atomic step per lock section or channel operation, in any interleaving |
| `Base64.dfy`, `Handoff.dfy` | the private OSC handoff command: printing, parsing, stripping from replayed history |
| `HandoffText.dfy` | the same command spelled out |
| `HandoffSegments.dfy`, `HandoffHistories.dfy`, `HandoffSeams.dfy` | how a history is stripped between BELs, exactly which histories lose commands and nothing else, and which results hold a prefix or a command |
| `TerminalStream.dfy` | the terminal token scanner that decides where drawing is safe |
| `Footer.dfy`, `FooterContents.dfy` | the footer line, how it is fitted to the width, and what it can be relied on to say |
| `StatusBar.dfy`, `StatusBarObservers.dfy` | the footer drawn into the child's byte stream, and the windows that recognise split sequences |
| `TerminalScreen.dfy` | what a terminal shows of that drawing: rows, cursor, colours and scrolling region |
| `Keyboard.dfy`, `KeyboardRuns.dfy`, `KeyboardConservation.dfy`, `KeyboardQuoting.dfy` | the attach client's keyboard reader, and what it promises over runs |
| `KeyBindings.dfy` | which key does what, and where the keys that switch sessions lead |
| `Frames.dfy` | the framed connection: the locked writer and the daemon's reader |
| `AttachLink.dfy` | keyboard and frames together: from keys typed to bytes given to the session |
| `Watcher.dfy`, `WatcherDeliveries.dfy` | the notification watcher, and how long it tries to deliver |
| `ScreenHistory.dfy`, `ScreenLoss.dfy` | the alternate-screen journal, and exactly when it loses a line |
| `SessionOrder.dfy` | the switcher's order, stepping, footer numbers, the fallback when a session ends |
| `ProcessTree.dfy` | finding the agent below a session's shell |

Objects the daemon and the client update in place are classes whose methods are proved against a function of
the state before (or, for loops, of the input); the promises are then proved about those functions over all
runs. Where the function is a pure automaton (`Keyboard.Read`, `TerminalStream.Consumed`, `Watcher.Turn`,
`ScreenHistory.Captured`) it is the specification, and the class with its buffers and loops is the code.

## Findings

Properties one might expect, or that a comment in the code states, that do not hold. Each has a lemma with an
input and, where it can be stated, the exact condition.

- The comment on `stripAttachHandoffs` says malformed control strings are preserved byte for byte. The loop
  takes from the *first* prefix to the BEL while the parser it asks reads from the *last* prefix, so a stray
  prefix takes everything up to the next command with it (`Handoff.StrayPrefixSwallowsText`). Commands and
  nothing else are removed exactly when no prefix is followed, before any BEL, by the prefix of a command
  (`HandoffHistories.OnlyCommandsAreCutIff`).
- Removing a command can join the halves of another (`Handoff.StrippingCanFormACommand`). What is left of output
  with commands in between holds a prefix exactly when the output on the two sides of some command are the two
  parts of one (`HandoffSeams.StrippedHoldsPrefixIff`), and holds a command, which stripping again would take out,
  exactly when a whole valid command has come about (`HandoffSeams.StrippingAgainIff`).
- The comment in `setMenuLines` says the rows a shrinking switcher gives back are wiped. The loop counts up from
  the switcher's lowest row, while the rows given back are its highest. The rows queued are the rows given back
  exactly when the switcher closes (`StatusBar.QueuedAreGivenBackIff`); one that only gets shorter leaves its old
  top row on the screen (`StatusBar.ShrunkSwitcherLeavesItsTopRow`). The one caller, `repaint`, passes as many
  rows as before or none, so today the switcher only ever shrinks by closing.
- The comment on `claimRowsLocked` says that opening the switcher pushes the session's output up rather than
  covering it. It pushes up by the rows claimed wherever the cursor is, so the line the cursor is on stays with it
  exactly when there are more rows down to it than that; near the top of the screen the prompt scrolls off instead
  (`TerminalScreen.ClaimKeepsCursorLineIff`). And the first row claimed, with the cursor above the last row, covers
  what is on the last row; otherwise nothing is covered (`TerminalScreen.ClaimCoversNothingIff`).
- An ESC sequence with intermediate bytes whose final byte is one that otherwise introduces a CSI sequence or a
  control string leaves the scanner inside one that is not there (`TerminalStream.SimpleEndsIff`), and a control
  string whose payload has a 0x9c byte ends early for the scanner (`TerminalStream.TextEndsIff`).
- A focus report is recognised only if one read holds all of it, so splitting is invisible exactly when no
  report stands where it would be recognised (`KeyboardRuns.SplittingIsInvisibleIff`).
- Doubling the prefix delivers text, in reads of any size, exactly when it holds no focus report; and with ESC as
  the prefix, which is allowed, exactly when it holds no ESC at all (`KeyboardQuoting.QuotingDeliversIff`).
- The comment in `poll` says a prompt already answered cannot emit a stale push. After input the watcher waits four
  seconds and for a screen other than the last one it *recorded*, which need not be the one at the input. So a
  screen that has not changed since the input is never announced exactly when it is the recorded one
  (`Watcher.ScreenAtInputIsSilentIff`); it is announced after a redraw of the recorded episode
  (`Watcher.RedrawnScreenIsAnnounced`) and after input met late (`Watcher.LateInputMeetsAnotherScreen`). Late input
  in a session already waiting forgets even the recorded screen, so there any unchanged screen is announced
  (`Watcher.ScreenAtLateInputIsSilentIff`, `Watcher.LateInputLosesTheScreen`).
- What is on screen when the watcher starts counts as history exactly when the first successful round read the
  session's transcript, or a record saved before the restart says the episode is reported already
  (`Watcher.ScreenAtStartIsHistoryIff`). A first round with nobody registered reads none.
- An attach that found its session running can register after the session's end has closed every client, which
  then does not close this one (`FanOut.AttachAfterClose`). All clients stay closed exactly when no attach step
  follows (`FanOut.ClosedForGoodIff`).
- The screen journal can lose one of two equal lines (`ScreenHistory.RepeatedLineIsLost`). Whether it does is a
  matter of a few guards on the text: for one scroll, `ScreenLoss.ShiftIsKeptIff`; for a run of windows over any
  lines, equal and blank ones included, `ScreenLoss.ScrollingIsReconstructedIff`.

## Model

| member | source | states |
|---|---|---|
| `Ring.ByteRing.Write` | internal/session/ring.go:15-30 | after any write the buffer, shifted and cut in place, holds the newest bytes that fit |
| `Ring.ByteRing.Bytes` | internal/session/ring.go:32-36 | the history handed to a client is the ring's content at that moment |
| `Ring.RingHoldsNewest` | internal/session/ring.go:15-36 | after any sequence of writes, whatever their sizes, the ring is the newest `capacity` bytes of all that was written |
| `Subscriber.OutputSubscriber.Enqueue` | internal/session/output_subscriber.go:29-42 | a chunk is queued, counted and signalled exactly when the client is open and the chunk fits its window; otherwise nothing changes |
| `Subscriber.OutputSubscriber.Dequeue` | internal/session/output_subscriber.go:75-85 | the oldest chunk is taken and the byte count is not yet reduced |
| `Subscriber.OutputSubscriber.Close` | internal/session/output_subscriber.go:44-52 | closing changes nothing but the closed mark, and closing again changes nothing |
| `Subscriber.OutputSubscriber.Delivered` | internal/session/output_subscriber.go:87-91 | only the byte count goes down, by the chunk handed over |
| `FanOut.StepKeepsInv` | internal/session/output_subscriber.go:29-91 | every lock section and channel operation keeps the protocol's invariant, whichever client it is for |
| `FanOut.HistoryThenEveryChunk` | internal/session/shell.go:106-116 | in every reachable state a client's received chunks, the one in flight and its queue are a run of the chunks read since it attached: no gap, no repeat, in order; all of them while registered and the lock is free, a prefix once dropped or closed |
| `FanOut.AttachPointIsFixed` | internal/session/shell.go:106-112 | a client's history and starting point never change afterwards, whatever else happens |
| `FanOut.LiveOutputContinuesHistory` | internal/session/manager.go:533-544 | in any run, exit notices and all, a client's history is the newest 2097152 bytes written before its attach step and its live output is the first of the chunks read after it |
| `FanOut.HistoryIsOutputIff` | internal/session/manager.go:556-559 | what was written before an attach is PTY output and nothing else exactly when no exit notice with text came before it |
| `FanOut.NoticeCutsIn` | internal/session/manager.go:556-559 | an exit notice takes no lock, so it can be written in the middle of an output section |
| `FanOut.AttachedClientsIsExact` | internal/session/shell.go:164-170 | outside an output section the published client count is the number of registered clients, and a client is registered exactly while it is open |
| `FanOut.DetachAfterDropIsNoOp` | internal/session/shell.go:118-131 | detaching a client already dropped or closed changes nothing, so it is never counted twice |
| `FanOut.DroppedIffBehind` | internal/session/output_subscriber.go:32-34 | a client is dropped exactly when what it has not been given and accounted for, plus the chunk, exceeds 2097152 bytes |
| `FanOut.QueueIsAccountedFor` | internal/session/output_subscriber.go:54-91 | the byte count is the queued bytes plus the outstanding chunk and stays within the limit; a non-empty open queue has its wake token set or a runner on the way |
| `FanOut.Drains` | internal/session/output_subscriber.go:54-73 | a delivery goroutine whose client keeps receiving hands over everything queued, by its own moves alone |
| `FanOut.ClosedReturns` | internal/session/output_subscriber.go:54-73 | the goroutine of a closed client can return by its own moves, whether anybody receives or not |
| `FanOut.IdleRests` | internal/session/output_subscriber.go:68-72 | with nothing queued a stale wake token is used up and the goroutine rests |
| `FanOut.EveryChunkDeliverable` | internal/session/output_subscriber.go:54-73 | in every reachable state a registered client can still be given every chunk read since it attached, less the one an output section has still to offer it; with the lock free, all of them |
| `FanOut.ClosingEmpties` | internal/session/shell.go:149-159 | when the session's end has run no client is registered |
| `FanOut.ClosedForGoodIff` | internal/session/shell.go:95-116 | once the session's end has closed every client, none is registered ever after exactly when no attach step follows |
| `FanOut.EmptyIffAllClosed` | internal/session/shell.go:149-159 | no client is registered exactly when every client there has been is closed |
| `FanOut.AttachAfterClose` | internal/session/shell.go:95-116 | an attach after the close is possible and leaves its client registered |
| `FanOut.DetachIsForGood` | internal/session/shell.go:118-131 | detaching takes off exactly that client, closes its queue, and nothing that comes after registers it again |
| `FanOut.SuppressedIff` | internal/session/shell.go:161-170 | over any run, the count older watchers go by is positive exactly while a client is attached or the last request was to mute |
| `LiveSession.Session.constructor` | internal/session/shell.go:56-73 | a new session has recorded nothing, has no clients and keeps 2 MiB of output |
| `LiveSession.Session.HandleOutput` | internal/session/manager.go:533-550 | the locked section records the chunk, gives it to exactly the clients it fits, drops and closes the others, and keeps the counts right |
| `LiveSession.Session.Attach` | internal/session/shell.go:106-116 | a client is given the session's whole output so far, or its newest 2097152 bytes once there is more; it is registered under a fresh id with an empty queue, and the count goes up by one |
| `LiveSession.Session.Detach` | internal/session/shell.go:119-131 | exactly the given client is removed and closed; with none to remove the count stays |
| `LiveSession.Session.CloseSubscribers` | internal/session/shell.go:149-159 | every client is removed and closed and the count is zero |
| `LiveSession.Session.UpdateNotificationSuppression` | internal/session/shell.go:164-170 | the published count is the registered clients; the compatibility count is at least one while muted |
| `LiveSession.Session.SetNotificationsMuted` | internal/session/manager.go:482-488 | muting keeps both counts right |
| `LiveSession.OutputSectionRefines` | internal/session/manager.go:533-550 | with no other step in between, in whatever order the section's own steps walk the clients, it leaves exactly the fanned-out queues |
| `LiveSession.EachTurnDecides` | internal/session/manager.go:537-544 | with deliveries and exit notices in between, every client registered at the start has its turn, and is fed and kept exactly when its queue at that moment takes the chunk |
| `Base64.RoundTrip` | internal/server/attach_handoff.go:38-58 | unpadded base64url decodes to what was encoded, for every length |
| `Base64.SymbolIsInAlphabet` | internal/server/attach_handoff.go:38 | the symbols are those of table 2 of RFC 4648, in its order |
| `Base64.ValueIff` | internal/server/attach_handoff.go:54 | the decoder takes a byte for a value exactly if it is that value's symbol |
| `Base64.BitsAreKept` | internal/server/attach_handoff.go:38 | read as numbers, three bytes are four values, and one or two are filled up with zero bits |
| `Base64.LineBreaksDoNotMatter` | internal/server/attach_handoff.go:54 | the decoder passes over line breaks wherever they are |
| `Handoff.ParseUndoesPrint` | internal/server/attach_handoff.go:34-64 | a printed command is read back, with any bytes before and any after that hold no further prefix |
| `Handoff.WriteAttachHandoff` | internal/server/attach_handoff.go:34-41 | a command is printed exactly for a valid ID, and takes at most 362 bytes |
| `HandoffText.ValidIDIff` | internal/server/attach_handoff.go:110-125 | an ID is valid exactly if it is falkn- and one to 250 more letters, digits, hyphens, underscores or periods |
| `HandoffText.CommandForFalknA` | internal/server/attach_handoff.go:11-41 | the command for one session, byte for byte |
| `Handoff.StripAttachHandoffs` | internal/server/attach_handoff.go:74-108 | the loop over cursors computes `Stripped` on every input |
| `Handoff.StrippingIsExact` | internal/server/attach_handoff.go:74-108 | a history of output with printed commands in between is replayed as exactly that output |
| `Handoff.StrippingCutsCommands` | internal/server/attach_handoff.go:74-108 | on any input, what is removed is separate pieces that begin with the prefix, end at the first BEL and parse; all other bytes stay in order |
| `Handoff.CutIsOneCommand` | internal/server/attach_handoff.go:81-103 | a removed piece is one command alone exactly when it has no second prefix |
| `Handoff.StrayPrefixSwallowsText` | internal/server/attach_handoff.go:71-103 | a stray prefix loses all text up to the end of the next command |
| `HandoffHistories.OnlyCommandsAreCutIff` | internal/server/attach_handoff.go:74-108 | on any history, what is removed is single commands and nothing else exactly when no prefix is followed, before any BEL, by the prefix of a command |
| `HandoffSeams.StrippedHoldsPrefixIff` | internal/server/attach_handoff.go:97-107 | what is left of output with commands in between holds a prefix exactly when the output before some command ends with part of one and the output after it starts with the rest |
| `HandoffSeams.StrippingChangesNothingIff` | internal/server/attach_handoff.go:74-108 | any history at all is left alone exactly when it holds no command |
| `HandoffSeams.StrippingAgainIff` | internal/server/attach_handoff.go:66-108 | what is left of output with commands in between is free of commands, and stays the same when stripped again, exactly when no whole command has come about; one comes about only at a seam |
| `HandoffSeams.StrippingOnceIsEnough` | internal/server/attach_handoff.go:66-108 | without such a seam the result has no command in it and stripping it again changes nothing |
| `Handoff.StrippingCanFormACommand` | internal/server/attach_handoff.go:97-107 | removing a command can join the halves of another |
| `TerminalStream.TerminalStreamState.Consume` | internal/server/status_bar.go:356-416 | the scanner's fields after a write are those of the byte automaton |
| `TerminalStream.TerminalStreamState.ConsumeToken` | internal/server/status_bar.go:368-414 | one byte outside a character moves the scanner as the automaton does |
| `TerminalStream.TerminalStreamState.ConsumeGround` | internal/server/status_bar.go:418-438 | likewise on the ground, where eight-bit introducers and characters begin |
| `TerminalStream.WritesDoNotMatter` | internal/server/status_bar.go:356-416 | how the stream is cut into writes makes no difference to the scanner |
| `TerminalStream.SimpleEndsIff` | internal/server/status_bar.go:369-383 | an ESC sequence ends where its final byte is exactly unless a final after intermediates introduces a string |
| `TerminalStream.TextEndsIff` | internal/server/status_bar.go:390-414 | a control string ends at its terminator exactly when its payload has no terminating byte |
| `TerminalStream.StringEndsAtFirstTerminator` | internal/server/status_bar.go:390-414 | whatever bytes a control string holds, escapes among them, the scanner leaves it at its first terminator and not before |
| `TerminalStream.EscapeAbandonsSequence` | internal/server/status_bar.go:384-389 | a CSI sequence cut short by an escape is given up, and what begins there is recognised as if alone |
| `TerminalStream.CutCharacterIsAbandoned` | internal/server/status_bar.go:356-366 | so is a character cut short by a byte that cannot continue it |
| `TerminalStream.SequenceEndsAtFirstFinal` | internal/server/status_bar.go:384-389 | a CSI sequence ends with its first final byte, whatever else but an escape is in it |
| `TerminalStream.LeadByteIff` | internal/server/status_bar.go:427-437 | the scanner waits for more after a byte exactly if a character of several bytes can begin with it |
| `TerminalStream.SafeExactlyBetweenTokensInWrites` | internal/server/status_bar.go:352-438 | over characters, CSI and ESC sequences and control strings, cut into writes anywhere, it is safe to draw exactly between tokens |
| `Footer.StatusBarLine` | internal/server/status_bar_content.go:189-229 | the greedy loops return the one footer line, which fills the row |
| `Footer.WithReminder` | internal/server/status_bar_content.go:206-218 | the nested loops find a fit exactly when one exists, and then the best one |
| `Footer.WithoutReminder` | internal/server/status_bar_content.go:219-224 | without a reminder, the fewest segments are dropped, if dropping can make room at all |
| `Footer.RenderedWidth` | internal/server/status_bar_content.go:231-254 | the width measured is the number of runes the styled segments show |
| `Footer.PaddedIsFull` | internal/server/status_bar_content.go:256-266 | padding fills the width exactly, with a gap or a rule |
| `Footer.TruncateRunes` | internal/server/status_bar_content.go:286-298 | truncation leaves at most the maximum, ellipsis included |
| `Footer.FooterChoiceIsUnique` | internal/server/status_bar_content.go:202-218 | the choice drops the fewest segments for which some form of the reminder fits, then takes the longest such form |
| `Footer.FooterLineIsUnique` | internal/server/status_bar_content.go:189-229 | for every width and content there is exactly one line meeting that choice |
| `Footer.FooterFillsTheRow` | internal/server/status_bar_content.go:189-266 | the line shows exactly max(columns-1, 1) runes, prefix held or not |
| `Footer.HintWidth` | internal/server/status_bar_content.go:81-87 | holding the prefix restyles the reminder without changing what it shows |
| `Footer.FooterIsDrawable` | internal/server/status_bar_content.go:136-298 | no title, agent name or truncation puts a control character into the line, whatever the prefix's name is as long as it has none |
| `FooterContents.AttentionIsShownIff` | internal/server/status_bar_content.go:129-174 | the footer tells how many other sessions need input, or else have failed, or else run, exactly when there is room for that alone, whatever else there is to say |
| `FooterContents.MutedIsShown` | internal/server/status_bar_content.go:157-159 | the muted sign outlives everything that can be dropped |
| `FooterContents.LeastUsefulGoesFirst` | internal/server/status_bar_content.go:136-155 | a narrow footer loses the watchers first, then the title, then the agent, and full access last |
| `FooterContents.ReminderSaysNumber` | internal/server/status_bar_content.go:58-87 | in every form, held or not, the reminder says the prefix and, if there are several sessions, this one's number; only its shortest form while the switcher is open |
| `FooterContents.ReminderIsShown` | internal/server/status_bar_content.go:202-218 | as soon as the shortest reminder fits beside what is kept, with a space, a rule and a space, the footer ends with a reminder |
| `FooterContents.EverythingIsShown` | internal/server/status_bar_content.go:202-218 | with room for everything all segments are there, and the reminder in its longest form |
| `FooterContents.LabelIsItsWords` | internal/server/status_bar_content.go:268-280 | a label is its words without control characters, one space between them, or a stand-in |
| `FooterContents.TrimmedIs` | internal/server/status_bar_content.go:180-185 | trimming a mode's name takes off the blanks at both ends, all of them and nothing else |
| `FooterContents.BlanksIff` | internal/server/status_bar_content.go:274 | blanks are the characters with Unicode's White_Space property |
| `FooterContents.ControlsIff` | internal/server/status_bar_content.go:269-273 | controls are the sets C0 and C1 and delete |
| `StatusBar.TerminalFollowsChild` | internal/server/status_bar.go:99-123 | with local drawing interleaved, the terminal's scanner is always where the child's bytes alone would have left it |
| `StatusBar.DrawnBetweenChildTokens` | internal/server/status_bar.go:99-123 | every local piece sits exactly between two of the child's tokens |
| `StatusBar.AttachStatusBar.Write` | internal/server/status_bar.go:103-123 | the child's bytes go through unchanged, a reset marks the layout, a completed handoff is recorded, and otherwise exactly what is due is drawn after them |
| `StatusBar.AttachStatusBar.Render` | internal/server/status_bar.go:215-254 | nothing is written while closed, inside a token or with nothing to draw; otherwise the released rows are wiped and one frame is drawn, whole |
| `StatusBar.FrameDrawsReservedRows` | internal/server/status_bar.go:230-245 | a frame places the cursor on each reserved row once, top to bottom, and on no row of the child's |
| `TerminalScreen.FrameIsShown` | internal/server/status_bar.go:227-254 | on a terminal, a frame leaves the child's rows, cursor and colours alone, shows the switcher's lines and the footer below, and sets the scrolling region to the child's rows when that is due and two or more are left |
| `TerminalScreen.RegionIsRight` | internal/server/status_bar.go:215-254 | whenever a layout has been drawn the scrolling region is exactly the rows the bar does not occupy |
| `TerminalScreen.LayoutOkIsKept` | internal/server/status_bar.go:74-155 | every operation keeps what that rests on: rows are queued, or still to be claimed, only while the region is to be set anew |
| `TerminalScreen.ResetIsRepaired` | internal/server/status_bar.go:289-296 | after a sequence that undoes the layout the bar is due, and drawing it restores region and footer, whatever is on the screen |
| `TerminalScreen.ClearIsShown` | internal/server/status_bar.go:284-287 | a wipe blanks one row and gives the region the whole screen; cursor and colours stay |
| `TerminalScreen.ClearsAreShown` | internal/server/status_bar.go:220-224 | wiping the queued rows blanks exactly those |
| `TerminalScreen.ClaimIsShown` | internal/server/status_bar.go:260-282 | claiming pushes the child's rows up by the rows claimed, less one if the first finds the last row free, and takes the cursor along |
| `TerminalScreen.ClaimKeepsCursorLineIff` | internal/server/status_bar.go:260-282 | the cursor never ends up on a claimed row; its line stays with it exactly when there are more rows down to it than it is pushed up |
| `TerminalScreen.ClaimCoversNothingIff` | internal/server/status_bar.go:260-282 | nothing is covered exactly unless the first claim finds the cursor above the last row |
| `TerminalScreen.ResizedIsDue` | internal/server/status_bar.go:138-155 | a new size is to be drawn at once, the old footer row wiped, and rows are reserved exactly on 40 columns and 4 rows or more |
| `TerminalScreen.ResizedFooterFits` | internal/server/status_bar.go:138-155 | the footer is then on the new last row, in every column but the last |
| `TerminalScreen.TooSmallReleases` | internal/server/status_bar.go:138-155 | too small a terminal releases every row; grown back, the footer's row is claimed anew |
| `TerminalScreen.SwitcherIsReplaced` | internal/server/status_bar.go:74-93 | the switcher's rows are those given last, drawn at once, and rows are given back only if there are fewer |
| `TerminalScreen.SwitcherIsShown` | internal/server/status_bar.go:74-93 | and they are then on the screen, right above the footer |
| `TerminalScreen.RedrawTouchesNothing` | internal/server/status_bar.go:131-136 | a plain redraw leaves the child's rows, cursor, colours and scrolling region as they are |
| `TerminalScreen.ClosingWipes` | internal/server/status_bar.go:188-213 | closing wipes the rows the bar occupies, and no other |
| `TerminalScreen.DrawnOnce` | internal/server/status_bar.go:215-254 | what has been drawn is not drawn again until something changes |
| `TerminalScreen.UTF8IsReadBack` | internal/server/status_bar.go:245 | every character drawn is read back as itself |
| `TerminalScreen.SequenceIsWritten` | internal/server/status_bar.go:227-287 | control sequences are written as ESC, a bracket, parameters and final byte |
| `TerminalScreen.ClearIsWritten` | internal/server/status_bar.go:284-287 | a wipe, byte for byte |
| `TerminalScreen.StyleIsRead` | internal/server/status_bar_content.go:14-21 | the styles as numbers: plain first, a colour of the 256, bold when input is needed, reversed while the prefix is held |
| `StatusBar.SoundIsRecognised` | internal/server/status_bar.go:233-286 | every frame and every wipe is a sequence of whole terminal tokens |
| `StatusBar.AttachStatusBar.Redraw` | internal/server/status_bar.go:131-136 | a forced redraw happens at once, or as soon as the child's token ends |
| `StatusBar.AttachStatusBar.Resize` | internal/server/status_bar.go:138-155 | the old footer row is wiped, and too small a terminal releases every row |
| `StatusBar.AttachStatusBar.SetMenuLines` | internal/server/status_bar.go:74-93 | a changed switcher is redrawn, after wiping the rows the loop has queued |
| `StatusBar.GivenBackRowsAreWipedIff` | internal/server/status_bar.go:80-88 | a shrinking switcher has every row it gives back wiped exactly when the topmost ones, which the loop misses unless it closes, are queued already |
| `StatusBar.QueuedAreGivenBackIff` | internal/server/status_bar.go:80-88 | with nothing queued, the rows queued are the rows given back exactly when the switcher closes |
| `StatusBar.ShrunkSwitcherLeavesItsTopRow` | internal/server/status_bar.go:80-88 | one that only gets shorter leaves its old top row and wipes its own lowest |
| `StatusBar.AttachStatusBar.UpdateSessions` | internal/server/status_bar.go:173-186 | the footer says what the listed records say, keeps the bar's own prefix and feature marks, and is drawn only if that changed it |
| `StatusBar.AttachStatusBar.UpdateContent` | internal/server/status_bar.go:157-166 | unchanged content draws nothing; changed content is drawn once |
| `StatusBar.AttachStatusBar.SetPrefixName` | internal/server/status_bar.go:478-482 | only the prefix's name changes, and nothing is drawn |
| `StatusBar.AttachStatusBar.RequestHandoff` | internal/server/status_bar.go:452-460 | the first request is recorded and no later one replaces it |
| `StatusBar.AttachStatusBar.Close` | internal/server/status_bar.go:188-213 | the rows released and the rows occupied are wiped, bottom up, unless the child stopped inside a sequence; the child's bytes stay whole |
| `StatusBar.AttachStatusBar.ObserveLayout` | internal/server/status_bar.go:289-300 | the layout window is the newest 32 bytes after every write, and a reset in window and write marks the layout |
| `StatusBar.AttachStatusBar.ObserveHandoff` | internal/server/status_bar.go:302-316 | until a handoff is recorded its window is the newest 512 bytes after every write |
| `StatusBar.WindowHoldsCompleted` | internal/server/status_bar.go:289-316 | a window of the newest bytes with the next write holds every occurrence that write completes |
| `StatusBar.NoResetMissed` | internal/server/status_bar.go:289-333 | a sequence that undoes the scrolling region is seen by the write that completes it, however it is cut |
| `StatusBar.SplitHandoffIsRead` | internal/server/status_bar.go:302-316 | a handoff cut over any number of writes is read, with its ID, by the write that completes it |
| `StatusBarObservers.UndoneIff` | internal/server/status_bar.go:289-333 | a write is seen to undo the layout exactly if one of the sequences that do is in it and the 32 bytes before |
| `StatusBarObservers.CompletedHandoffIsRequested` | internal/server/status_bar.go:302-316 | the write that completes a command, followed by no other, asks for its session, unless one was asked for before |
| `StatusBarObservers.NoHandoffNoRequest` | internal/server/status_bar.go:302-316 | output without a command in sight asks for nothing |
| `Keyboard.AttachInputReader.Consume` | internal/server/attach_input.go:128-153 | with its buffer and its flushes, a read does just what the bufferless automaton does, and sends frames at most three bytes longer than the read |
| `Keyboard.AttachInputReader.ConsumeByte` | internal/server/attach_input.go:155-179 | a key byte moves the prefix state as the automaton does, buffering what goes to the session |
| `Keyboard.AttachInputReader.ConsumeArmed` | internal/server/attach_input.go:181-226 | each action comes after every byte typed before it was framed |
| `Keyboard.AttachInputReader.ConsumeSequence` | internal/server/attach_input.go:228-255 | likewise for arrow keys, and an unclaimed sequence is handed back whole |
| `Keyboard.AttachInputReader.Flush` | internal/server/attach_input.go:257-264 | flushing empties the buffer into one frame and changes nothing the session can tell |
| `Keyboard.AttachInputReader.ResolveMenuEscape` | internal/server/attach_input.go:101-110 | an expired escape closes the switcher, and only then |
| `Keyboard.AttachInputReader.ConsumeMenuByte` | internal/server/attach_input.go:306-345 | the open switcher's own key parser, with the lone escape handed on |
| `Keyboard.ReadPending` | internal/server/attach_input.go:128-264 | bytes sent plus bytes held never exceed bytes read plus bytes held before |
| `Keyboard.FramesWithinRead` | internal/server/attach_input.go:257-264 | no frame can be longer than the read that produced it by more than three bytes |
| `KeyboardRuns.SplittingIsInvisibleIff` | internal/server/attach_input.go:128-153 | every cut of the same bytes into reads gives the same trace of bytes and actions, exactly when no focus report stands where it would be recognised |
| `KeyboardRuns.SplittingPlainText` | internal/server/attach_input.go:128-264 | two cuts of text without focus reports cannot be told apart |
| `KeyboardRuns.SwitcherOwnsTheKeyboard` | internal/server/attach_input.go:97-110 | over any reads and escape timeouts, a byte reaches the session and an action fires only while the switcher is closed; while it is open no prefixed key is half read |
| `KeyboardRuns.OnlyALoneEscapeLetsAByteThrough` | internal/server/attach_input.go:306-328 | a byte read while the switcher is open goes past it exactly when it shows that a held escape stood alone |
| `KeyboardConservation.UnclaimedKeysAreKept` | internal/server/attach_input.go:155-255 | keys that fire nothing are not lost, changed or reordered: session bytes and held bytes are all that was typed, a doubled prefix counting once |
| `KeyboardRuns.QuotingWorksIff` | internal/server/attach_input.go:181-226 | fed a byte at a time, doubling the prefix delivers every byte string exactly when the prefix is not ESC |
| `KeyboardQuoting.QuotingDeliversIff` | internal/server/attach_input.go:128-226 | in all reads, doubling the prefix delivers a text exactly when it has no focus report in it, or, with ESC as the prefix, no ESC |
| `KeyboardQuoting.SinglesAreFeed` | internal/server/attach_input.go:137-145 | read a byte at a time, no focus report is ever recognised |
| `KeyboardRuns.QuotedTextIsDelivered` | internal/server/attach_input.go:128-226 | text without focus reports, quoted and cut anywhere, reaches the session unchanged and fires nothing |
| `KeyBindings.KeyActsIff` | internal/server/attach_input.go:181-255 | a prefixed key does just this exactly if it is bound to it: q detaches, m mutes or unmutes, n opens a session, a digit selects, right goes forward, left back, up and down open the switcher |
| `KeyBindings.BoundKeyActs` | internal/server/attach_input.go:128-255 | it does so in reads cut anywhere, with any prefix, and leaves the reader as the action says |
| `KeyBindings.MenuKeyActsIff` | internal/server/attach_input.go:302-345 | the same for the open switcher's keys; any other key does nothing at all |
| `KeyBindings.SwitcherSelects` | internal/server/attach_menu.go:46-86 | after any run: the switcher opens on the attached session, moving goes around, a number picks and closes |
| `KeyBindings.SwitcherAgreesWithKeys` | internal/server/attach_menu.go:224-235 | a number picks the same session in the switcher as without it; so do one move and choosing |
| `KeyBindings.RightArrowVisitsEach` | internal/server/attach_input.go:228-243 | typing prefix and right arrow over and over visits every running session once and comes back |
| `KeyBindings.ArrowsFollowAge` | internal/server/attach_input.go:269-300 | right leads to the next newer session and left to the next older, around the ends |
| `KeyBindings.FooterNumberLeadsBack` | internal/server/status_bar_content.go:89-100 | typing the prefix and the number in a session's footer leads to that session |
| `KeyBindings.FocusReportIsRead` | internal/server/attach_input.go:137-145 | a focus report read whole says which way the focus went |
| `KeyBindings.LoneEscapeCloses` | internal/server/attach_input.go:101-110 | the escape key closes the switcher when its time runs out or with the next key, which is then typed as usual |
| `Frames.AttachFrameWriter.WriteFrame` | internal/server/attach_client.go:207-221 | a frame is its kind, its length in 32 bits and its payload |
| `Frames.AttachFrameWriter.WriteResize` | internal/server/attach_client.go:223-228 | a size is one resize frame with both low halves |
| `Frames.AttachFrameWriter.WriteFocus` | internal/server/attach_client.go:230-236 | a focus change is one frame with a flag |
| `Frames.AttachFrameWriter.WriteNotificationsMuted` | internal/server/attach_client.go:238-244 | muting is one frame with a flag |
| `Frames.WireHoldsWholeFrames` | internal/server/attach_client.go:207-221 | however goroutines interleave, the connection holds whole frames and at most part of one more, each goroutine's in its own order |
| `Frames.FrameIsReadBackIff` | internal/server/attach.go:87-100 | a frame is read back as written, and what follows it is left alone, exactly when its payload is within 256 KiB |
| `Frames.ReadAttachFrames` | internal/server/attach.go:87-137 | the reading loop serves the connection as specified, with every error outcome |
| `Frames.ServeFollows` | internal/server/attach.go:87-137 | serving the bytes of frames that fit is serving the frames, then whatever follows |
| `Frames.InterleavedFramesAreServed` | internal/server/attach.go:87-137 | the daemon serves the interleaved frames in the order they were finished |
| `Frames.NothingAfterDetach` | internal/server/attach.go:115-119 | nothing after the first detach is looked at, and nothing before it is lost |
| `Frames.ResizeRoundTrip` | internal/server/attach_client.go:223-228 | both sizes come back modulo 65536 |
| `Frames.WireFormat` | internal/server/attach_client.go:207-228 | on the wire: kind, length with the highest byte first, payload; a size is columns, then rows |
| `Frames.FlagsRoundTrip` | internal/server/attach.go:120-133 | muting and unmuting arrive as such, and focus changes nothing |
| `Frames.EncodingIsUnambiguous` | internal/server/attach_client.go:207-221 | lists of frames that fit and encode alike are the same |
| `AttachLink.KeysArrive` | internal/server/attach.go:102-105 | until an action after which the client may leave, choosing in the switcher included, the daemon writes to the session exactly the reader's session bytes, in order |
| `AttachLink.FramesFit` | internal/server/attach_input.go:59-83 | reads of up to 32 KiB make frames at most three bytes longer, well within the daemon's limit |
| `AttachLink.QuotedTextArrives` | internal/server/attach_input.go:59-83 | quoted text typed in reads of up to 32 KiB is what the session is given |
| `AttachLink.ActionsArrive` | internal/server/attach.go:101-133 | what each action makes the daemon do: mute, resize, end the attachment, or nothing |
| `Watcher.Watch.Poll` | internal/notifications/watcher.go:108-251 | a poll visits the listed sessions, drops the others, and saves or loses the whole result |
| `Watcher.Watch.PollSession` | internal/notifications/watcher.go:135-236 | the branches for one session, with deliveries attempted for exactly the eligible registrations |
| `Watcher.Watch.Deliver` | internal/notifications/watcher.go:205-230 | every eligible registration is tried once, in order; delivered means none of them failed |
| `Watcher.Watch.PollSessions` | internal/notifications/watcher.go:127-237 | the loop over listed sessions, each judged on the records left by those before it |
| `Watcher.Watch.Prune` | internal/notifications/watcher.go:238-243 | exactly the records of unlisted sessions go |
| `Watcher.Watch.Round` | internal/notifications/watcher.go:80-94 | a turn of the loop, and when the baseline ends |
| `Watcher.AnnouncedIff` | internal/notifications/watcher.go:148-203 | the exact condition for a delivery |
| `Watcher.RecordedEpisodeIsSilent` | internal/notifications/watcher.go:168-177 | a recorded episode is not announced again until a poll sees it gone or sees newer input |
| `Watcher.OneAnnouncementPerEpisode` | internal/notifications/watcher.go:127-237 | between two announcements, the first fully delivered, a poll saw the episode end or newer input |
| `Watcher.AnnouncementNeedsFreshScreen` | internal/notifications/watcher.go:155-167 | from waiting for work, an announcement needs a changed screen and four seconds since all input seen, unless meanwhile it was seen quiet, settled or re-armed late |
| `Watcher.UnchangedScreenIsSilentIff` | internal/notifications/watcher.go:155-167 | over any looks at one unchanged screen, a session waiting for work is never announced exactly when that is the screen on record |
| `Watcher.ScreenAtInputIsSilentIff` | internal/notifications/watcher.go:148-167 | the screen there was when a poll saw new input is never announced unchanged exactly when it was the one recorded before |
| `Watcher.ScreenAtLateInputIsSilentIff` | internal/notifications/watcher.go:155-203 | the same for input met late, where a session already waiting has no screen on record |
| `Watcher.AnnouncedAfterInputIff` | internal/notifications/watcher.go:148-203 | the look four seconds after the input, at the same screen, announces exactly when that was not the recorded one |
| `Watcher.AnnouncedAfterLateInputIff` | internal/notifications/watcher.go:155-203 | the same after late input |
| `Watcher.LateInputKeepsFingerprintIff` | internal/notifications/watcher.go:166-203 | late input keeps the recorded screen exactly when the session was not already waiting; that screen may be an older one |
| `Watcher.LateInputLosesTheScreen` | internal/notifications/watcher.go:166-203 | late input while waiting: an unchanged screen is announced |
| `Watcher.LateInputMeetsAnotherScreen` | internal/notifications/watcher.go:193-203 | late input while not waiting: an unchanged screen is announced too |
| `Watcher.RedrawnScreenIsAnnounced` | internal/notifications/watcher.go:148-177 | no late input: a recorded episode, redrawn and then answered, is announced for the unchanged redrawn screen |
| `Watcher.SessionsAreIndependent` | internal/notifications/watcher.go:127-243 | each listed session is judged as if alone, unlisted ones are dropped and never announced |
| `Watcher.UneventfulRunIsSilent` | internal/notifications/watcher.go:127-250 | over rounds of any kind, saved or not, a recorded episode stays recorded and nothing is sent for it |
| `Watcher.ScreenAtStartIsHistoryIff` | internal/notifications/watcher.go:76-94 | what is on screen at the start is never announced exactly when the round that ends the baseline read its transcript or the saved record has it reported already |
| `WatcherDeliveries.FailedPushIsTriedAgain` | internal/notifications/watcher.go:205-236 | while nothing about an announced session changes but the time and the answers, every round tries everybody who may be told, up to and including the first that reaches them all and is saved, and none after it |
| `WatcherDeliveries.RecordedIff` | internal/notifications/watcher.go:177-236 | an open episode is recorded exactly when nobody follows the session, or somebody could be told and all were; else, short of late input, the record stays as it was |
| `WatcherDeliveries.TriedIff` | internal/notifications/config.go:103-206 | a device is tried exactly when it wants this event and has introduced itself within thirty days |
| `WatcherDeliveries.AdoptedLaterIsSilent` | internal/notifications/watcher.go:177-188 | taking up a session later does not replay what was on its screen |
| `WatcherDeliveries.EndedEpisodeIsAnnouncedAnew` | internal/notifications/watcher.go:156-176 | once a poll has seen the session quiet, its next question is announced at once |
| `WatcherDeliveries.UnseenIsAnnouncedIff` | internal/notifications/watcher.go:140-203 | a session with no record is announced when somebody could be told, exactly unless there has been input in it |
| `WatcherDeliveries.QuietScreenIsRemembered` | internal/notifications/watcher.go:148-175 | the screen seen quiet is the one on record: found unchanged at input it is not announced, any other is |
| `WatcherDeliveries.UnsavedChangesNothing` | internal/notifications/watcher.go:238-249 | a poll that cannot be saved leaves every record as it was, and dropping one has to be saved |
| `ScreenHistory.ContainsLineSequence` | internal/session/screen_history.go:144-164 | the nested scan finds exactly the contiguous occurrences |
| `ScreenHistory.LongestSuffixPrefix` | internal/session/screen_history.go:166-181 | the scan returns the longest overlap |
| `ScreenHistory.LongestOverlapIsLongest` | internal/session/screen_history.go:166-181 | it is an overlap and no longer one exists |
| `ScreenHistory.AppendWithLineOverlap` | internal/session/screen_history.go:130-142 | the two scans together compute the merge |
| `ScreenHistory.CommonLinePrefix` | internal/session/screen_history.go:183-191 | the count of leading lines two screens share |
| `ScreenHistory.MergeIsOptimal` | internal/session/screen_history.go:130-142 | the merge starts with the existing lines, shows the addition as one block, is the shortest to do so, and the only one of its length |
| `ScreenHistory.ScreenJournal.Capture` | internal/session/screen_history.go:22-63 | a capture changes the journal as specified, and the normal screen never does |
| `ScreenHistory.ScreenJournal.AppendTerminalHistory` | internal/session/screen_history.go:83-93 | committed rows are merged in and the newest 2000 kept |
| `ScreenHistory.ScreenJournal.RenderedTerminalLines` | internal/session/screen_history.go:67-81 | the transcript is the journal merged with the live screen, and with the normal buffer when that is active |
| `ScreenHistory.CaptureIsIdempotent` | internal/session/screen_history.go:36-43 | from any journal, capturing the same screen again changes nothing |
| `ScreenHistory.BlankCapturesAreNothing` | internal/session/screen_history.go:27-30 | from any journal and over any run, blank captures might as well not have been |
| `ScreenHistory.HistoryIsAppendOnly` | internal/session/screen_history.go:83-93 | whatever is captured, history only grows at its end and loses only its oldest lines, past 2000 |
| `ScreenHistory.LiveScreenIff` | internal/session/screen_history.go:36-62 | the live screen is the one captured exactly unless it is blank or already in the journal, and then nothing changes |
| `ScreenHistory.JournalIsBounded` | internal/session/screen_history.go:83-93 | over any run the journal keeps to 2000 lines and the live screen is shown whole |
| `ScreenHistory.ScrollingIsReconstructed` | internal/session/screen_history.go:22-63 | distinct lines seen through windows that move on without a gap, or look back, with blank screens anywhere in between, are rendered whole, once and in order, cut only at the front by the bound |
| `ScreenHistory.RepeatedLineIsLost` | internal/session/screen_history.go:45-49 | with a repeated line that can fail |
| `ScreenLoss.ShiftIsKeptIff` | internal/session/screen_history.go:36-50 | one scroll is rendered with every line, old and new, exactly when its text is not in the journal already, overlaps no further than it scrolled, and merges whole |
| `ScreenLoss.ShortStays` | internal/session/screen_history.go:36-63 | within the bound, a line lost from the history stays lost |
| `ScreenLoss.ScrollingIsReconstructedIff` | internal/session/screen_history.go:22-92 | within the bound, any stream of lines seen through windows that move on or look back, with blank screens anywhere in between, is rendered whole and in order exactly when each window, told from the stream's own text, is passed over or taken in whole, and none is left passed over |
| `ScreenHistory.TrimEmptyTerminalRows` | internal/session/screen_history.go:111-121 | only blank rows are cut, from the two ends only, and none is left there |
| `SessionOrder.BeforeIsTotalOrder` | internal/server/attach_client.go:365-370 | the order is irreflexive, transitive and total on distinct IDs |
| `SessionOrder.LessIff` | internal/server/attach_client.go:366-369 | IDs are ordered by their first difference, a shorter one first |
| `SessionOrder.SwitchableSessionsIff` | internal/server/attach_client.go:349-360 | the switcher's list is the one ordered arrangement of the running, unarchived sessions, whatever sorts it |
| `SessionOrder.SwitchableSessionsOf` | internal/server/attach_client.go:349-360 | the filtering loop, then the order |
| `SessionOrder.ListingOrderDoesNotMatter` | internal/server/attach_client.go:349-360 | every permutation of the daemon's list gives the same sequence |
| `SessionOrder.SelectSwitchTarget` | internal/server/attach_input.go:269-300 | scan, wrap-around and all, the target is the place on the circle of sessions |
| `SessionOrder.ForwardVisitsEach` | internal/server/attach_input.go:280-299 | stepping forward visits every running session once and returns |
| `SessionOrder.StepsCancel` | internal/server/attach_input.go:295-299 | a step one way and a step the other cancel |
| `SessionOrder.UnlistedStartsAtTheEnds` | internal/server/attach_input.go:287-294 | from a session not in the list, forward leads to the oldest and back to the newest |
| `SessionOrder.SwitchesLandOnRunning` | internal/server/attach_input.go:269-300 | a switch lands on a running, unarchived session; on none only when there is none, or none with that number |
| `SessionOrder.FooterContentFor` | internal/server/status_bar_content.go:89-122 | the footer's number, counts and labels are those of the records, and blank for a session not listed |
| `SessionOrder.FooterTellsOfItsSession` | internal/server/status_bar_content.go:101-109 | the footer's title, agent, mode, watchers and mute sign are those of its session's record; blank once that is gone |
| `SessionOrder.OthersAreTheRest` | internal/server/status_bar_content.go:101-120 | the others are all running sessions but this one |
| `SessionOrder.FooterNumberSelects` | internal/server/status_bar_content.go:89-100 | the number shown is the one digit that selects this session, and is missing exactly when it cannot be selected |
| `SessionOrder.SelectEndedSessionFallback` | internal/server/attach_client.go:377-410 | the fallback is the greatest running session before the ended one, else the least after; the newest if the ended one is gone; none while it still runs |
| `ProcessTree.Descendants` | internal/session/shell.go:216-225 | the repeated scan stops, at the least set with the root and closed under children |
| `ProcessTree.LeastIffDescends` | internal/session/shell.go:216-225 | that set is exactly the root and everything with a chain of parents to it |
| `ProcessTree.ListingOrderDoesNotMatter` | internal/session/shell.go:216-225 | the order and repetition of listings make no difference |
| `ProcessTree.ActiveAgentProcess` | internal/session/shell.go:226-235 | the agent reported is the last one listed strictly below the shell; none only if there is none |
| `ProcessTree.BelowHasAParent` | internal/session/shell.go:219-224 | being below the shell takes a listing whose own parent is the shell or below it |

## Left out

- PTYs, processes, sockets, JSON, HTTP, encryption, file locking and files: transcripts, attention, markers and
  delivery results are inputs to a step.
- `run` and the delivery goroutine as methods: they are steps of the protocol in `FanOut.dfy`, since what they
  promise is about interleavings. Go's choice between two ready channel cases is any choice.
- Keyboard.AttachInputReader.Consume: every write to the connection succeeds, so its early returns on a write
  error, after which the client is done, do not appear.
- Keyboard.AttachInputReader.Flush: for the same reason it reports no error.
- Frames.AttachFrameWriter.WriteFrame: the connection takes both writes whole; a torn frame is the end of it.
- StatusBar.AttachStatusBar.Render: local writes succeed. A failing one ends the attach, and can stop inside a
  frame, past which nothing can be promised. A failing write of the child's bytes is modelled.
- StatusBar.AttachStatusBar.Close: likewise for the wipes.
- Watcher.Watch.Poll: marker files are read through its inputs and their pruning is not modelled.
- Watcher.Watch.Deliver: a device the relay has retired is tried as any other; releasing it changes the
  registrations of later polls, which are inputs.
- LiveSession.OutputSectionRefines: steps of others in between are excluded, since deliveries change what a queue
  takes; `LiveSession.EachTurnDecides` says what holds with them.
- ScreenLoss.ScrollingIsReconstructedIff: after a line is lost the windows only move on, since a look back may take
  an old screen in again; and windows go no further than 2000 lines past the first, beyond which the
  journal forgets lines, lost ones included; `ScreenHistory.ScrollingIsReconstructed` has no such limit.
- What follows a detach, switch or new-session key on the client: closing the connection and starting the next
  attach. The reader's log records the action and goes on, as the reader does until its next failing write.
- `TerminalScreen`: one column to a rune, and only the control functions Falkn draws with; what the child draws is
  any screen, and a line longer than the terminal is wide is not wrapped.
- `KeyBindings`: the sessions stay the same while keys are typed; each switch really starts a new client.
- `Keyboard`: the footer's held-prefix indicator, and the sessions behind the switcher's rows; a toggle takes how
  many sessions there are and which is attached from a parameter.
- `StatusBar`: sizes and pending drawing are one record field, and a drawing is kept as what it draws, with
  `Tokens` giving its bytes. Menu rows are lines without control characters; how the switcher composes them is
  not modelled.
- `SetMenuLines` with a switcher taller than the terminal: rows may be non-positive, as in the code.
- `Attach`'s check that the session runs, and its resize; exit notices are a step that writes to the log only.
- `LiveSession`: the terminal emulator that also reads each chunk; `ScreenHistory` takes its screens as lines.
- `SessionOrder`: the sorting algorithm of Go's library; any correct one gives the proved sequence.
- `ProcessTree`: reading the process list, and which names are agents, are parameters.
- Agent text heuristics, launch flags, uploads, directory listing, CLI commands, and session create, rename,
  archive and persist: short field updates or library calls that would add only easy members.
