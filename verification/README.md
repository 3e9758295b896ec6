# Memory matching game — a Dafny model of the game core

The game lays out a board of face-down cards in pairs. The player turns up two
cards per move; equal pictures stay matched, unequal ones turn back. Finding
every pair wins, and the result is saved to a leaderboard database. The core
of the game is the `Game` class. This project models four parts of it:

* **Deck builder** (`Deck`, with `Layouts`, `Decimal` and `Shuffling`).
  * The difficulty fixes the board: Easy 3x4 with 6 pairs, Medium 4x4 with 8,
    Hard 4x6 with 12, Expert 6x6 with 18.
  * The theme's pictures are read cyclically until every pair has one. When
    the theme folder has no pictures, synthetic names `image1.png` ...
    stand in.
  * Every picture becomes two cards with consecutive ids, and the cards are
    shuffled.
  * The defensive size correction after the shuffle is proved to be dead
    code.
* **Selection and match engine** (`Session`).
  * The event filter and the click handler decide whether a click takes
    effect.
  * The end of the flip animation starts the match check, which marks a pair,
    turns a mismatch back or records the win.
  * The session invariant ties the card states to the selection, the flags and
    the counters.
* **Screen state machine** (`MemoryGame`, with `NameEntry` and `Records`).
  * The eleven screens and every button on them, typing the name, and the
    setup screen's cycling buttons.
  * Start, pause, resume, surrender, game over, and the contact screen's
    return through the remembered screen.
  * The results database is an optional append-only list of records.
* **Play time** (`Timing`). The elapsed-time clock, as written and
  corrected (see Findings).

Inputs the game gets from outside are parameters:

* the file names found by the theme folder scan;
* the draws of the random engine behind the shuffle;
* the score formula, a function of moves, pairs found and total pairs;
* the database, or its absence;
* the passing of time, as `Tick` events.

Behaviour of the code that a reader might not expect, modelled as written
unless stated otherwise:

* Resuming restarts the clock that the elapsed time is read from
  (Game.cpp:1685 and Game.cpp:982), so the time played before a pause is
  lost. Resuming is evidently meant to continue the count. The as-written
  clock is modelled in `Timing` and the loss is shown by a concrete trace
  (see Findings). The game model uses the corrected clock; the members this
  affects are listed under "## Left out".
* After a mismatch the code busy-waits for 0.8 seconds before it turns the
  cards back (Game.cpp:1605-1613). The model turns the cards back in the same
  step as the check.
* Restart goes to the name screen, not straight to a new board
  (Game.cpp:1666-1672).
* The in-game Menu button changes only the screen and leaves play switched on
  (Game.cpp:403-409).

## Model

| member | source | states |
|---|---|---|
| `Layouts.LayoutOf` | Game.cpp:616-621 | every difficulty gives a board with exactly two cells per pair: rows*cols == 2*totalPairs, with at least one pair |
| `Layouts.LayoutMatchesDocumentation` | Game.h:36-41 | the layout table agrees with the enum's documentation: 12, 16, 24 and 36 cards, which is 6, 8, 12 and 18 pairs |
| `Layouts.InitialLayoutIsMedium` | Game.cpp:44-48 | the board the game is constructed with (4x4, 8 pairs) is the Medium board |
| `Layouts.NextDifficulty` | Game.cpp:464-483 | the difficulty button moves one place round the cycle Easy, Medium, Hard, Expert |
| `Layouts.NextTheme` | Game.cpp:487-510 | the theme button moves one place round the cycle of the five themes |
| `Layouts.PressDifficultyIndex` | Game.cpp:464-483 | k presses of the difficulty button move k places round the cycle, modulo 4 |
| `Layouts.PressThemeIndex` | Game.cpp:487-510 | k presses of the theme button move k places round the cycle, modulo 5 |
| `Layouts.DifficultyPeriod` | Game.cpp:464-483 | k presses bring the difficulty back to where it started if and only if k is a multiple of 4 |
| `Layouts.ThemePeriod` | Game.cpp:487-510 | k presses bring the theme back if and only if k is a multiple of 5 |
| `Layouts.DifficultyLabelInjective` | Game.cpp:1656-1664 | distinct difficulties are saved under distinct labels |
| `Decimal.NatToString` | Game.cpp:663-665 | the decimal form of a number in a placeholder name is non-empty and all digits; it has one digit exactly when the number is below 10 |
| `Decimal.ParseNatToString` | Game.cpp:663-665 | reading the decimal form back gives the number: the conversion round-trips |
| `Decimal.NatToStringInjective` | Game.cpp:663-665 | two numbers have the same decimal form if and only if they are equal |
| `Shuffling.ShufflePermutes` | Game.cpp:699-702 | whatever the random engine yields, the shuffle keeps the length and the multiset of the cards |
| `Shuffling.ShuffleKeepsDistinct` | Game.cpp:699-702 | a shuffle of pairwise distinct cards leaves them pairwise distinct |
| `Deck.PlaceholderNameInjective` | Game.cpp:663-665 | two placeholder names of a theme are equal if and only if their numbers are |
| `Deck.PlaceholdersDistinct` | Game.cpp:661-666 | the totalPairs placeholder names are pairwise distinct |
| `Deck.Available` | Game.cpp:661-666 | a non-empty scan is used as it is; an empty one is replaced by totalPairs names, so the picture list is never empty |
| `Deck.ChoosePairedImages` | Game.cpp:669-680 | the two choosing loops give exactly totalPairs pictures, picture i being available[i mod n] |
| `Deck.BuildPairs` | Game.cpp:684-697 | pair i yields cards 2i and 2i+1 showing picture i; the id counter ends at the card count |
| `Deck.CorrectSize` | Game.cpp:709-722 | the size correction always yields totalCards cards: it keeps a deck of the right size, truncates a long one and extends a short one |
| `Deck.CorrectionNeverApplies` | Game.cpp:704-722 | the shuffled pair deck already has rows*cols cards, so the correction returns it unchanged |
| `Deck.DeckIsShuffledPairs` | Game.cpp:612-725 | the built deck has rows*cols == 2*totalPairs cards and is a permutation of the pair cards |
| `Deck.DeckCardsArePairCards` | Game.cpp:684-702 | every card's id is below 2*totalPairs, it shows the picture of pair id/2 and it carries the chosen theme |
| `Deck.DeckIdsDistinct` | Game.cpp:685-702 | no two cards of the deck share an id |
| `Deck.DeckCardsHavePartners` | Game.cpp:686-702 | every card has another card elsewhere in the deck showing the same picture |
| `Deck.PairedImagesDistinct` | Game.cpp:671-675 | with enough distinct pictures, the chosen pictures are pairwise distinct |
| `Deck.SameSymbolIffSamePair` | Game.cpp:669-702 | with enough distinct pictures, two cards show the same picture if and only if they come from the same pair |
| `Deck.EmptyScanGivesDistinctPairs` | Game.cpp:661-702 | with no pictures found, two cards show the same placeholder if and only if they come from the same pair |
| `Deck.InitializeCards` | Game.cpp:612-725 | card initialisation yields the difficulty's board and a deck of rows*cols cards that is a permutation of the pair cards |
| `Session.HandleCardClick` | Game.cpp:1486-1534 | the handler changes nothing unless its own guards pass; otherwise the card is turned up and made unclickable |
| `Session.ClickCard` | Game.cpp:891-910 | a click changes nothing unless play is on, nothing is flipping or being checked, and the card is on the table, face down and clickable. An accepted click turns that card up and makes it unclickable, leaving the other cards alone. The first card of a move keeps the move count; the second adds exactly one |
| `Session.FilterSubsumesHandlerGuard` | Game.cpp:895-898 | behind the event filter, the handler's own guard passes exactly when play is on |
| `Session.HandlerAloneAcceptsRevealedCard` | Game.cpp:1499-1501 | during play, with nothing flipping or being checked, the handler alone accepts a click on any face-up card on the table; the event filter rejects every such click |
| `Session.ProcessCardMatch` | Game.cpp:1536-1627 | two selected cards match if and only if their pictures are equal. A match marks both Matched and adds one pair; a mismatch turns both down and clickable and keeps the pair count. A win is reported exactly when the pairs reach totalPairs with no win recorded; it keeps the selection. Any other outcome clears the selection and the checking flag. The move count never changes |
| `Session.FlipSettles` | Game.cpp:998-1009 | the end of a flip clears the flipping flag, and starts the match check only when two cards are selected |
| `Session.MatchedCountFull` | Game.cpp:1575 | the number of matched cards equals the card count if and only if every card is matched |
| `Session.InitialInv` | Game.cpp:48-61 | the session fields as constructed satisfy the session invariant |
| `Session.ResetInv` | Game.cpp:775-790 | a reset on a full board satisfies the invariant, is idle, and has no moves and no pairs |
| `Session.ResetDealsFaceDown` | Game.cpp:744-770 | a reset deals the deck in order, every card face down and clickable, with no moves, no pairs, no selection and no win |
| `Session.PairsBounded` | Game.cpp:1562-1575 | under the invariant, the pairs found never exceed totalPairs or the moves made, and equal totalPairs exactly when every card is matched |
| `Session.ClickKeepsInv` | Game.cpp:1486-1534 | a click keeps the invariant, and an accepted second click of a move is never on the card already turned up |
| `Session.FlipSettlesKeepsInv` | Game.cpp:998-1009 | the end of a flip keeps the invariant |
| `Session.FirstClickAvailable` | Game.cpp:891-903 | on an idle table during play with pairs still to find, some card passes the click filter |
| `Session.SecondClickAvailable` | Game.cpp:891-903 | with the first card of a move up and the flip over, a card other than that one passes the click filter. Matched cards come in twos on an even table, so the card that is up is never the last unmatched one |
| `Session.ClickAvailable` | Game.cpp:891-903 | during play, with the flip over and pairs still to find, the session is idle or half way through a move, and some card accepts a click (not the one already up) |
| `Session.SpritesKeepPartners` | Game.cpp:744-770 | when the deck is laid out as sprites, every card on the table has another card showing the same picture, provided every card of the deck had one |
| `Session.ClickKeepsFaces` | Game.cpp:1486-1534 | a click never moves a picture or a card id: position k shows the same card after the click |
| `Session.FlipSettlesKeepsFaces` | Game.cpp:998-1009 | the end of a flip, with the match check it may run, never moves a picture or a card id |
| `Session.ResolveKeepsInv` | Game.cpp:1536-1627 | resolving a move keeps the invariant |
| `Session.ResolveOutcome` | Game.cpp:1546-1624 | resolving a move matches exactly when the pictures are equal and leaves the move count alone. It reports a win exactly when the board is then fully matched. After a win play is off; after anything else the session is idle again |
| `Session.WonIsFinal` | Game.cpp:1575-1594 | once won, no click is accepted and no flip is pending |
| `Session.NoSecondWin` | Game.cpp:1575 | once the win flag is set, the match check cannot report a second win |
| `Records.HalveTowardZero` | Game.cpp:1718 | halving truncates toward zero as C++ integer division does: the remainder is 0 or 1 for non-negative scores and 0 or -1 for negative ones |
| `Records.HalveTowardZeroUnique` | Game.cpp:1718 | those remainder bounds determine the halved score uniquely |
| `Records.HalveTowardZeroOnNegativeOdd` | Game.cpp:1718 | for odd negative scores the C++ quotient is one more than the floor quotient |
| `Records.Save` | Game.cpp:1629-1645 | a save appends the record as the newest entry when there is a database, and does nothing otherwise; earlier records are kept |
| `Records.AppendOnlyTransitive` | Game.cpp:1643 | successive saves only ever extend the database |
| `Timing.WrittenClockLosesPlayTime` | Game.cpp:1681-1687 | as written: after 5 units of play, a pause, a resume and 1 more unit, the elapsed time reads 1 although 6 units were played, and it reads less than before the pause |
| `Timing.CorrectedClockCountsPlayTime` | Game.cpp:980-983 | corrected: the elapsed time is exactly the time played since the last start, and the clock runs exactly when play is on |
| `Timing.CorrectedClockMonotonic` | Game.cpp:980-983 | corrected: only a new game sets the elapsed time back |
| `NameEntry.TypeKey` | Game.cpp:864-883 | Enter confirms the typed name if and only if it is non-empty. No key takes a name of at most 20 characters past 20. Every edit adds or removes at most one character at the end. Keys other than Backspace, Enter and printable ASCII change nothing |
| `NameEntry.BackspaceUndoesTyping` | Game.cpp:866-880 | below 20 characters a printable key appends exactly that character, and Backspace removes it again |
| `NameEntry.FullNameIgnoresTyping` | Game.cpp:877-880 | at 20 characters printable keys are dropped |
| `NameEntry.EmptyNameKeys` | Game.cpp:866-876 | Backspace and Enter on an empty name change nothing |
| `NameEntry.TypedNamesBounded` | Game.cpp:864-883 | whatever keys are typed, the name never exceeds 20 characters, and a confirmed name is non-empty |
| `MemoryGame.ElevenModes` | Game.h:22-34 | there are exactly eleven screens: numbering them is a bijection onto 0..10 |
| `MemoryGame.Init` | Game.cpp:42-61 | the game starts on the main menu with no player, the given database, difficulty Medium, theme Animals and the Medium board; with no player the score the game reports (Game.h:187) is 0 |
| `MemoryGame.InitInv` | Game.cpp:42-61 | the constructed game satisfies the game invariant |
| `MemoryGame.Step` | Game.cpp:842-963 | the transition function, dispatching to one handler per screen. A closed window takes no input. The database only grows, by at most one record per input. A record is added only when play ends in a win or a surrender. Elapsed time follows the corrected clock (see Left out) |
| `MemoryGame.StepKeepsInv` | Game.cpp:842-963 | every input keeps the game invariant. The invariant holds the session invariant, a player on every screen that needs one, and the contact screen returning to settings. It also holds that play and pause run a board of the chosen difficulty with no win recorded, with play on exactly during play, and with every card on the board having a partner showing the same picture |
| `MemoryGame.RunKeepsInv` | Game.cpp:842-963 | any sequence of inputs keeps the invariant and never shows the Exit screen |
| `MemoryGame.ExitNeverShown` | Game.cpp:1697-1699 | from the constructed game the Exit screen is never reached: the Exit button closes the window instead |
| `MemoryGame.SavesBoundedByStarts` | Game.cpp:1575-1594 | each play-through is saved at most once: a run adds no more records than Start Game presses took effect |
| `MemoryGame.RunAppendOnly` | Game.cpp:1643 | over any sequence of inputs the database is only extended; no saved record is changed or removed |
| `MemoryGame.StartGameOutcome` | Game.cpp:514-523 | Start Game (`StartPlaying`) does nothing without a player. With one, play begins on a rows*cols board of the chosen difficulty that holds the deck dealt for that difficulty and theme (`Deck.DealtDeck`), card for card, each card partnered by another with the same picture. All cards are face down and clickable, with no moves, no pairs, no win and zero elapsed time. The player and the database are kept |
| `MemoryGame.StartDealsPartneredTable` | Game.cpp:514-523 | with a player, the table Start Game lays out is exactly the dealt deck as sprites, and every card on it has a partner showing the same picture |
| `MemoryGame.PlayNeverStuck` | Game.cpp:891-903 | on the play screen, once the flip has settled and while pairs remain, some face-down card turns up when clicked; half way through a move it is not the card already up |
| `MemoryGame.PauseResumeRoundTrip` | Game.cpp:1674-1687 | pause applies only during play and resume only on the pause screen; pausing stops play, and pausing then resuming gives back the same game. The program's clock restart on resume is not part of this (see Left out) |
| `MemoryGame.SurrenderOutcome` | Game.cpp:1701-1731 | giving up during play (`SurrenderStep`) stops it and shows the lose screen. The score the game reports is recomputed from the counters. With a database it saves the player's name, that score halved toward zero, the moves, the pairs, the elapsed time and the difficulty label; without one nothing is saved |
| `MemoryGame.SurrenderNeedsActiveGame` | Game.cpp:1701-1702 | surrender does nothing when play is off; no reachable game is in that state on the play screen (see PlayScreenMeansPlayOn) |
| `MemoryGame.PlayScreenMeansPlayOn` | Game.cpp:514-523 | under the invariant play is on whenever the play screen shows, so the guard at Game.cpp:1702 never fires in a reachable game |
| `MemoryGame.WinOutcome` | Game.cpp:1575-1594 | the win (`FlipDoneStep`, saving through `ResultRecord` as Game.cpp:1629-1645 does) shows the win screen with play off and every pair found. With a database the saved record has pairs == totalPairs, moves >= pairs, the full score the game reports, the elapsed time, and a difficulty label that names exactly the difficulty the board was dealt for |
| `MemoryGame.MenuLeavesGameActive` | Game.cpp:403-409 | the Menu button during play changes only the screen; play stays switched on |
| `MemoryGame.RestartEntersName` | Game.cpp:1666-1672 | Restart, during play or paused, goes to the name screen with an empty name. It clears only the win flag and keeps the player and the database |
| `MemoryGame.NameConfirmed` | Game.cpp:870-876 | Enter creates the player from the typed name, with score 0, and goes to setup when a name was typed; with an empty name it does nothing |
| `MemoryGame.SetupCycles` | Game.cpp:464-510 | on the setup screen the two cycling buttons change only the difficulty and only the theme |
| `MemoryGame.DifficultyPresses` | Game.cpp:464-483 | k presses of the difficulty button on the setup screen change only the difficulty, by k places |
| `MemoryGame.ThemePresses` | Game.cpp:487-510 | k presses of the theme button change only the theme, by k places |
| `MemoryGame.SetupPeriods` | Game.cpp:464-510 | the setup screen returns to its state after k difficulty presses if and only if 4 divides k, and after k theme presses if and only if 5 divides k |
| `MemoryGame.ContactRoundTrip` | Game.cpp:364-372 | from settings, the contact screen remembers settings, and Back returns there with nothing else changed |
| `MemoryGame.ContactBackToSettings` | Game.cpp:945-954 | under the invariant, Back on the contact screen always lands on settings |
| `MemoryGame.ContinueToMenu` | Game.cpp:918-930 | Continue on either game-over screen goes to the main menu and changes nothing else |
| `MemoryGame.TimeCountsOnlyInPlay` | Game.cpp:980-983 | corrected clock: time passing adds to the elapsed time during play only (see Left out) |
| `MemoryGame.TickRescores` | Game.cpp:980-992 | while play is on, each update recomputes the score the game reports from the moves, the pairs found and the total pairs |
| `MemoryGame.PlayEnteredOnlyByStartOrResume` | Game.cpp:514-523 | play is entered only by an accepted Start Game or by Resume, and the pause screen only by pausing play |
| `MemoryGame.ClicksOnlyInPlay` | Game.cpp:891-910 | card clicks have no effect outside play |

## Left out

- MemoryGame.Step: the elapsed time of the game model accrues across pauses, as the corrected clock of the finding does. The program restarts the game clock on resume (Game.cpp:1685), so after a pause its elapsed time and the time it saves cover only the play since the last resume. `Timing.WrittenStep` models that behaviour and `Timing.WrittenClockLosesPlayTime` exhibits it.
- MemoryGame.PauseResumeRoundTrip: pausing then resuming gives back the same game only because the game model carries no restartable clock. In the program the resume also restarts the game clock (Game.cpp:1685), which changes the elapsed time read afterwards.
- MemoryGame.TimeCountsOnlyInPlay: states the corrected accrual. In the program the elapsed time is overwritten with the clock's reading (Game.cpp:982), so after a resume it drops to the time since that resume.
- Rendering, fonts, textures and backgrounds. Also left out: brightness (a floating-point factor), resolution switching and button hit-testing. A button press is an event; the Brightness and Resolution buttons change nothing modelled and are not events.
- Audio: the sound and music calls have no effect on the modelled state.
- The theme folder scan and its file-extension filter: its result is the `scan` input.
- The random engine behind the shuffle: the shuffle is Fisher-Yates driven by an arbitrary sequence of draws, which covers any sequence of draws the engine can yield.
- The score formula: the player's class is not part of this model, so the formula is the `ScoreRule` parameter. It is applied to the game's move and pair counters, which the player's own counters track. A new player's score is taken as 0.
- The database class: queries, ordering and limits are not part of this model. A save always succeeds when a database exists. The save date and record id are not modelled, and the time is kept in whole units rather than as a floating-point number of seconds.
- The card and sprite classes are not part of this model. Turning a card up, down or matched changes only its state. The text fallback label a sprite gets when its picture fails to load is assumed not to change the picture compared by the match check.
- Time: the flip animation timer and the busy-wait after a mismatch are not modelled as time. The end of the flip is the `FlipDone` event, and the mismatch settles within it. Time passing is the `Tick` event, in whole units.
- The contact form's own input handling; only its Back button is modelled.
- The name-entry flag that only selects what is drawn, and the console logging.
- Container detection and directory creation at start-up.
- Window resize events.

## Findings

| source | as written | input that shows it | evidently intended | confidence | as-written member | corrected member |
|---|---|---|---|---|---|---|
| Game.cpp:1681-1687 | resuming restarts the game clock, and during play the elapsed time is copied from that clock, so the time played before a pause is discarded and the saved time counts only play since the last resume | start, play 5 units, pause, wait 3, resume, play 1: elapsed reads 1 instead of 6 | elapsed time accrues whenever play is on and is kept across a pause | high (derived from the code; not executed) | `Timing.WrittenClockLosesPlayTime` | `Timing.CorrectedClockCountsPlayTime` |
