/** The game as a whole: which screen is showing, what each input does on
    that screen, the player, the play-through in progress, the elapsed play
    time and the results database. Every input is one Event and Step is the
    whole transition function; frames of the main loop contribute the two
    update events, Tick (time passing) and FlipDone (the flip animation
    finishing). */
module MemoryGame {
  import opened Layouts
  import opened Records
  import NameEntry
  import Deck
  import Session
  import Timing

  /** The screens of the game. */
  datatype Mode =
    | MainMenu | EnterName | Setup | Playing | Paused
    | GameOverWin | GameOverLose | Leaderboard | Settings | ContactForm | Exit

  function ModeIndex(m: Mode): (n: nat)
    ensures n < 11
  {
    match m
    case MainMenu => 0
    case EnterName => 1
    case Setup => 2
    case Playing => 3
    case Paused => 4
    case GameOverWin => 5
    case GameOverLose => 6
    case Leaderboard => 7
    case Settings => 8
    case ContactForm => 9
    case Exit => 10
  }

  function ModeAt(n: nat): (m: Mode)
    requires n < 11
    ensures ModeIndex(m) == n
  {
    [MainMenu, EnterName, Setup, Playing, Paused, GameOverWin, GameOverLose,
     Leaderboard, Settings, ContactForm, Exit][n]
  }

  /** There are exactly eleven screens: numbering them is a bijection onto
      0 .. 10. */
  lemma ElevenModes(m: Mode, n: nat)
    requires n < 11
    ensures ModeAt(ModeIndex(m)) == m
    ensures ModeIndex(ModeAt(n)) == n
  {
  }

  /** One input. Buttons are named by what they do; a button that is not on
      the current screen is not pressed. Back is the Back button of the
      setup, leaderboard, settings and contact screens; ToMenu is the Menu
      button during play and the Main Menu button on the pause screen; Restart
      is on both of these screens too. StartGame carries what the theme
      folder scan found and the draws of the random generator. */
  datatype Event =
    | Closed
    | Key(code: nat)
    | NewGame | ShowLeaderboard | ShowSettings | ExitGame
    | CycleDifficulty | CycleTheme | StartGame(scan: seq<string>, draws: seq<nat>) | Back
    | CardClicked(index: int) | PauseGame | ToMenu | Restart | Surrender
    | ResumeGame
    | Continue
    | ContactDeveloper
    | Tick(dt: nat)
    | FlipDone

  datatype Game = Game(
    mode: Mode,
    previous: Mode,
    open: bool,
    difficulty: Difficulty,
    theme: Theme,
    nameBuffer: string,
    player: Option<Player>,
    session: Session.Session,
    elapsed: nat,
    store: Store)

  /** The game as constructed, given the database (or its absence). */
  function Init(store: Store): (g: Game)
    ensures g.mode == MainMenu && g.open && g.player.None? && g.store == store
    ensures g.difficulty == Medium && g.theme == Animals
    ensures CurrentScore(g.player) == 0
    ensures g.session.layout == LayoutOf(g.difficulty)
  {
    InitialLayoutIsMedium();
    Game(MainMenu, MainMenu, true, Medium, Animals, [], None, Session.Initial, 0, store)
  }

  /** The player with the score recomputed from the play-through's counters. */
  function Rescore(p: Option<Player>, s: Session.Session, rule: ScoreRule): (r: Option<Player>)
    ensures r.Some? <==> p.Some?
    ensures r.Some? ==>
      r.value.name == p.value.name && r.value.score == rule(s.moves, s.matchedPairs, s.layout.totalPairs)
  {
    if p.Some? then Some(p.value.(score := rule(s.moves, s.matchedPairs, s.layout.totalPairs))) else None
  }

  /** The record saved for the play-through in progress. */
  function ResultRecord(g: Game, s: Session.Session, name: string, score: int): GameRecord {
    GameRecord(name, score, s.moves, s.matchedPairs, g.elapsed, DifficultyLabel(g.difficulty))
  }

  // ---------------------------------------------------------------------
  // Transitions shared by several screens

  /** A new game begins with typing the name again; only the win flag of the
      previous play-through is cleared. */
  function StartNewGame(g: Game): Game {
    g.(mode := EnterName, nameBuffer := [], session := g.session.(hasWon := false))
  }

  function ToMainMenu(g: Game): Game {
    g.(mode := MainMenu)
  }

  // ---------------------------------------------------------------------
  // Per-screen handling

  function MainMenuStep(g: Game, e: Event): Game {
    match e
    case NewGame => StartNewGame(g)
    case ShowLeaderboard => g.(mode := Leaderboard)
    case ShowSettings => g.(mode := Settings)
    case ExitGame => g.(open := false)
    case _ => g
  }

  /** A text event while the name is typed; Enter with a name creates the
      player and moves on to the setup screen. A new player's score is 0. */
  function EnterNameStep(g: Game, e: Event): Game {
    if !e.Key? then g
    else match NameEntry.TypeKey(g.nameBuffer, e.code)
      case Editing(b) => g.(nameBuffer := b)
      case Confirmed(name) => g.(player := Some(Player(name, 0)), mode := Setup)
  }

  /** Start Game: nothing happens without a player; otherwise the deck for
      the chosen difficulty and theme is dealt, counters and flags are reset,
      the elapsed time is zeroed and play begins. */
  function StartPlaying(g: Game, scan: seq<string>, draws: seq<nat>): Game {
    if g.player.None? then g
    else
      var l := LayoutOf(g.difficulty);
      var deck := Deck.DealtDeck(l, g.theme, scan, draws);
      g.(session := Session.Reset(l, deck).(isGameActive := true), mode := Playing, elapsed := 0)
  }

  function SetupStep(g: Game, e: Event): Game {
    match e
    case CycleDifficulty => g.(difficulty := NextDifficulty(g.difficulty))
    case CycleTheme => g.(theme := NextTheme(g.theme))
    case StartGame(scan, draws) => StartPlaying(g, scan, draws)
    case Back => ToMainMenu(g)
    case _ => g
  }

  /** Pausing takes effect only during play and stops it. */
  function Pause(g: Game): Game {
    if g.mode == Playing then g.(mode := Paused, session := g.session.(isGameActive := false)) else g
  }

  /** Resuming takes effect only on the pause screen and restarts play. */
  function Resume(g: Game): Game {
    if g.mode == Paused then g.(mode := Playing, session := g.session.(isGameActive := true)) else g
  }

  /** Giving up: nothing happens unless play is on. Otherwise play stops, and
      with a player the result is saved at half the current score, halved as
      C++ integer division does. The lose screen follows either way. */
  function SurrenderStep(g: Game, rule: ScoreRule): Game {
    if !g.session.isGameActive then g
    else
      var s := g.session.(isGameActive := false);
      var player := Rescore(g.player, s, rule);
      var store :=
        if player.Some? then Save(g.store, ResultRecord(g, s, player.value.name, HalveTowardZero(CurrentScore(player))))
        else g.store;
      g.(session := s, player := player, store := store, mode := GameOverLose)
  }

  /** The flip animation finishing during play. A win rescores the player,
      saves the result at the full score and shows the win screen. */
  function FlipDoneStep(g: Game, rule: ScoreRule): Game {
    var (s, outcome) := Session.FlipSettles(g.session);
    match outcome
    case NoResolution => g.(session := s)
    case Mismatch => g.(session := s)
    case Match => g.(session := s, player := Rescore(g.player, s, rule))
    case Win =>
      var player := Rescore(g.player, s, rule);
      var store :=
        if player.Some? then Save(g.store, ResultRecord(g, s, player.value.name, CurrentScore(player)))
        else g.store;
      g.(session := s, player := player, store := store, mode := GameOverWin)
  }

  /** Time passing during play: while play is on, the elapsed time grows and
      the shown score is recomputed. */
  function TickStep(g: Game, dt: nat, rule: ScoreRule): Game {
    var active := g.session.isGameActive;
    g.(elapsed := Timing.Accrue(g.elapsed, dt, active),
       player := if active then Rescore(g.player, g.session, rule) else g.player)
  }

  function PlayingStep(g: Game, e: Event, rule: ScoreRule): Game
    requires g.mode == Playing
  {
    match e
    case CardClicked(i) => g.(session := Session.ClickCard(g.session, i))
    case PauseGame => Pause(g)
    case ToMenu => ToMainMenu(g)
    case Restart => StartNewGame(g)
    case Surrender => SurrenderStep(g, rule)
    case FlipDone => FlipDoneStep(g, rule)
    case Tick(dt) => TickStep(g, dt, rule)
    case _ => g
  }

  function PausedStep(g: Game, e: Event): Game {
    match e
    case ResumeGame => Resume(g)
    case Restart => StartNewGame(g)
    case ToMenu => ToMainMenu(g)
    case _ => g
  }

  function SettingsStep(g: Game, e: Event): Game {
    match e
    case ContactDeveloper => g.(previous := g.mode, mode := ContactForm)
    case Back => ToMainMenu(g)
    case _ => g
  }

  /** The whole transition function. A closed window takes no more input. On
      the saving side: the database only ever grows, by at most one record per
      step, and only when play ends in a win or a surrender. */
  function Step(g: Game, e: Event, rule: ScoreRule): (r: Game)
    ensures !g.open ==> r == g
    ensures AppendOnly(g.store, r.store)
    ensures SaveCount(r.store) <= SaveCount(g.store) + 1
    ensures SaveCount(r.store) > SaveCount(g.store) ==>
      && g.mode == Playing && (e.FlipDone? || e.Surrender?)
      && (r.mode == GameOverWin || r.mode == GameOverLose)
  {
    if !g.open then g
    else if e.Closed? then g.(open := false)
    else match g.mode
      case MainMenu => MainMenuStep(g, e)
      case EnterName => EnterNameStep(g, e)
      case Setup => SetupStep(g, e)
      case Playing => PlayingStep(g, e, rule)
      case Paused => PausedStep(g, e)
      case GameOverWin => if e.Continue? then ToMainMenu(g) else g
      case GameOverLose => if e.Continue? then ToMainMenu(g) else g
      case Leaderboard => if e.Back? then ToMainMenu(g) else g
      case Settings => SettingsStep(g, e)
      case ContactForm => if e.Back? then g.(mode := g.previous) else g
      case Exit => g.(open := false)
  }

  // ---------------------------------------------------------------------
  // The invariant

  /** Screens that can only be reached once a player exists. */
  predicate NeedsPlayer(m: Mode) {
    m == Setup || m == Playing || m == Paused || m == GameOverWin || m == GameOverLose
  }

  predicate Inv(g: Game) {
    && g.mode != Exit
    && (g.previous == MainMenu || g.previous == Settings)
    && (g.mode == ContactForm ==> g.previous == Settings)
    && |g.nameBuffer| <= NameEntry.MaxNameLength
    && Session.Inv(g.session)
    && (NeedsPlayer(g.mode) ==> g.player.Some?)
    && (g.mode == Playing || g.mode == Paused ==>
          && g.session.layout == LayoutOf(g.difficulty)
          && |g.session.cards| == 2 * g.session.layout.totalPairs
          && g.session.isGameActive == (g.mode == Playing)
          && !g.session.hasWon
          && Session.TablePartnered(g.session.cards))
    && (g.mode == GameOverWin ==> g.session.hasWon)
  }

  lemma InitInv(store: Store)
    ensures Inv(Init(store))
  {
    Session.InitialInv();
  }

  lemma StartNewGameKeepsInv(g: Game)
    requires Inv(g) && g.mode != Playing && g.mode != Paused
    ensures Inv(StartNewGame(g))
  {
    var s := g.session.(hasWon := false);
    assert Session.Idle(s) == Session.Idle(g.session);
    assert Session.OneSelected(s) == Session.OneSelected(g.session);
    assert Session.TwoSelected(s) == Session.TwoSelected(g.session);
    assert Session.Won(s) == Session.Won(g.session);
  }

  lemma RestartKeepsInv(g: Game)
    requires Inv(g) && (g.mode == Playing || g.mode == Paused)
    ensures Inv(StartNewGame(g))
  {
    var s := g.session.(hasWon := false);
    assert Session.Idle(s) == Session.Idle(g.session);
    assert Session.OneSelected(s) == Session.OneSelected(g.session);
    assert Session.TwoSelected(s) == Session.TwoSelected(g.session);
    assert Session.Won(s) == Session.Won(g.session);
  }

  lemma StartPlayingKeepsInv(g: Game, scan: seq<string>, draws: seq<nat>)
    requires Inv(g) && g.mode == Setup
    ensures Inv(StartPlaying(g, scan, draws))
  {
    var l := LayoutOf(g.difficulty);
    var deck := Deck.DealtDeck(l, g.theme, scan, draws);
    Deck.DeckIsShuffledPairs(l, g.theme, scan, draws, deck);
    Session.ResetInv(l, deck);
    if g.player.Some? {
      StartDealsPartneredTable(g, scan, draws);
    }
  }

  /** Changing only the active flag keeps the session invariant. */
  lemma ActivityKeepsSessionInv(s: Session.Session, active: bool)
    requires Session.Inv(s)
    ensures Session.Inv(s.(isGameActive := active))
  {
    var t := s.(isGameActive := active);
    assert Session.Idle(t) == Session.Idle(s);
    assert Session.OneSelected(t) == Session.OneSelected(s);
    assert Session.TwoSelected(t) == Session.TwoSelected(s);
    assert Session.Won(t) == Session.Won(s);
  }

  lemma FlipDoneKeepsInv(g: Game, rule: ScoreRule)
    requires Inv(g) && g.mode == Playing
    ensures Inv(FlipDoneStep(g, rule))
  {
    Session.FlipSettlesKeepsInv(g.session);
    var (s, outcome) := Session.FlipSettles(g.session);
    Session.FlipSettlesKeepsFaces(g.session);
    Session.FacesKeepPartners(g.session.cards, s.cards);
    if !g.session.isFlipping {
    } else if Session.TwoSelected(g.session) {
      Session.ResolveOutcome(g.session);
    } else {
      assert outcome == Session.NoResolution;
    }
  }

  lemma PlayingStepKeepsInv(g: Game, e: Event, rule: ScoreRule)
    requires Inv(g) && g.mode == Playing
    ensures Inv(PlayingStep(g, e, rule))
  {
    match e
    case CardClicked(i) =>
      Session.ClickKeepsInv(g.session, i);
      Session.ClickKeepsFaces(g.session, i);
      Session.FacesKeepPartners(g.session.cards, Session.ClickCard(g.session, i).cards);
    case PauseGame => ActivityKeepsSessionInv(g.session, false);
    case ToMenu =>
    case Restart => RestartKeepsInv(g);
    case Surrender => ActivityKeepsSessionInv(g.session, false);
    case FlipDone => FlipDoneKeepsInv(g, rule);
    case Tick(dt) =>
    case _ =>
  }

  lemma EnterNameKeepsInv(g: Game, code: nat)
    requires Inv(g) && g.mode == EnterName
    ensures Inv(EnterNameStep(g, Key(code)))
  {
    NameEntry.TypedNamesBounded(g.nameBuffer, [code]);
    assert NameEntry.TypeKeys(g.nameBuffer, [code]) == NameEntry.TypeKey(g.nameBuffer, code) by {
      match NameEntry.TypeKey(g.nameBuffer, code)
      case Confirmed(_) =>
      case Editing(b) => assert [code][1..] == [];
    }
  }

  /** Every step keeps the invariant. */
  lemma StepKeepsInv(g: Game, e: Event, rule: ScoreRule)
    requires Inv(g)
    ensures Inv(Step(g, e, rule))
  {
    if g.open && !e.Closed? {
      match g.mode
      case MainMenu => if e.NewGame? { StartNewGameKeepsInv(g); }
      case EnterName => if e.Key? { EnterNameKeepsInv(g, e.code); }
      case Setup => if e.StartGame? { StartPlayingKeepsInv(g, e.scan, e.draws); }
      case Playing => PlayingStepKeepsInv(g, e, rule);
      case Paused =>
        if e.ResumeGame? { ActivityKeepsSessionInv(g.session, true); }
        else if e.Restart? { RestartKeepsInv(g); }
      case _ =>
    }
  }

  // ---------------------------------------------------------------------
  // Runs

  function Run(g: Game, events: seq<Event>, rule: ScoreRule): Game
    decreases |events|
  {
    if |events| == 0 then g else Run(Step(g, events[0], rule), events[1..], rule)
  }

  /** From the constructed game, whatever the inputs, the invariant holds;
      in particular the Exit screen is never shown. */
  lemma {:induction false} RunKeepsInv(g: Game, events: seq<Event>, rule: ScoreRule)
    requires Inv(g)
    ensures Inv(Run(g, events, rule))
    ensures Run(g, events, rule).mode != Exit
    decreases |events|
  {
    if |events| > 0 {
      StepKeepsInv(g, events[0], rule);
      RunKeepsInv(Step(g, events[0], rule), events[1..], rule);
    }
  }

  lemma ExitNeverShown(store: Store, events: seq<Event>, rule: ScoreRule)
    ensures Run(Init(store), events, rule).mode != Exit
  {
    InitInv(store);
    RunKeepsInv(Init(store), events, rule);
  }

  /** A Start Game press that takes effect. */
  predicate StartAccepted(g: Game, e: Event) {
    g.open && g.mode == Setup && e.StartGame? && g.player.Some?
  }

  function AcceptedStarts(g: Game, events: seq<Event>, rule: ScoreRule): nat
    decreases |events|
  {
    if |events| == 0 then 0
    else
      var now := if StartAccepted(g, events[0]) then 1 else 0;
      now + AcceptedStarts(Step(g, events[0], rule), events[1..], rule)
  }

  /** A play-through that can still end in a save. */
  function Unsaved(g: Game): nat {
    if g.mode == Playing || g.mode == Paused then 1 else 0
  }

  /** One step saves at most the credit it consumes: a save ends the
      play-through in progress, and only an accepted Start Game opens one. */
  lemma StepSaveCredit(g: Game, e: Event, rule: ScoreRule)
    requires Inv(g)
    ensures SaveCount(Step(g, e, rule).store) + Unsaved(Step(g, e, rule))
      <= SaveCount(g.store) + Unsaved(g) + (if StartAccepted(g, e) then 1 else 0)
  {
  }

  lemma {:induction false} RunSaveCredit(g: Game, events: seq<Event>, rule: ScoreRule)
    requires Inv(g)
    ensures SaveCount(Run(g, events, rule).store) + Unsaved(Run(g, events, rule))
      <= SaveCount(g.store) + Unsaved(g) + AcceptedStarts(g, events, rule)
    decreases |events|
  {
    if |events| > 0 {
      StepSaveCredit(g, events[0], rule);
      StepKeepsInv(g, events[0], rule);
      RunSaveCredit(Step(g, events[0], rule), events[1..], rule);
    }
  }

  /** Each play-through is saved at most once: from the constructed game, no
      more records are added than Start Game presses took effect. */
  lemma SavesBoundedByStarts(store: Store, events: seq<Event>, rule: ScoreRule)
    ensures SaveCount(Run(Init(store), events, rule).store) <= SaveCount(store) + AcceptedStarts(Init(store), events, rule)
  {
    InitInv(store);
    RunSaveCredit(Init(store), events, rule);
  }

  /** Over any run the database is only extended: no record is ever
      changed or removed. */
  lemma {:induction false} RunAppendOnly(g: Game, events: seq<Event>, rule: ScoreRule)
    ensures AppendOnly(g.store, Run(g, events, rule).store)
    decreases |events|
  {
    if |events| > 0 {
      var next := Step(g, events[0], rule);
      RunAppendOnly(next, events[1..], rule);
      AppendOnlyTransitive(g.store, next.store, Run(next, events[1..], rule).store);
    }
  }

  /** While play is on, time passing recomputes the score the game reports
      from the play-through's counters. */
  lemma TickRescores(g: Game, dt: nat, rule: ScoreRule)
    requires Inv(g) && g.open && g.mode == Playing
    ensures var s := g.session;
      CurrentScore(Step(g, Tick(dt), rule).player) == rule(s.moves, s.matchedPairs, s.layout.totalPairs)
  {
  }

  // ---------------------------------------------------------------------
  // Individual transitions

  /** With a player, Start Game lays the deck dealt for the chosen
      difficulty and theme on the table, card for card, and every card on
      it has a partner showing the same picture. */
  lemma StartDealsPartneredTable(g: Game, scan: seq<string>, draws: seq<nat>)
    requires g.player.Some?
    ensures var r := StartPlaying(g, scan, draws);
      && r.session.cards == Session.Sprites(Deck.DealtDeck(LayoutOf(g.difficulty), g.theme, scan, draws))
      && Session.TablePartnered(r.session.cards)
  {
    var l := LayoutOf(g.difficulty);
    var deck := Deck.DealtDeck(l, g.theme, scan, draws);
    Deck.DeckCardsHavePartners(l, g.theme, scan, draws, deck);
    Session.SpritesKeepPartners(deck);
  }

  /** Start Game does nothing without a player. With one, play begins on a
      fresh table of the chosen difficulty: the dealt deck, every card face
      down, clickable and partnered, no moves, no pairs, no win, the elapsed
      time at zero. */
  lemma StartGameOutcome(g: Game, scan: seq<string>, draws: seq<nat>, rule: ScoreRule)
    requires g.open && g.mode == Setup
    ensures var r := Step(g, StartGame(scan, draws), rule);
      && (g.player.None? ==> r == g)
      && (g.player.Some? ==>
        && r.mode == Playing && r.session.isGameActive
        && r.session.moves == 0 && r.session.matchedPairs == 0 && !r.session.hasWon
        && r.session.layout == LayoutOf(g.difficulty)
        && |r.session.cards| == r.session.layout.rows * r.session.layout.cols
        && (forall k :: 0 <= k < |r.session.cards| ==>
              r.session.cards[k].state == Session.Hidden && r.session.cards[k].clickable)
        && r.elapsed == 0 && r.store == g.store && r.player == g.player
        && r.session.cards == Session.Sprites(Deck.DealtDeck(LayoutOf(g.difficulty), g.theme, scan, draws))
        && Session.TablePartnered(r.session.cards))
  {
    var r := Step(g, StartGame(scan, draws), rule);
    assert r == StartPlaying(g, scan, draws);
    if g.player.Some? {
      var l := LayoutOf(g.difficulty);
      var deck := Deck.DealtDeck(l, g.theme, scan, draws);
      Deck.CorrectionNeverApplies(l, g.theme, scan, draws);
      Session.ResetDealsFaceDown(l, deck);
      assert r.session == Session.Reset(l, deck).(isGameActive := true);
      StartDealsPartneredTable(g, scan, draws);
    }
  }

  /** Pausing applies only during play and resuming only on the pause screen;
      pausing and then resuming gives back the very same game. */
  lemma PauseResumeRoundTrip(g: Game, rule: ScoreRule)
    requires Inv(g) && g.open
    ensures Step(g, PauseGame, rule).mode == Paused <==> g.mode == Playing || g.mode == Paused
    ensures g.mode != Playing ==> Step(g, PauseGame, rule) == g
    ensures g.mode != Paused ==> Step(g, ResumeGame, rule) == g
    ensures g.mode == Playing ==>
      !Step(g, PauseGame, rule).session.isGameActive
      && Step(Step(g, PauseGame, rule), ResumeGame, rule) == g
  {
  }

  /** Giving up during play ends it on the lose screen; with a database the
      result is saved with the score halved toward zero. */
  lemma SurrenderOutcome(g: Game, rule: ScoreRule)
    requires Inv(g) && g.open && g.mode == Playing
    ensures var r := Step(g, Surrender, rule);
      var s := g.session;
      var score := rule(s.moves, s.matchedPairs, s.layout.totalPairs);
      && r.mode == GameOverLose && !r.session.isGameActive
      && r.player.Some? && CurrentScore(r.player) == score
      && (g.store.Some? ==>
            r.store.Some? && r.store.value ==
            g.store.value + [GameRecord(g.player.value.name, HalveTowardZero(CurrentScore(r.player)), s.moves,
                                        s.matchedPairs, g.elapsed, DifficultyLabel(g.difficulty))])
      && (g.store.None? ==> r.store.None?)
  {
  }

  /** Surrender is refused when play is not on. The state this describes is
      never reached: under the invariant play is always on while the play
      screen shows (PlayScreenMeansPlayOn), so the guard is dead code here as
      it is in Game.cpp. */
  lemma SurrenderNeedsActiveGame(g: Game, rule: ScoreRule)
    requires g.mode == Playing && !g.session.isGameActive
    ensures Step(g, Surrender, rule) == g
  {
  }

  /** While the play screen shows, play is on. */
  lemma PlayScreenMeansPlayOn(g: Game)
    requires Inv(g) && g.mode == Playing
    ensures g.session.isGameActive
  {
  }

  /** When the flip ends on the last pair, the win screen shows and the
      saved record counts every pair, at least as many moves as pairs, the
      full score the game reports, and a label that names exactly the
      difficulty the table was dealt for. */
  lemma WinOutcome(g: Game, rule: ScoreRule)
    requires Inv(g) && g.open && g.mode == Playing
    requires Step(g, FlipDone, rule).mode == GameOverWin
    ensures var r := Step(g, FlipDone, rule);
      && r.session.hasWon && !r.session.isGameActive
      && r.session.matchedPairs == r.session.layout.totalPairs
      && r.session.moves == g.session.moves
      && (g.store.Some? ==>
        && r.store.Some? && |r.store.value| == |g.store.value| + 1
        && var rec := r.store.value[|g.store.value|];
        && rec.playerName == g.player.value.name
        && rec.pairs == g.session.layout.totalPairs
        && rec.moves >= rec.pairs
        && rec.score == CurrentScore(r.player)
        && CurrentScore(r.player) == rule(rec.moves, rec.pairs, g.session.layout.totalPairs)
        && rec.time == g.elapsed
        && rec.difficulty == DifficultyLabel(g.difficulty)
        && (forall d :: rec.difficulty == DifficultyLabel(d) ==> LayoutOf(d) == g.session.layout))
  {
    FlipDoneKeepsInv(g, rule);
    var r := Step(g, FlipDone, rule);
    Session.PairsBounded(r.session);
    forall d | DifficultyLabel(d) == DifficultyLabel(g.difficulty)
      ensures LayoutOf(d) == g.session.layout
    {
      DifficultyLabelInjective(d, g.difficulty);
    }
  }

  /** The Menu button during play leaves play switched on: only the screen
      changes. */
  lemma MenuLeavesGameActive(g: Game, rule: ScoreRule)
    requires Inv(g) && g.open && g.mode == Playing
    ensures Step(g, ToMenu, rule) == g.(mode := MainMenu)
    ensures Step(g, ToMenu, rule).session.isGameActive
  {
  }

  /** Restart, during play or on the pause screen, goes back to typing a
      name with an empty buffer; the play-through is left as it was apart
      from its win flag, and play stays switched on if it was. */
  lemma RestartEntersName(g: Game, rule: ScoreRule)
    requires g.open && (g.mode == Playing || g.mode == Paused)
    ensures var r := Step(g, Restart, rule);
      && r.mode == EnterName && r.nameBuffer == []
      && r.session == g.session.(hasWon := false)
      && r.player == g.player && r.store == g.store
  {
  }

  /** Enter on the name screen creates the player from the typed name and
      goes to setup, but only when a name was typed. */
  lemma NameConfirmed(g: Game, rule: ScoreRule)
    requires g.open && g.mode == EnterName
    ensures var r := Step(g, Key(NameEntry.Enter), rule);
      && (|g.nameBuffer| > 0 ==>
            r.mode == Setup && r.player == Some(Player(g.nameBuffer, 0)) && CurrentScore(r.player) == 0)
      && (|g.nameBuffer| == 0 ==> r == g)
  {
  }

  /** On the setup screen the two cycling buttons change only the
      difficulty and the theme respectively. */
  lemma SetupCycles(g: Game, rule: ScoreRule)
    requires g.open && g.mode == Setup
    ensures Step(g, CycleDifficulty, rule) == g.(difficulty := NextDifficulty(g.difficulty))
    ensures Step(g, CycleTheme, rule) == g.(theme := NextTheme(g.theme))
  {
  }

  /** k presses of the difficulty button on the setup screen. */
  lemma {:induction false} DifficultyPresses(g: Game, k: nat, rule: ScoreRule)
    requires g.open && g.mode == Setup
    ensures Run(g, seq(k, _ => CycleDifficulty), rule) == g.(difficulty := PressDifficulty(g.difficulty, k))
    decreases k
  {
    if k > 0 {
      var next := Step(g, CycleDifficulty, rule);
      assert seq(k, _ => CycleDifficulty)[1..] == seq(k - 1, _ => CycleDifficulty);
      DifficultyPresses(next, k - 1, rule);
    }
  }

  /** k presses of the theme button on the setup screen. */
  lemma {:induction false} ThemePresses(g: Game, k: nat, rule: ScoreRule)
    requires g.open && g.mode == Setup
    ensures Run(g, seq(k, _ => CycleTheme), rule) == g.(theme := PressTheme(g.theme, k))
    decreases k
  {
    if k > 0 {
      var next := Step(g, CycleTheme, rule);
      assert seq(k, _ => CycleTheme)[1..] == seq(k - 1, _ => CycleTheme);
      ThemePresses(next, k - 1, rule);
    }
  }

  /** The setup screen comes back to where it was after k presses of the
      difficulty button exactly when k is a multiple of 4, and after k
      presses of the theme button exactly when k is a multiple of 5. */
  lemma SetupPeriods(g: Game, k: nat, rule: ScoreRule)
    requires g.open && g.mode == Setup
    ensures Run(g, seq(k, _ => CycleDifficulty), rule) == g <==> k % 4 == 0
    ensures Run(g, seq(k, _ => CycleTheme), rule) == g <==> k % 5 == 0
  {
    DifficultyPresses(g, k, rule);
    ThemePresses(g, k, rule);
    DifficultyPeriod(g.difficulty, k);
    ThemePeriod(g.theme, k);
  }

  /** The contact screen is opened from settings only, remembers settings as
      the screen to return to, and Back from it returns there with nothing
      else changed. */
  lemma ContactRoundTrip(g: Game, rule: ScoreRule)
    requires Inv(g) && g.open && g.mode == Settings
    ensures Step(g, ContactDeveloper, rule).mode == ContactForm
    ensures Step(Step(g, ContactDeveloper, rule), Back, rule) == g.(previous := Settings)
  {
  }

  /** Back on the contact screen always lands on settings. */
  lemma ContactBackToSettings(g: Game, rule: ScoreRule)
    requires Inv(g) && g.open && g.mode == ContactForm
    ensures Step(g, Back, rule).mode == Settings
  {
  }

  /** Continue on either game-over screen goes to the main menu and changes
      nothing else. */
  lemma ContinueToMenu(g: Game, rule: ScoreRule)
    requires g.open && (g.mode == GameOverWin || g.mode == GameOverLose)
    ensures Step(g, Continue, rule) == g.(mode := MainMenu)
  {
  }

  /** Time counts only during active play. */
  lemma TimeCountsOnlyInPlay(g: Game, dt: nat, rule: ScoreRule)
    requires Inv(g)
    ensures Step(g, Tick(dt), rule).elapsed ==
      g.elapsed + (if g.open && g.mode == Playing then dt else 0)
  {
  }

  /** Play is entered only by an accepted Start Game on the setup screen or
      by Resume on the pause screen, and the pause screen only by pausing
      play. */
  lemma PlayEnteredOnlyByStartOrResume(g: Game, e: Event, rule: ScoreRule)
    requires Inv(g)
    ensures var r := Step(g, e, rule);
      r.mode == Playing && g.mode != Playing ==>
        StartAccepted(g, e) || (g.mode == Paused && e.ResumeGame?)
    ensures var r := Step(g, e, rule);
      r.mode == Paused && g.mode != Paused ==> g.mode == Playing && e.PauseGame?
  {
  }

  /** Play never gets stuck: on the play screen, once the flip has settled
      and while pairs remain to be found, some face-down card turns up when
      clicked (and not the one already up, when a move is half made). */
  lemma PlayNeverStuck(g: Game, rule: ScoreRule)
    requires Inv(g) && g.open && g.mode == Playing && !g.session.isFlipping
    requires g.session.matchedPairs < g.session.layout.totalPairs
    ensures exists i ::
      && 0 <= i < |g.session.cards|
      && g.session.cards[i].state == Session.Hidden
      && Step(g, CardClicked(i), rule).session.cards[i].state == Session.Revealed
      && (g.session.firstCardSelected ==> i != g.session.selected1)
  {
    var s := g.session;
    assert |s.cards| > 0;
    Session.ClickAvailable(s);
    var i :| Session.AcceptsClick(s, i) && (Session.OneSelected(s) ==> i != s.selected1);
    assert Step(g, CardClicked(i), rule).session == Session.ClickCard(s, i);
  }

  /** Cards respond to clicks only during play. */
  lemma ClicksOnlyInPlay(g: Game, i: int, rule: ScoreRule)
    requires g.mode != Playing
    ensures Step(g, CardClicked(i), rule).session == g.session
  {
  }
}
