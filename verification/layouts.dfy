/** The game's closed configuration sets: the four difficulties with the board
    layout each one selects, and the five card themes. Both are cycled by a
    setup button, in declaration order, wrapping at the end. */
module Layouts {

  datatype Difficulty = Easy | Medium | Hard | Expert

  datatype Theme = Animals | Fruits | Emoji | Memes | Symbols

  /** Board dimensions and the number of pairs they hold. */
  datatype Layout = Layout(rows: int, cols: int, totalPairs: int)

  /** A layout whose cells are exactly filled by its pairs. */
  predicate ValidLayout(l: Layout) {
    l.rows > 0 && l.cols > 0 && l.totalPairs > 0 && l.rows * l.cols == 2 * l.totalPairs
  }

  /** The switch at the top of card initialisation. */
  function LayoutOf(d: Difficulty): (l: Layout)
    ensures ValidLayout(l)
  {
    match d
    case Easy => Layout(3, 4, 6)
    case Medium => Layout(4, 4, 8)
    case Hard => Layout(4, 6, 12)
    case Expert => Layout(6, 6, 18)
  }

  /** The layout the game starts with, before any deck is built. */
  const InitialLayout: Layout := Layout(4, 4, 8)

  /** The card counts the difficulty enum's documentation promises. */
  function DocumentedCardCount(d: Difficulty): nat {
    match d
    case Easy => 12
    case Medium => 16
    case Hard => 24
    case Expert => 36
  }

  /** The layout table and the enum's documentation agree: the board of every
      difficulty has the documented number of cards, which is twice its pairs. */
  lemma LayoutMatchesDocumentation(d: Difficulty)
    ensures LayoutOf(d).rows * LayoutOf(d).cols == DocumentedCardCount(d)
    ensures 2 * LayoutOf(d).totalPairs == DocumentedCardCount(d)
  {
  }

  /** The game starts on the Medium board before any deck is built. */
  lemma InitialLayoutIsMedium()
    ensures InitialLayout == LayoutOf(Medium)
    ensures ValidLayout(InitialLayout)
  {
  }

  /** Position of a difficulty in declaration order. */
  function DifficultyIndex(d: Difficulty): nat {
    match d
    case Easy => 0
    case Medium => 1
    case Hard => 2
    case Expert => 3
  }

  /** Position of a theme in declaration order. */
  function ThemeIndex(t: Theme): nat {
    match t
    case Animals => 0
    case Fruits => 1
    case Emoji => 2
    case Memes => 3
    case Symbols => 4
  }

  /** The difficulty button's switch. */
  function NextDifficulty(d: Difficulty): (n: Difficulty)
    ensures DifficultyIndex(n) == (DifficultyIndex(d) + 1) % 4
  {
    match d
    case Easy => Medium
    case Medium => Hard
    case Hard => Expert
    case Expert => Easy
  }

  /** The theme button's switch. */
  function NextTheme(t: Theme): (n: Theme)
    ensures ThemeIndex(n) == (ThemeIndex(t) + 1) % 5
  {
    match t
    case Animals => Fruits
    case Fruits => Emoji
    case Emoji => Memes
    case Memes => Symbols
    case Symbols => Animals
  }

  /** Pressing the difficulty button k times. */
  function PressDifficulty(d: Difficulty, k: nat): Difficulty
    decreases k
  {
    if k == 0 then d else PressDifficulty(NextDifficulty(d), k - 1)
  }

  /** Pressing the theme button k times. */
  function PressTheme(t: Theme, k: nat): Theme
    decreases k
  {
    if k == 0 then t else PressTheme(NextTheme(t), k - 1)
  }

  lemma DifficultyIndexInjective(a: Difficulty, b: Difficulty)
    ensures DifficultyIndex(a) == DifficultyIndex(b) ==> a == b
  {
  }

  lemma ThemeIndexInjective(a: Theme, b: Theme)
    ensures ThemeIndex(a) == ThemeIndex(b) ==> a == b
  {
  }

  /** k presses advance the difficulty k places, modulo 4. */
  lemma {:induction false} PressDifficultyIndex(d: Difficulty, k: nat)
    ensures DifficultyIndex(PressDifficulty(d, k)) == (DifficultyIndex(d) + k) % 4
    decreases k
  {
    if k > 0 {
      PressDifficultyIndex(NextDifficulty(d), k - 1);
    }
  }

  /** k presses advance the theme k places, modulo 5. */
  lemma {:induction false} PressThemeIndex(t: Theme, k: nat)
    ensures ThemeIndex(PressTheme(t, k)) == (ThemeIndex(t) + k) % 5
    decreases k
  {
    if k > 0 {
      PressThemeIndex(NextTheme(t), k - 1);
    }
  }

  /** Moving k places round a cycle of 4 comes back to the start exactly
      when k is a multiple of 4. */
  lemma {:induction false} ShiftBy4(a: nat, k: nat)
    requires a < 4
    ensures (a + k) % 4 == a <==> k % 4 == 0
    decreases k
  {
    if k >= 4 {
      ShiftBy4(a, k - 4);
    }
  }

  /** The same round a cycle of 5. */
  lemma {:induction false} ShiftBy5(a: nat, k: nat)
    requires a < 5
    ensures (a + k) % 5 == a <==> k % 5 == 0
    decreases k
  {
    if k >= 5 {
      ShiftBy5(a, k - 5);
    }
  }

  /** The difficulty cycle has period exactly 4: k presses come back to the
      starting difficulty if and only if k is a multiple of 4. */
  lemma DifficultyPeriod(d: Difficulty, k: nat)
    ensures PressDifficulty(d, k) == d <==> k % 4 == 0
  {
    PressDifficultyIndex(d, k);
    DifficultyIndexInjective(PressDifficulty(d, k), d);
    ShiftBy4(DifficultyIndex(d), k);
  }

  /** The theme cycle has period exactly 5. */
  lemma ThemePeriod(t: Theme, k: nat)
    ensures PressTheme(t, k) == t <==> k % 5 == 0
  {
    PressThemeIndex(t, k);
    ThemeIndexInjective(PressTheme(t, k), t);
    ShiftBy5(ThemeIndex(t), k);
  }

  /** The label stored with saved results. */
  function DifficultyLabel(d: Difficulty): string {
    match d
    case Easy => "Easy"
    case Medium => "Medium"
    case Hard => "Hard"
    case Expert => "Expert"
  }

  /** Distinct difficulties are saved under distinct labels. */
  lemma DifficultyLabelInjective(a: Difficulty, b: Difficulty)
    ensures DifficultyLabel(a) == DifficultyLabel(b) ==> a == b
  {
  }

  /** The sub-folder of the image directory that holds a theme's pictures. */
  function ThemeFolder(t: Theme): string {
    match t
    case Animals => "animals"
    case Fruits => "fruits"
    case Emoji => "emoji"
    case Memes => "memes"
    case Symbols => "symbols"
  }

  /** The directory searched for a theme's pictures. */
  function ImageDir(t: Theme): string {
    "assets/images/" + ThemeFolder(t) + "/"
  }
}
