/** The player, the result record handed to the database, and the database
    itself as an optional append-only list of records: absent when it could
    not be opened, in which case saves are skipped. */
module Records {

  datatype Option<T> = None | Some(value: T)

  /** The player: the name typed in, and the score last computed for them. */
  datatype Player = Player(name: string, score: int)

  /** The score formula, from (moves, pairs found, total pairs) to a score.
      The player's own formula is not part of this model, so every operation
      that recomputes a score takes the formula as a parameter. */
  type ScoreRule = (int, int, int) -> int

  /** One saved result. The time is in whole clock units; the save date is
      not modelled. */
  datatype GameRecord = GameRecord(
    playerName: string,
    score: int,
    moves: int,
    pairs: int,
    time: nat,
    difficulty: string)

  /** The score shown by the game: the player's, or 0 without a player. */
  function CurrentScore(player: Option<Player>): (r: int)
    ensures player.None? ==> r == 0
    ensures player.Some? ==> r == player.value.score
  {
    if player.Some? then player.value.score else 0
  }

  /** Integer division by 2 as C++ performs it: the quotient is truncated
      toward zero, so the remainder takes the sign of the dividend. */
  function HalveTowardZero(x: int): (r: int)
    ensures x >= 0 ==> 0 <= x - 2 * r <= 1
    ensures x < 0 ==> -1 <= x - 2 * r <= 0
  {
    if x >= 0 then x / 2 else -((-x) / 2)
  }

  /** The two bounds above pin the quotient down: no other value meets them. */
  lemma HalveTowardZeroUnique(x: int, q: int)
    requires x >= 0 ==> 0 <= x - 2 * q <= 1
    requires x < 0 ==> -1 <= x - 2 * q <= 0
    ensures q == HalveTowardZero(x)
  {
  }

  /** For odd negative scores, halving toward zero differs from the
      floor-style division of the model's integers. */
  lemma HalveTowardZeroOnNegativeOdd(x: int)
    requires x < 0 && x % 2 == 1
    ensures HalveTowardZero(x) == x / 2 + 1
  {
  }

  /** The database: absent, or the records saved so far, oldest first. */
  type Store = Option<seq<GameRecord>>

  /** Number of records in the database, 0 when there is none. */
  function SaveCount(store: Store): nat {
    if store.Some? then |store.value| else 0
  }

  /** Saving appends the record when there is a database and does nothing
      otherwise; earlier records are never touched. */
  function Save(store: Store, rec: GameRecord): (r: Store)
    ensures store.None? <==> r.None?
    ensures store.Some? ==>
      |r.value| == |store.value| + 1 && store.value <= r.value && r.value[|store.value|] == rec
  {
    if store.Some? then Some(store.value + [rec]) else None
  }

  /** The database after is the database before with records appended. */
  predicate AppendOnly(before: Store, after: Store) {
    (before.None? <==> after.None?) && (before.Some? ==> before.value <= after.value)
  }

  lemma AppendOnlyTransitive(a: Store, b: Store, c: Store)
    requires AppendOnly(a, b) && AppendOnly(b, c)
    ensures AppendOnly(a, c)
    ensures SaveCount(a) <= SaveCount(b) <= SaveCount(c)
  {
  }
}
