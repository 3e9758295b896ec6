/** One play-through: the cards on the table, the two-card selection, the
    move and pair counters and the win flag. The flip animation timer and the
    settle delay after a mismatch are not modelled as time: the flip finishing
    is one discrete event, and the match check it triggers runs at once, as in
    the program. Selected cards are referred to by index only; a selection
    index in range stands for the program's non-null card pointer. */
module Session {
  import opened Layouts
  import opened Deck

  datatype CardState = Hidden | Revealed | Matched

  /** A card on the table: id, picture, face state and whether it accepts
      clicks. */
  datatype CardSprite = CardSprite(id: int, symbol: string, state: CardState, clickable: bool)

  datatype Session = Session(
    layout: Layout,
    cards: seq<CardSprite>,
    matchedPairs: int,
    moves: int,
    isGameActive: bool,
    isFlipping: bool,
    isChecking: bool,
    firstCardSelected: bool,
    selected1: int,
    selected2: int,
    hasWon: bool)

  /** The selection index meaning "no card". */
  const NoCard: int := -1

  /** What a flip ending led to. */
  datatype Resolution = NoResolution | Match | Mismatch | Win

  /** The session fields as the game object is constructed. */
  const Initial: Session :=
    Session(InitialLayout, [], 0, 0, false, false, false, false, NoCard, NoCard, false)

  /** Whether k designates a card on the table. */
  predicate OnTable(s: Session, k: int) {
    0 <= k < |s.cards|
  }

  /** Cards are laid out face down and clickable. */
  function Sprites(deck: seq<Card>): (r: seq<CardSprite>)
    ensures |r| == |deck|
  {
    seq(|deck|, i requires 0 <= i < |deck| => CardSprite(deck[i].id, deck[i].symbol, Hidden, true))
  }

  /** The session part of a game reset: counters, flags and selection
      cleared, a new table laid out from the deck, the game not yet active. */
  function Reset(l: Layout, deck: seq<Card>): Session {
    Session(l, Sprites(deck), 0, 0, false, false, false, false, NoCard, NoCard, false)
  }

  // ---------------------------------------------------------------------
  // Selection

  /** The test the event loop applies before passing a click on card i on. */
  predicate PassesEventFilter(s: Session, i: int) {
    && OnTable(s, i)
    && s.cards[i].state == Hidden
    && s.cards[i].clickable
    && !s.isFlipping
    && !s.isChecking
  }

  /** The click handler's own guards: weaker than the event filter, it lets
      a Revealed or Matched card through. */
  predicate PassesHandlerGuard(s: Session, i: int) {
    && s.isGameActive
    && !s.isFlipping
    && !s.isChecking
    && OnTable(s, i)
    && !(s.cards[i].state == Hidden && !s.cards[i].clickable)
  }

  /** The click handler on its own. */
  function HandleCardClick(s: Session, i: int): (r: Session)
    ensures !PassesHandlerGuard(s, i) ==> r == s
    ensures PassesHandlerGuard(s, i) ==>
      |r.cards| == |s.cards| && r.cards[i].state == Revealed && !r.cards[i].clickable
  {
    if !PassesHandlerGuard(s, i) then s
    else
      var cards := s.cards[i := s.cards[i].(state := Revealed, clickable := false)];
      if !s.firstCardSelected then
        s.(cards := cards, firstCardSelected := true, selected1 := i, isFlipping := true)
      else
        s.(cards := cards, selected2 := i, isFlipping := true, moves := s.moves + 1, firstCardSelected := false)
  }

  /** The two guards together: what a click on card i needs to take effect. */
  predicate AcceptsClick(s: Session, i: int) {
    s.isGameActive && PassesEventFilter(s, i)
  }

  /** A click on card i during play: the event filter, then the handler. A
      click that is accepted turns that card face up and makes it unclickable;
      the first card of a move leaves the move counter alone, the second adds
      exactly one. Any other click changes nothing. */
  function ClickCard(s: Session, i: int): (r: Session)
    ensures !AcceptsClick(s, i) ==> r == s
    ensures AcceptsClick(s, i) ==>
      && |r.cards| == |s.cards|
      && r.cards[i] == s.cards[i].(state := Revealed, clickable := false)
      && (forall k :: 0 <= k < |s.cards| && k != i ==> r.cards[k] == s.cards[k])
      && r.isFlipping
      && r.matchedPairs == s.matchedPairs
      && r.layout == s.layout && r.hasWon == s.hasWon && r.isGameActive == s.isGameActive
    ensures AcceptsClick(s, i) && !s.firstCardSelected ==>
      r.firstCardSelected && r.selected1 == i && r.selected2 == s.selected2 && r.moves == s.moves
    ensures AcceptsClick(s, i) && s.firstCardSelected ==>
      !r.firstCardSelected && r.selected1 == s.selected1 && r.selected2 == i && r.moves == s.moves + 1
  {
    if PassesEventFilter(s, i) then HandleCardClick(s, i) else s
  }

  /** Through the event filter, the handler's weaker guard never decides
      anything: a filtered click passes the handler exactly when the game is
      active. */
  lemma FilterSubsumesHandlerGuard(s: Session, i: int)
    requires PassesEventFilter(s, i)
    ensures PassesHandlerGuard(s, i) <==> s.isGameActive
  {
  }

  /** The handler alone would accept a click on a face-up card during play;
      only the event filter keeps such clicks out. */
  lemma HandlerAloneAcceptsRevealedCard(s: Session, i: int)
    requires s.isGameActive && !s.isFlipping && !s.isChecking
    requires OnTable(s, i) && s.cards[i].state == Revealed
    ensures PassesHandlerGuard(s, i) && !PassesEventFilter(s, i)
  {
  }

  // ---------------------------------------------------------------------
  // Resolution

  /** Forgets the selection once a pair has been resolved. */
  function ClearSelection(s: Session): Session {
    s.(selected1 := NoCard, selected2 := NoCard, isChecking := false)
  }

  /** Whether the match check finds two selected cards and its flag set. */
  predicate ReadyToResolve(s: Session) {
    OnTable(s, s.selected1) && OnTable(s, s.selected2) && s.isChecking
  }

  /** The match check. Two cards match exactly when their pictures are equal.
      A match marks both Matched and counts a pair; when that completes the
      board and no win was recorded, the win is recorded, play stops and the
      selection is kept. A mismatch turns both face down and clickable again.
      Except after a win, the selection and the checking flag are cleared. */
  function ProcessCardMatch(s: Session): (r: (Session, Resolution))
    ensures !ReadyToResolve(s) ==> r == (s, NoResolution)
    ensures ReadyToResolve(s) ==>
      && r.1 != NoResolution
      && ((r.1 == Match || r.1 == Win) <==> s.cards[s.selected1].symbol == s.cards[s.selected2].symbol)
      && |r.0.cards| == |s.cards|
      && (forall k :: 0 <= k < |s.cards| && k != s.selected1 && k != s.selected2 ==> r.0.cards[k] == s.cards[k])
    ensures ReadyToResolve(s) && r.1 != Mismatch ==>
      && r.0.cards[s.selected1].state == Matched && r.0.cards[s.selected2].state == Matched
      && r.0.matchedPairs == s.matchedPairs + 1
    ensures ReadyToResolve(s) && r.1 == Mismatch ==>
      && r.0.cards[s.selected1] == s.cards[s.selected1].(state := Hidden, clickable := true)
      && r.0.cards[s.selected2] == s.cards[s.selected2].(state := Hidden, clickable := true)
      && r.0.matchedPairs == s.matchedPairs
    ensures r.1 == Win <==>
      ReadyToResolve(s) && r.1 != Mismatch && s.matchedPairs + 1 >= s.layout.totalPairs && !s.hasWon
    ensures r.1 == Win ==>
      r.0.hasWon && !r.0.isGameActive && r.0.isChecking
      && r.0.selected1 == s.selected1 && r.0.selected2 == s.selected2
    ensures ReadyToResolve(s) && r.1 != Win ==>
      r.0.selected1 == NoCard && r.0.selected2 == NoCard && !r.0.isChecking
      && r.0.hasWon == s.hasWon && r.0.isGameActive == s.isGameActive
    ensures r.0.moves == s.moves && r.0.layout == s.layout && r.0.isFlipping == s.isFlipping
    ensures r.0.firstCardSelected == s.firstCardSelected
  {
    if !ReadyToResolve(s) then (s, NoResolution)
    else
      var a, b := s.selected1, s.selected2;
      if s.cards[a].symbol == s.cards[b].symbol then
        var cards := s.cards[a := s.cards[a].(state := Matched)][b := s.cards[b].(state := Matched)];
        var found := s.(cards := cards, matchedPairs := s.matchedPairs + 1);
        if found.matchedPairs >= found.layout.totalPairs && !found.hasWon then
          (found.(hasWon := true, isGameActive := false), Win)
        else
          (ClearSelection(found), Match)
      else
        var cards := s.cards[a := s.cards[a].(state := Hidden, clickable := true)]
                            [b := s.cards[b].(state := Hidden, clickable := true)];
        (ClearSelection(s.(cards := cards, isChecking := false)), Mismatch)
  }

  /** The flip animation finishing: the flipping flag drops, and when two
      cards are selected the match check runs straight away. */
  function FlipSettles(s: Session): (r: (Session, Resolution))
    ensures !s.isFlipping ==> r == (s, NoResolution)
    ensures s.isFlipping ==> !r.0.isFlipping
    ensures s.isFlipping && !(OnTable(s, s.selected1) && OnTable(s, s.selected2)) ==>
      r == (s.(isFlipping := false), NoResolution)
  {
    if !s.isFlipping then (s, NoResolution)
    else
      var settled := s.(isFlipping := false);
      if OnTable(settled, settled.selected1) && OnTable(settled, settled.selected2) then
        ProcessCardMatch(settled.(isChecking := true))
      else
        (settled, NoResolution)
  }

  // ---------------------------------------------------------------------
  // Counting matched cards

  function MatchedCount(cards: seq<CardSprite>): (n: nat)
    ensures n <= |cards|
  {
    if |cards| == 0 then 0
    else MatchedCount(cards[..|cards| - 1]) + (if cards[|cards| - 1].state == Matched then 1 else 0)
  }

  predicate AllMatched(cards: seq<CardSprite>) {
    forall k :: 0 <= k < |cards| ==> cards[k].state == Matched
  }

  /** Overwriting one card changes the count by that card's contribution. */
  lemma {:induction false} MatchedCountUpdate(cards: seq<CardSprite>, i: int, c: CardSprite)
    requires 0 <= i < |cards|
    ensures MatchedCount(cards[i := c]) ==
      MatchedCount(cards) - (if cards[i].state == Matched then 1 else 0) + (if c.state == Matched then 1 else 0)
    decreases |cards|
  {
    var n := |cards| - 1;
    var u := cards[i := c];
    if i < n {
      assert u[..n] == cards[..n][i := c];
      MatchedCountUpdate(cards[..n], i, c);
    } else {
      assert u[..n] == cards[..n];
    }
  }

  /** The count reaches the table size exactly when every card is matched. */
  lemma {:induction false} MatchedCountFull(cards: seq<CardSprite>)
    ensures MatchedCount(cards) == |cards| <==> AllMatched(cards)
    decreases |cards|
  {
    if |cards| > 0 {
      var n := |cards| - 1;
      MatchedCountFull(cards[..n]);
      if AllMatched(cards) {
        assert AllMatched(cards[..n]);
      }
      if MatchedCount(cards) == |cards| {
        assert MatchedCount(cards[..n]) == n;
        forall k | 0 <= k < |cards|
          ensures cards[k].state == Matched
        {
          if k < n {
            assert cards[k] == cards[..n][k];
          }
        }
      }
    }
  }

  /** A table where no card is matched counts zero. */
  lemma {:induction false} MatchedCountNone(cards: seq<CardSprite>)
    requires forall k :: 0 <= k < |cards| ==> cards[k].state != Matched
    ensures MatchedCount(cards) == 0
    decreases |cards|
  {
    if |cards| > 0 {
      MatchedCountNone(cards[..|cards| - 1]);
    }
  }

  // ---------------------------------------------------------------------
  // The session invariant

  /** Nothing selected, nothing in motion. */
  predicate Idle(s: Session) {
    !s.firstCardSelected && s.selected1 == NoCard && s.selected2 == NoCard && !s.isFlipping && !s.isChecking
  }

  /** The first card of a move is up. */
  predicate OneSelected(s: Session) {
    s.firstCardSelected && OnTable(s, s.selected1) && s.selected2 == NoCard && !s.isChecking
  }

  /** Both cards of a move are up and the flip has not finished. */
  predicate TwoSelected(s: Session) {
    && !s.firstCardSelected && OnTable(s, s.selected1) && OnTable(s, s.selected2)
    && s.selected1 != s.selected2 && s.isFlipping && !s.isChecking
  }

  /** The last pair was found; the session stays as the win left it. */
  predicate Won(s: Session) {
    && !s.firstCardSelected && OnTable(s, s.selected1) && OnTable(s, s.selected2)
    && s.selected1 != s.selected2 && !s.isFlipping && s.isChecking
    && s.matchedPairs == s.layout.totalPairs
  }

  predicate Inv(s: Session) {
    && ValidLayout(s.layout)
    && (|s.cards| == 0 || |s.cards| == 2 * s.layout.totalPairs)
    && (forall k :: 0 <= k < |s.cards| ==> (s.cards[k].clickable <==> s.cards[k].state == Hidden))
    && (forall k :: 0 <= k < |s.cards| ==>
          (s.cards[k].state == Revealed <==> !s.isChecking && (k == s.selected1 || k == s.selected2)))
    && 0 <= s.matchedPairs
    && MatchedCount(s.cards) == 2 * s.matchedPairs
    && s.matchedPairs + (if TwoSelected(s) then 1 else 0) <= s.moves
    && (Idle(s) || OneSelected(s) || TwoSelected(s) || Won(s))
    && (s.hasWon ==> Won(s))
  }

  /** A reset deals the deck face down and clickable, with no moves, no
      pairs, no selection and no win. */
  lemma ResetDealsFaceDown(l: Layout, deck: seq<Card>)
    ensures var r := Reset(l, deck);
      && r.layout == l && |r.cards| == |deck|
      && (forall k :: 0 <= k < |r.cards| ==> r.cards[k].state == Hidden && r.cards[k].clickable)
      && (forall k :: 0 <= k < |r.cards| ==> r.cards[k].symbol == deck[k].symbol && r.cards[k].id == deck[k].id)
      && r.moves == 0 && r.matchedPairs == 0 && !r.hasWon && Idle(r)
  {
  }

  lemma InitialInv()
    ensures Inv(Initial)
  {
  }

  /** A reset on a deck of the layout's size starts a valid, idle session. */
  lemma ResetInv(l: Layout, deck: seq<Card>)
    requires ValidLayout(l)
    requires |deck| == l.rows * l.cols
    ensures Inv(Reset(l, deck)) && Idle(Reset(l, deck))
    ensures Reset(l, deck).matchedPairs == 0 && Reset(l, deck).moves == 0
  {
    MatchedCountNone(Sprites(deck));
  }

  /** The pair counter never exceeds the number of pairs, and it reaches it
      exactly when every card on the table is matched. */
  lemma PairsBounded(s: Session)
    requires Inv(s)
    ensures s.matchedPairs <= s.layout.totalPairs
    ensures s.matchedPairs <= s.moves
    ensures |s.cards| > 0 ==> (s.matchedPairs == s.layout.totalPairs <==> AllMatched(s.cards))
  {
    MatchedCountFull(s.cards);
  }

  /** A table with exactly one unmatched card has an odd matched count. */
  lemma OneUnmatchedCount(cards: seq<CardSprite>, a: int)
    requires 0 <= a < |cards| && cards[a].state != Matched
    requires forall k :: 0 <= k < |cards| && k != a ==> cards[k].state == Matched
    ensures MatchedCount(cards) == |cards| - 1
  {
    var up := cards[a].(state := Matched);
    var c := cards[a := up];
    assert AllMatched(c);
    MatchedCountFull(c);
    MatchedCountUpdate(cards, a, up);
  }

  /** On an idle table with pairs still to find, some face-down card
      accepts a click. */
  lemma FirstClickAvailable(s: Session)
    requires Inv(s) && s.isGameActive && Idle(s)
    requires |s.cards| > 0 && s.matchedPairs < s.layout.totalPairs
    ensures exists i :: AcceptsClick(s, i)
  {
    PairsBounded(s);
    assert !AllMatched(s.cards);
    var k :| 0 <= k < |s.cards| && s.cards[k].state != Matched;
    assert s.cards[k].state == Hidden;
    assert AcceptsClick(s, k);
  }

  /** With the first card of a move up and the flip over, another face-down
      card accepts a click. This rests on parity: matched cards come in twos
      on a table of an even number of cards, so the card that is up is never
      the last unmatched one. */
  lemma SecondClickAvailable(s: Session)
    requires Inv(s) && s.isGameActive && OneSelected(s) && !s.isFlipping
    requires |s.cards| > 0
    ensures exists i :: AcceptsClick(s, i) && i != s.selected1
  {
    var a := s.selected1;
    if forall k :: 0 <= k < |s.cards| && k != a ==> s.cards[k].state == Matched {
      assert s.cards[a].state == Revealed;
      OneUnmatchedCount(s.cards, a);
      assert false;
    }
    var k :| 0 <= k < |s.cards| && k != a && s.cards[k].state != Matched;
    assert s.cards[k].state == Hidden;
    assert AcceptsClick(s, k);
  }

  /** While pairs remain to be found and nothing is flipping, the play can
      go on: some card accepts a click, and when the first card of a move is
      up, a card other than that one. */
  lemma ClickAvailable(s: Session)
    requires Inv(s) && s.isGameActive && !s.isFlipping
    requires |s.cards| > 0 && s.matchedPairs < s.layout.totalPairs
    ensures Idle(s) || OneSelected(s)
    ensures exists i :: AcceptsClick(s, i) && (OneSelected(s) ==> i != s.selected1)
  {
    if Idle(s) {
      FirstClickAvailable(s);
      var i :| AcceptsClick(s, i);
      assert !OneSelected(s);
    } else {
      SecondClickAvailable(s);
    }
  }

  // ---------------------------------------------------------------------
  // Pictures on the table

  /** Card i on the table has another card showing the same picture. */
  predicate SpriteHasPartner(cards: seq<CardSprite>, i: int)
    requires 0 <= i < |cards|
  {
    exists j :: 0 <= j < |cards| && j != i && cards[j].symbol == cards[i].symbol
  }

  /** Every card on the table has another card showing the same picture. */
  predicate TablePartnered(cards: seq<CardSprite>) {
    forall i :: 0 <= i < |cards| ==> SpriteHasPartner(cards, i)
  }

  /** Laying a deck out keeps every card's partner. */
  lemma SpritesKeepPartners(deck: seq<Card>)
    requires EveryCardPartnered(deck)
    ensures TablePartnered(Sprites(deck))
  {
    var r := Sprites(deck);
    forall i | 0 <= i < |r|
      ensures SpriteHasPartner(r, i)
    {
      assert HasPartner(deck, i);
      var j :| 0 <= j < |deck| && j != i && deck[j].symbol == deck[i].symbol;
      assert r[j].symbol == r[i].symbol;
    }
  }

  /** Two tables with the same card at every position, up to face state and
      clickability. */
  predicate SameFaces(a: seq<CardSprite>, b: seq<CardSprite>) {
    |a| == |b| && forall k :: 0 <= k < |a| ==> a[k].symbol == b[k].symbol && a[k].id == b[k].id
  }

  /** Whether cards have partners depends only on their pictures. */
  lemma FacesKeepPartners(a: seq<CardSprite>, b: seq<CardSprite>)
    requires SameFaces(a, b) && TablePartnered(a)
    ensures TablePartnered(b)
  {
    forall i | 0 <= i < |b|
      ensures SpriteHasPartner(b, i)
    {
      assert SpriteHasPartner(a, i);
      var j :| 0 <= j < |a| && j != i && a[j].symbol == a[i].symbol;
      assert b[j].symbol == b[i].symbol;
    }
  }

  /** A click only turns a card; no card changes picture or id. */
  lemma ClickKeepsFaces(s: Session, i: int)
    ensures SameFaces(s.cards, ClickCard(s, i).cards)
  {
  }

  /** The end of a flip only turns cards; no card changes picture or id. */
  lemma FlipSettlesKeepsFaces(s: Session)
    ensures SameFaces(s.cards, FlipSettles(s).0.cards)
  {
  }

  /** Accepted or not, a click keeps the invariant; the second card of a
      move is never the card already turned up. */
  lemma ClickKeepsInv(s: Session, i: int)
    requires Inv(s)
    ensures Inv(ClickCard(s, i))
    ensures AcceptsClick(s, i) && s.firstCardSelected ==> ClickCard(s, i).selected1 != i
  {
    if AcceptsClick(s, i) {
      var r := ClickCard(s, i);
      MatchedCountUpdate(s.cards, i, s.cards[i].(state := Revealed, clickable := false));
      assert Idle(s) || OneSelected(s) by {
        assert !s.isFlipping && !s.isChecking;
      }
      if OneSelected(s) {
        assert s.cards[s.selected1].state == Revealed;
        assert i != s.selected1;
        assert TwoSelected(r);
      } else {
        assert OneSelected(r);
      }
    }
  }

  /** A flip ending keeps the invariant. */
  lemma FlipSettlesKeepsInv(s: Session)
    requires Inv(s)
    ensures Inv(FlipSettles(s).0)
  {
    if s.isFlipping {
      var settled := s.(isFlipping := false);
      if OneSelected(s) {
        assert FlipSettles(s).0 == settled;
        assert OneSelected(settled);
      } else {
        assert TwoSelected(s);
        ResolveKeepsInv(s);
      }
    }
  }

  /** Resolving the two cards of a move keeps the invariant: a match adds two
      matched cards and one pair, a mismatch turns two face-up cards down. */
  lemma ResolveKeepsInv(s: Session)
    requires Inv(s) && TwoSelected(s)
    ensures Inv(FlipSettles(s).0)
  {
    if s.cards[s.selected1].symbol == s.cards[s.selected2].symbol {
      MatchKeepsInv(s);
    } else {
      MismatchKeepsInv(s);
    }
  }

  lemma MatchKeepsInv(s: Session)
    requires Inv(s) && TwoSelected(s)
    requires s.cards[s.selected1].symbol == s.cards[s.selected2].symbol
    ensures Inv(FlipSettles(s).0)
  {
    var a, b := s.selected1, s.selected2;
    var cards := s.cards[a := s.cards[a].(state := Matched)][b := s.cards[b].(state := Matched)];
    var found := s.(isFlipping := false, isChecking := true, cards := cards, matchedPairs := s.matchedPairs + 1);
    MatchedCardsCount(s);
    if found.matchedPairs >= found.layout.totalPairs {
      assert FlipSettles(s).0 == found.(hasWon := true, isGameActive := false);
      assert Won(found);
    } else {
      assert FlipSettles(s).0 == ClearSelection(found);
      assert Idle(ClearSelection(found));
    }
  }

  /** Marking the two selected cards of a move as matched: the count grows by
      two, which stays within the table, and no card is left face up. */
  lemma MatchedCardsCount(s: Session)
    requires Inv(s) && TwoSelected(s)
    ensures var a, b := s.selected1, s.selected2;
      var cards := s.cards[a := s.cards[a].(state := Matched)][b := s.cards[b].(state := Matched)];
      && MatchedCount(cards) == 2 * (s.matchedPairs + 1)
      && s.matchedPairs + 1 <= s.layout.totalPairs
      && (forall k :: 0 <= k < |cards| ==> cards[k].state != Revealed)
      && (forall k :: 0 <= k < |cards| ==> (cards[k].clickable <==> cards[k].state == Hidden))
  {
    var a, b := s.selected1, s.selected2;
    assert s.cards[a].state == Revealed && s.cards[b].state == Revealed;
    var c1 := s.cards[a := s.cards[a].(state := Matched)];
    MatchedCountUpdate(s.cards, a, s.cards[a].(state := Matched));
    MatchedCountUpdate(c1, b, s.cards[b].(state := Matched));
  }

  lemma MismatchKeepsInv(s: Session)
    requires Inv(s) && TwoSelected(s)
    requires s.cards[s.selected1].symbol != s.cards[s.selected2].symbol
    ensures Inv(FlipSettles(s).0)
  {
    var a, b := s.selected1, s.selected2;
    var r := ProcessCardMatch(s.(isFlipping := false, isChecking := true));
    assert FlipSettles(s) == r;
    assert s.cards[a].state == Revealed && s.cards[b].state == Revealed;
    var c1 := s.cards[a := s.cards[a].(state := Hidden, clickable := true)];
    MatchedCountUpdate(s.cards, a, s.cards[a].(state := Hidden, clickable := true));
    MatchedCountUpdate(c1, b, s.cards[b].(state := Hidden, clickable := true));
    assert forall k :: 0 <= k < |r.0.cards| ==> r.0.cards[k].state != Revealed;
    assert Idle(r.0);
  }

  /** Resolving a move: the cards match exactly when their pictures are equal,
      the move counter is untouched, and the win is reported exactly when the
      match leaves every card on the table matched; otherwise the session is
      idle again. */
  lemma ResolveOutcome(s: Session)
    requires Inv(s) && TwoSelected(s)
    ensures var (r, o) := FlipSettles(s);
      && o != NoResolution
      && ((o == Match || o == Win) <==> s.cards[s.selected1].symbol == s.cards[s.selected2].symbol)
      && r.moves == s.moves
      && (o == Win <==> AllMatched(r.cards))
      && (o != Win ==> Idle(r))
      && (o == Win ==> r.hasWon && !r.isGameActive)
  {
    var (r, o) := FlipSettles(s);
    ResolveKeepsInv(s);
    PairsBounded(r);
    PairsBounded(s);
    if o != Win {
      assert Idle(r);
      if s.cards[s.selected1].symbol == s.cards[s.selected2].symbol {
        assert r.matchedPairs < s.layout.totalPairs;
      } else {
        assert r.cards[s.selected1].state == Hidden;
      }
    }
  }

  /** After the win nothing moves: no click is accepted and no flip is
      pending, so the win cannot be reported a second time. */
  lemma WonIsFinal(s: Session, i: int)
    requires Inv(s) && Won(s)
    ensures ClickCard(s, i) == s
    ensures FlipSettles(s) == (s, NoResolution)
  {
  }

  /** Running the match check again on a session that already recorded its
      win reports no second win. */
  lemma NoSecondWin(s: Session)
    requires s.hasWon
    ensures ProcessCardMatch(s).1 != Win
  {
  }
}
