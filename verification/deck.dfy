/** Deck building: the difficulty fixes the number of pairs, the theme's
    pictures are chosen cyclically (synthetic names stand in when the theme has
    none), every chosen picture becomes two cards with consecutive ids, and the
    cards are shuffled. A final size correction truncates or pads the deck; it
    is proved here never to change anything. */
module Deck {
  import opened Layouts
  import opened Decimal
  import opened Shuffling

  /** A card of the deck: its id, the picture it shows and its theme. */
  datatype Card = Card(id: int, symbol: string, theme: Theme)

  /** The synthetic picture name number k, used when a theme has no pictures. */
  function PlaceholderName(t: Theme, k: nat): string {
    ImageDir(t) + "image" + NatToString(k) + ".png"
  }

  /** Synthetic names numbered 1 to n. */
  function Placeholders(t: Theme, n: nat): (r: seq<string>)
    ensures |r| == n
  {
    seq(n, i requires 0 <= i < n => PlaceholderName(t, i + 1))
  }

  lemma PlaceholderNameInjective(t: Theme, a: nat, b: nat)
    ensures PlaceholderName(t, a) == PlaceholderName(t, b) <==> a == b
  {
    if PlaceholderName(t, a) == PlaceholderName(t, b) {
      var p := ImageDir(t) + "image";
      var x, y := NatToString(a), NatToString(b);
      assert p + x + ".png" == PlaceholderName(t, a);
      assert p + y + ".png" == PlaceholderName(t, b);
      assert |x| == |y|;
      assert x == (p + x + ".png")[|p|..|p| + |x|];
      assert y == (p + y + ".png")[|p|..|p| + |y|];
      NatToStringInjective(a, b);
    }
  }

  /** The synthetic names are pairwise different. */
  lemma PlaceholdersDistinct(t: Theme, n: nat)
    ensures Distinct(Placeholders(t, n))
  {
    var r := Placeholders(t, n);
    forall i, j | 0 <= i < j < n
      ensures r[i] != r[j]
    {
      PlaceholderNameInjective(t, i + 1, j + 1);
    }
  }

  /** The pictures the deck is built from: the scanned ones, or synthetic
      names for every pair when the scan found nothing. */
  function Available(scan: seq<string>, t: Theme, totalPairs: nat): (r: seq<string>)
    ensures |scan| > 0 ==> r == scan
    ensures |scan| == 0 ==> |r| == totalPairs
    ensures totalPairs > 0 ==> |r| > 0
  {
    if |scan| == 0 then Placeholders(t, totalPairs) else scan
  }

  /** The pictures of the pairs: the list read cyclically. */
  function PairedImages(avail: seq<string>, totalPairs: nat): (r: seq<string>)
    requires |avail| > 0
    ensures |r| == totalPairs
  {
    seq(totalPairs, i requires 0 <= i < totalPairs => avail[i % |avail|])
  }

  /** The two loops that choose the pair pictures: first the leading pictures,
      then more pictures taken cyclically until every pair has one. */
  method ChoosePairedImages(avail: seq<string>, totalPairs: nat) returns (paired: seq<string>)
    requires |avail| > 0
    ensures |paired| == totalPairs
    ensures forall i :: 0 <= i < totalPairs ==> paired[i] == avail[i % |avail|]
    ensures paired == PairedImages(avail, totalPairs)
  {
    var imagesToUse := if totalPairs < |avail| then totalPairs else |avail|;
    paired := [];
    var i := 0;
    while i < imagesToUse
      invariant 0 <= i <= imagesToUse
      invariant |paired| == i
      invariant forall k :: 0 <= k < i ==> paired[k] == avail[k % |avail|]
    {
      paired := paired + [avail[i % |avail|]];
      i := i + 1;
    }
    while |paired| < totalPairs
      invariant |paired| <= totalPairs
      invariant forall k :: 0 <= k < |paired| ==> paired[k] == avail[k % |avail|]
      decreases totalPairs - |paired|
    {
      paired := paired + [avail[|paired| % |avail|]];
    }
  }

  /** Pair i becomes the cards with ids 2i and 2i+1, both showing picture i. */
  function PairCards(paired: seq<string>, t: Theme): (r: seq<Card>)
    ensures |r| == 2 * |paired|
  {
    seq(2 * |paired|, k requires 0 <= k < 2 * |paired| => Card(k, paired[k / 2], t))
  }

  /** The loop that emits the two cards of every pair. */
  method BuildPairs(paired: seq<string>, t: Theme) returns (cards: seq<Card>, nextId: int)
    ensures |cards| == 2 * |paired| && nextId == |cards|
    ensures forall i :: 0 <= i < |paired| ==>
      cards[2 * i] == Card(2 * i, paired[i], t) && cards[2 * i + 1] == Card(2 * i + 1, paired[i], t)
    ensures cards == PairCards(paired, t)
  {
    cards := [];
    nextId := 0;
    var i := 0;
    while i < |paired|
      invariant 0 <= i <= |paired|
      invariant |cards| == 2 * i && nextId == 2 * i
      invariant forall m :: 0 <= m < i ==>
        cards[2 * m] == Card(2 * m, paired[m], t) && cards[2 * m + 1] == Card(2 * m + 1, paired[m], t)
    {
      cards := cards + [Card(nextId, paired[i], t)];
      nextId := nextId + 1;
      cards := cards + [Card(nextId, paired[i], t)];
      nextId := nextId + 1;
      i := i + 1;
    }
    var ref := PairCards(paired, t);
    forall k | 0 <= k < |cards|
      ensures cards[k] == ref[k]
    {
      var m := k / 2;
      assert k == 2 * m || k == 2 * m + 1;
    }
  }

  /** The padding loop of the size correction: appends cards with fresh ids
      and cyclically chosen pictures until the deck has the required size. */
  function Pad(deck: seq<Card>, totalCards: nat, paired: seq<string>, nextId: int, t: Theme): (r: seq<Card>)
    requires |paired| > 0
    ensures |deck| <= totalCards ==> |r| == totalCards
    ensures |deck| >= totalCards ==> r == deck
    ensures deck <= r
    decreases totalCards - |deck|
  {
    if |deck| >= totalCards then deck
    else Pad(deck + [Card(nextId, paired[|deck| % |paired|], t)], totalCards, paired, nextId + 1, t)
  }

  /** The size correction after the shuffle: truncate a long deck, pad a short
      one, keep one of the right size. */
  function CorrectSize(deck: seq<Card>, totalCards: nat, paired: seq<string>, nextId: int, t: Theme): (r: seq<Card>)
    requires |paired| > 0
    ensures |r| == totalCards
    ensures |deck| == totalCards ==> r == deck
    ensures |deck| > totalCards ==> r == deck[..totalCards]
    ensures |deck| < totalCards ==> deck < r
  {
    if |deck| == totalCards then deck
    else if |deck| > totalCards then deck[..totalCards]
    else Pad(deck, totalCards, paired, nextId, t)
  }


  /** Pair cards are told apart by their ids, which are their positions. */
  lemma PairCardsDistinct(paired: seq<string>, t: Theme)
    ensures Distinct(PairCards(paired, t))
  {
    var ref := PairCards(paired, t);
    forall a, b | 0 <= a < b < |ref|
      ensures ref[a] != ref[b]
    {
      assert ref[a].id == a && ref[b].id == b;
    }
  }

  /** Every card of a shuffled pair deck is the pair card its id names. */
  lemma ShuffledCardsArePairCards(paired: seq<string>, t: Theme, draws: seq<nat>)
    ensures forall i :: 0 <= i < |Shuffle(PairCards(paired, t), draws)| ==>
      var c := Shuffle(PairCards(paired, t), draws)[i];
      0 <= c.id < 2 * |paired| && c == PairCards(paired, t)[c.id]
  {
    var ref := PairCards(paired, t);
    var s := Shuffle(ref, draws);
    ShufflePermutes(ref, draws);
    forall i | 0 <= i < |s|
      ensures 0 <= s[i].id < |ref| && s[i] == ref[s[i].id]
    {
      assert s[i] in multiset(s);
      assert s[i] in multiset(ref);
      var k :| 0 <= k < |ref| && ref[k] == s[i];
    }
  }

  /** The pictures of the pairs for a layout, theme and scan result. */
  function PairSymbols(l: Layout, t: Theme, scan: seq<string>): (r: seq<string>)
    requires ValidLayout(l)
    ensures |r| == l.totalPairs
  {
    PairedImages(Available(scan, t, l.totalPairs), l.totalPairs)
  }

  /** The deck as card initialisation leaves it. */
  function DealtDeck(l: Layout, t: Theme, scan: seq<string>, draws: seq<nat>): seq<Card>
    requires ValidLayout(l)
  {
    var paired := PairSymbols(l, t, scan);
    CorrectSize(Shuffle(PairCards(paired, t), draws), l.rows * l.cols, paired, 2 * l.totalPairs, t)
  }

  /** The size correction is dead code: the shuffled pairs already have
      exactly rows*cols cards, so the deck is the shuffled pairs unchanged. */
  lemma CorrectionNeverApplies(l: Layout, t: Theme, scan: seq<string>, draws: seq<nat>)
    requires ValidLayout(l)
    ensures |Shuffle(PairCards(PairSymbols(l, t, scan), t), draws)| == l.rows * l.cols
    ensures DealtDeck(l, t, scan, draws) == Shuffle(PairCards(PairSymbols(l, t, scan), t), draws)
  {
    ShufflePermutes(PairCards(PairSymbols(l, t, scan), t), draws);
  }

  /** The deck has rows*cols cards and is a permutation of the pair cards. */
  lemma DeckIsShuffledPairs(l: Layout, t: Theme, scan: seq<string>, draws: seq<nat>, deck: seq<Card>)
    requires ValidLayout(l)
    requires deck == DealtDeck(l, t, scan, draws)
    ensures |deck| == l.rows * l.cols == 2 * l.totalPairs
    ensures multiset(deck) == multiset(PairCards(PairSymbols(l, t, scan), t))
  {
    CorrectionNeverApplies(l, t, scan, draws);
    ShufflePermutes(PairCards(PairSymbols(l, t, scan), t), draws);
  }

  /** Every card of the deck is the pair card its id names: ids run from 0
      to 2*totalPairs-1, a card shows the picture of pair id/2, and the theme
      is the chosen one. */
  lemma DeckCardsArePairCards(l: Layout, t: Theme, scan: seq<string>, draws: seq<nat>, deck: seq<Card>)
    requires ValidLayout(l)
    requires deck == DealtDeck(l, t, scan, draws)
    ensures forall i :: 0 <= i < |deck| ==>
      && 0 <= deck[i].id < 2 * l.totalPairs
      && deck[i].symbol == PairSymbols(l, t, scan)[deck[i].id / 2]
      && deck[i].theme == t
  {
    var paired := PairSymbols(l, t, scan);
    CorrectionNeverApplies(l, t, scan, draws);
    ShuffledCardsArePairCards(paired, t, draws);
  }

  /** No two cards of the deck share an id. */
  lemma DeckIdsDistinct(l: Layout, t: Theme, scan: seq<string>, draws: seq<nat>, deck: seq<Card>)
    requires ValidLayout(l)
    requires deck == DealtDeck(l, t, scan, draws)
    ensures forall i, j :: 0 <= i < j < |deck| ==> deck[i].id != deck[j].id
  {
    var paired := PairSymbols(l, t, scan);
    var ref := PairCards(paired, t);
    CorrectionNeverApplies(l, t, scan, draws);
    PairCardsDistinct(paired, t);
    ShuffleKeepsDistinct(ref, draws);
    ShuffledCardsArePairCards(paired, t, draws);
    forall i, j | 0 <= i < j < |deck|
      ensures deck[i].id != deck[j].id
    {
      assert deck[i] != deck[j];
    }
  }

  /** The other card of a card's pair. */
  function PartnerId(id: int): (p: int)
    ensures p != id && p / 2 == id / 2
  {
    if id % 2 == 0 then id + 1 else id - 1
  }

  /** Card i has another card with the same picture. */
  predicate HasPartner(deck: seq<Card>, i: int)
    requires 0 <= i < |deck|
  {
    exists j :: 0 <= j < |deck| && j != i && deck[j].symbol == deck[i].symbol
  }

  /** Every card has another card with the same picture. */
  predicate EveryCardPartnered(deck: seq<Card>) {
    forall i :: 0 <= i < |deck| ==> HasPartner(deck, i)
  }

  /** The partner of one card in any rearrangement of the pair cards: another
      position that shows the same picture. */
  lemma PermutedCardHasPartner(paired: seq<string>, t: Theme, s: seq<Card>, i: int) returns (j: int)
    requires multiset(s) == multiset(PairCards(paired, t))
    requires 0 <= i < |s|
    ensures 0 <= j < |s| && j != i && s[j].symbol == s[i].symbol
  {
    var ref := PairCards(paired, t);
    assert s[i] in multiset(ref);
    var k :| 0 <= k < |ref| && ref[k] == s[i];
    var p := PartnerId(k);
    var partner := ref[p];
    assert partner.symbol == s[i].symbol && partner.id != s[i].id;
    assert partner in multiset(s);
    j :| 0 <= j < |s| && s[j] == partner;
  }

  /** Every card of a rearrangement of the pair cards has its partner
      somewhere else. */
  lemma PermutedPairsHavePartners(paired: seq<string>, t: Theme, s: seq<Card>)
    requires multiset(s) == multiset(PairCards(paired, t))
    ensures EveryCardPartnered(s)
  {
    forall i | 0 <= i < |s|
      ensures HasPartner(s, i)
    {
      var j := PermutedCardHasPartner(paired, t, s, i);
    }
  }

  /** Every card has a partner elsewhere in the deck showing the same
      picture. */
  lemma DeckCardsHavePartners(l: Layout, t: Theme, scan: seq<string>, draws: seq<nat>, deck: seq<Card>)
    requires ValidLayout(l)
    requires deck == DealtDeck(l, t, scan, draws)
    ensures EveryCardPartnered(deck)
  {
    DeckIsShuffledPairs(l, t, scan, draws, deck);
    PermutedPairsHavePartners(PairSymbols(l, t, scan), t, deck);
  }

  lemma ModBelow(a: nat, n: nat)
    requires a < n
    ensures a % n == a
  {
  }

  /** Reading a list of pairwise different pictures cyclically, with no more
      pairs than pictures, gives pairwise different pair pictures. */
  lemma PairedImagesDistinct(avail: seq<string>, totalPairs: nat)
    requires |avail| > 0 && totalPairs <= |avail|
    requires Distinct(avail)
    ensures Distinct(PairedImages(avail, totalPairs))
  {
    var r := PairedImages(avail, totalPairs);
    forall a, b | 0 <= a < b < totalPairs
      ensures r[a] != r[b]
    {
      ModBelow(a, |avail|);
      ModBelow(b, |avail|);
      assert r[a] == avail[a] && r[b] == avail[b];
    }
  }

  /** When the pictures are pairwise different and there are enough of them,
      two cards show the same picture exactly when they come from the same
      pair. */
  lemma SameSymbolIffSamePair(l: Layout, t: Theme, scan: seq<string>, draws: seq<nat>, deck: seq<Card>)
    requires ValidLayout(l)
    requires deck == DealtDeck(l, t, scan, draws)
    requires Distinct(Available(scan, t, l.totalPairs))
    requires l.totalPairs <= |Available(scan, t, l.totalPairs)|
    ensures forall i, j :: 0 <= i < |deck| && 0 <= j < |deck| ==>
      (deck[i].symbol == deck[j].symbol <==> deck[i].id / 2 == deck[j].id / 2)
  {
    var paired := PairSymbols(l, t, scan);
    PairedImagesDistinct(Available(scan, t, l.totalPairs), l.totalPairs);
    DeckCardsArePairCards(l, t, scan, draws, deck);
    forall i, j | 0 <= i < |deck| && 0 <= j < |deck|
      ensures deck[i].symbol == deck[j].symbol <==> deck[i].id / 2 == deck[j].id / 2
    {
      var p, q := deck[i].id / 2, deck[j].id / 2;
      assert deck[i].symbol == paired[p] && deck[j].symbol == paired[q];
      assert p == q || paired[p] != paired[q];
    }
  }

  /** With no pictures in the theme folder, every pair gets its own synthetic
      picture, so same picture means same pair. */
  lemma EmptyScanGivesDistinctPairs(l: Layout, t: Theme, draws: seq<nat>, deck: seq<Card>)
    requires ValidLayout(l)
    requires deck == DealtDeck(l, t, [], draws)
    ensures forall i, j :: 0 <= i < |deck| && 0 <= j < |deck| ==>
      (deck[i].symbol == deck[j].symbol <==> deck[i].id / 2 == deck[j].id / 2)
  {
    PlaceholdersDistinct(t, l.totalPairs);
    SameSymbolIffSamePair(l, t, [], draws, deck);
  }

  /** Card initialisation as Game.cpp performs it, loop by loop: the
      layout of the difficulty, the pair pictures, the pair cards, the shuffle
      and the size correction. */
  method InitializeCards(d: Difficulty, t: Theme, scan: seq<string>, draws: seq<nat>)
    returns (layout: Layout, deck: seq<Card>)
    ensures layout == LayoutOf(d)
    ensures |deck| == layout.rows * layout.cols
    ensures multiset(deck) == multiset(PairCards(PairSymbols(layout, t, scan), t))
    ensures deck == DealtDeck(layout, t, scan, draws)
  {
    layout := LayoutOf(d);
    deck := BuildDeck(layout, t, scan, draws);
  }

  method BuildDeck(l: Layout, t: Theme, scan: seq<string>, draws: seq<nat>) returns (deck: seq<Card>)
    requires ValidLayout(l)
    ensures |deck| == l.rows * l.cols
    ensures multiset(deck) == multiset(PairCards(PairSymbols(l, t, scan), t))
    ensures deck == DealtDeck(l, t, scan, draws)
  {
    var totalCards := l.rows * l.cols;
    var avail := Available(scan, t, l.totalPairs);
    var paired := ChoosePairedImages(avail, l.totalPairs);
    var cards, nextId := BuildPairs(paired, t);
    var shuffled := Shuffle(cards, draws);
    ShufflePermutes(cards, draws);
    deck := CorrectSize(shuffled, totalCards, paired, nextId, t);
  }
}
