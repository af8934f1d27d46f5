/** Streets and cards: encodings, card text, sorted card lists. */
module Poker {
  import opened Wrappers
  import opened CommonTypes
  import opened SeqFolds

  // ---------------------------------------------------------------- streets

  function StreetToken(street: Street): char {
    match street
    case Preflop => 'p'
    case Flop => 'f'
    case Turn => 't'
    case River => 'r'
    case Showdown => 's'
  }

  function CardsToDeal(street: Street): nat {
    match street
    case Flop => 3
    case Turn => 1
    case River => 1
    case Preflop => 0
    case Showdown => 0
  }

  /** expected_board_size_for_street. */
  function BoardSize(street: Street): (n: nat)
    ensures n <= 5
  {
    match street
    case Preflop => 0
    case Flop => 3
    case Turn => 4
    case River => 5
    case Showdown => 5
  }

  // ---------------------------------------------------------------- cards

  const DECK := 52

  predicate ValidCard(card: nat) {
    card < DECK
  }

  predicate AllValid(cards: seq<nat>) {
    forall i :: 0 <= i < |cards| ==> ValidCard(cards[i])
  }

  predicate ValidAndDistinct(cards: seq<nat>) {
    AllValid(cards) && Distinct(cards)
  }

  lemma JointlyDistinct(a: seq<nat>, b: seq<nat>)
    ensures ValidAndDistinct(a + b) <==>
            ValidAndDistinct(a) && ValidAndDistinct(b) && forall i, j :: 0 <= i < |a| && 0 <= j < |b| ==> a[i] != b[j]
  {
    var all := a + b;
    assert forall i :: 0 <= i < |a| ==> all[i] == a[i];
    assert forall j :: 0 <= j < |b| ==> all[|a| + j] == b[j];
  }

  /** are_valid_and_distinct_cards: one pass with a table of the cards already seen. */
  method AreValidAndDistinct(cards: seq<nat>) returns (ok: bool)
    ensures ok <==> ValidAndDistinct(cards)
  {
    var seen := new bool[64](_ => false);
    var index := 0;
    while index < |cards|
      invariant 0 <= index <= |cards|
      invariant ValidAndDistinct(cards[..index])
      invariant forall c: nat :: c < 64 ==> (seen[c] <==> c in cards[..index])
    {
      var card := cards[index];
      if !ValidCard(card) || seen[card] {
        if ValidCard(card) {
          ghost var i :| 0 <= i < index && cards[..index][i] == card;
          assert cards[i] == cards[index];
        }
        return false;
      }
      assert cards[..index + 1] == cards[..index] + [card];
      seen[card] := true;
      index := index + 1;
    }
    assert cards[..index] == cards;
    ok := true;
  }

  const RANKS: string := "23456789TJQKA"
  const SUITS: string := "shdc"

  /** card_to_string. */
  function CardText(card: nat): (s: string)
    requires ValidCard(card)
    ensures |s| == 2
  {
    [RANKS[card / 4], SUITS[card % 4]]
  }

  lemma CardTextInjective(a: nat, b: nat)
    requires ValidCard(a) && ValidCard(b) && CardText(a) == CardText(b)
    ensures a == b
  {
    var i, j := a / 4, b / 4;
    assert RANKS[i] == CardText(a)[0] && RANKS[j] == CardText(b)[0];
    assert SUITS[a % 4] == CardText(a)[1] && SUITS[b % 4] == CardText(b)[1];
    assert i == j;
    assert a % 4 == b % 4;
  }

  function CardsText(cards: seq<nat>): (s: string)
    requires AllValid(cards)
    ensures |s| == 2 * |cards|
  {
    if cards == [] then [] else CardText(cards[0]) + CardsText(cards[1..])
  }

  lemma {:induction false} CardsTextInjective(a: seq<nat>, b: seq<nat>)
    requires AllValid(a) && AllValid(b) && CardsText(a) == CardsText(b)
    ensures a == b
  {
    if a != [] {
      assert CardsText(a)[..2] == CardText(a[0]) && CardsText(b)[..2] == CardText(b[0]);
      assert CardsText(a)[2..] == CardsText(a[1..]) && CardsText(b)[2..] == CardsText(b[1..]);
      CardTextInjective(a[0], b[0]);
      CardsTextInjective(a[1..], b[1..]);
      assert a == [a[0]] + a[1..] && b == [b[0]] + b[1..];
    }
  }

  lemma {:induction false} CardsTextHasNoBar(cards: seq<nat>)
    requires AllValid(cards)
    ensures '|' !in CardsText(cards)
  {
    if cards != [] {
      CardsTextHasNoBar(cards[1..]);
      assert forall i :: 0 <= i < 13 ==> RANKS[i] != '|';
      assert forall i :: 0 <= i < 4 ==> SUITS[i] != '|';
    }
  }

  // ---------------------------------------------------------------- sorted card lists

  predicate Ascending(cards: seq<nat>) {
    forall i, j :: 0 <= i < j < |cards| ==> cards[i] <= cards[j]
  }

  function Insert(card: nat, cards: seq<nat>): (r: seq<nat>)
    ensures |r| == |cards| + 1
  {
    if cards == [] || card <= cards[0] then [card] + cards
    else [cards[0]] + Insert(card, cards[1..])
  }

  lemma {:induction false} InsertKeepsCards(card: nat, cards: seq<nat>)
    ensures multiset(Insert(card, cards)) == multiset{card} + multiset(cards)
  {
    if cards != [] && card > cards[0] {
      assert cards == [cards[0]] + cards[1..];
      InsertKeepsCards(card, cards[1..]);
    }
  }

  lemma PrependAscending(card: nat, cards: seq<nat>)
    requires Ascending(cards) && (cards != [] ==> card <= cards[0])
    ensures Ascending([card] + cards)
  {
  }

  lemma {:induction false} InsertAscending(card: nat, cards: seq<nat>)
    requires Ascending(cards)
    ensures Ascending(Insert(card, cards))
  {
    if cards == [] || card <= cards[0] {
      PrependAscending(card, cards);
    } else {
      InsertAscending(card, cards[1..]);
      var rest := Insert(card, cards[1..]);
      assert rest[0] == card || rest[0] == cards[1];
      PrependAscending(cards[0], rest);
    }
  }

  lemma SameCardsSameValidity(a: seq<nat>, b: seq<nat>)
    requires multiset(a) == multiset(b) && AllValid(a)
    ensures AllValid(b)
  {
    forall i | 0 <= i < |b| ensures ValidCard(b[i]) {
      assert b[i] in multiset(a);
      assert b[i] in a;
    }
  }

  /** std::sort of a card list. */
  function Sorted(cards: seq<nat>): (r: seq<nat>)
    ensures Ascending(r) && multiset(r) == multiset(cards) && |r| == |cards|
    ensures AllValid(cards) ==> AllValid(r)
  {
    if cards == [] then []
    else
      assert cards == [cards[0]] + cards[1..];
      var rest := Sorted(cards[1..]);
      InsertKeepsCards(cards[0], rest);
      InsertAscending(cards[0], rest);
      assert AllValid(cards) ==> AllValid(Insert(cards[0], rest)) by {
        if AllValid(cards) {
          SameCardsSameValidity(cards, Insert(cards[0], rest));
        }
      }
      Insert(cards[0], rest)
  }

  lemma SameHead(a: seq<nat>, b: seq<nat>)
    requires Ascending(a) && Ascending(b) && multiset(a) == multiset(b) && a != [] && b != []
    ensures a[0] == b[0]
  {
    assert a[0] in multiset(b) && b[0] in multiset(a);
    var i :| 0 <= i < |b| && b[i] == a[0];
    var j :| 0 <= j < |a| && a[j] == b[0];
  }

  lemma TailMultiset(a: seq<nat>)
    requires a != []
    ensures multiset(a[1..]) == multiset(a) - multiset{a[0]}
  {
    assert a == [a[0]] + a[1..];
  }

  /** A sorted list is determined by which cards it holds. */
  lemma {:induction false} SortedIsUnique(a: seq<nat>, b: seq<nat>)
    requires Ascending(a) && Ascending(b) && multiset(a) == multiset(b)
    ensures a == b
  {
    assert |multiset(a)| == |a| && |multiset(b)| == |b|;
    if a != [] {
      SameHead(a, b);
      TailMultiset(a);
      TailMultiset(b);
      SortedIsUnique(a[1..], b[1..]);
      assert a == [a[0]] + a[1..] && b == [b[0]] + b[1..];
    }
  }

  /** Sorting forgets the order and nothing else. */
  lemma SortedSameExactly(a: seq<nat>, b: seq<nat>)
    ensures Sorted(a) == Sorted(b) <==> multiset(a) == multiset(b)
  {
    if multiset(a) == multiset(b) {
      SortedIsUnique(Sorted(a), Sorted(b));
    }
  }
}
