/** The memory game controller: one object holding the round state, whose
    methods are the user's actions (start, flip a card, restart, accept or
    reject the proposal, mute) and the callbacks the browser runs later (the
    one-second timer tick, the flip-back one second after a mismatch, the win
    half a second after the last pair). The scheduler is left to the caller:
    each callback is a method the caller invokes, and the callbacks still to
    run are fields of the object. */
module Game {
  import opened Optional
  import opened Cards
  import opened Board
  import Clock

  /** Seconds after which a running round is lost (five minutes). */
  const TimeLimit: nat := 300

  /** The screens of the page, each shown or hidden by the controller. */
  datatype Screen = StartScreen | GameArea | GameOverScreen | VictoryScreen | FinalScreen

  /** The position of the first card carrying `id`, scanning from the front,
      or None when no card carries it. */
  method FindById(cards: seq<Card>, id: int) returns (r: Option<nat>)
    ensures r.Some? ==> r.value < |cards| && cards[r.value].id == id
    ensures r.Some? ==> forall j :: 0 <= j < r.value ==> cards[j].id != id
    ensures r.None? <==> forall j :: 0 <= j < |cards| ==> cards[j].id != id
  {
    var k := 0;
    while k < |cards|
      invariant k <= |cards|
      invariant forall j :: 0 <= j < k ==> cards[j].id != id
    {
      if cards[k].id == id {
        return Some(k);
      }
      k := k + 1;
    }
    return None;
  }

  class MemoryGame {
    var gameRunning: bool
    var pairs: nat
    var moves: nat
    var timeElapsed: nat
    var isMuted: bool
    var cards: seq<Card>
    /** Face-up cards waiting for a partner, by position. */
    var flippedCards: seq<nat>
    /** Matched cards by position, two per matched pair, in the order matched. */
    var matchedCards: seq<nat>
    /** Flip-backs scheduled by mismatches and not yet run, oldest first;
        all have the same delay, so they run in this order. */
    var pendingReverts: seq<(nat, nat)>
    /** Number of scheduled win callbacks not yet run. */
    var pendingWins: nat
    /** The screens currently shown. */
    var visible: set<Screen>
    /** The symbol list every deck is dealt from. */
    const symbols: seq<Symbol>

    /** The table and the counters between two actions: the board invariant,
        at most one card waiting for a partner, and at least one move for each
        matched pair and for each scheduled flip-back. */
    ghost predicate Table()
      reads this
    {
      BoardInvariant(cards, flippedCards, matchedCards, pendingReverts, pairs) &&
      |flippedCards| <= 1 &&
      pairs + |pendingReverts| <= moves
    }

    /** `Table()`, and the clock: it never passes the limit, and a running
        round has a full deck and time left. */
    ghost predicate Valid()
      reads this
    {
      EachFaceTwice(symbols) &&
      Table() &&
      timeElapsed <= TimeLimit &&
      (gameRunning ==> |cards| == DeckSize && timeElapsed < TimeLimit)
    }

    /** Whether a flip of card `cardId` gets past the guards of `FlipCard`: the
        round is running, a card with that id exists (ids are positions), it is
        neither face up nor matched, and fewer than two cards wait. */
    predicate CanFlip(cardId: int)
      reads this
    {
      gameRunning && 0 <= cardId < |cards| &&
      !cards[cardId].isFlipped && !cards[cardId].isMatched && |flippedCards| < 2
    }

    constructor ()
      ensures Valid()
      ensures !gameRunning && pairs == 0 && moves == 0 && timeElapsed == 0 && !isMuted
      ensures cards == [] && flippedCards == [] && matchedCards == []
      ensures pendingReverts == [] && pendingWins == 0
      ensures visible == {StartScreen} && symbols == Symbols
    {
      symbols := Symbols;
      SymbolsEachFaceTwice();
      gameRunning := false;
      pairs, moves, timeElapsed := 0, 0, 0;
      isMuted := false;
      cards, flippedCards, matchedCards := [], [], [];
      pendingReverts, pendingWins := [], 0;
      visible := {StartScreen};
    }

    /** Starts a round with the symbol list in the order the shuffle left it:
        counters zeroed, no card waiting or matched, a new deck of face-down
        cards with ids 0..15, on which every face appears exactly twice. */
    method StartGame(shuffled: seq<Symbol>)
      requires Valid()
      requires multiset(shuffled) == multiset(symbols)
      modifies this
      ensures Valid()
      ensures gameRunning && pairs == 0 && moves == 0 && timeElapsed == 0
      ensures flippedCards == [] && matchedCards == [] && pendingReverts == []
      ensures |cards| == |shuffled| == DeckSize
      ensures forall i :: 0 <= i < |cards| ==> cards[i] == Card(i, shuffled[i], false, false)
      ensures forall x :: |Positions(Faces(cards), x)| == if x in Alphabet then 2 else 0
      ensures isMuted == old(isMuted) && pendingWins == old(pendingWins)
      ensures visible == old(visible) - {StartScreen} + {GameArea}
    {
      assert |shuffled| == DeckSize by {
        assert |shuffled| == |multiset(shuffled)| == |multiset(symbols)| == |symbols|;
      }
      visible := visible - {StartScreen} + {GameArea};
      gameRunning := true;
      pairs, moves, timeElapsed := 0, 0, 0;
      flippedCards := [];
      matchedCards := [];
      CreateCards(shuffled);
      DealtBoard(shuffled);
      forall x | true ensures |Positions(Faces(cards), x)| == if x in Alphabet then 2 else 0 {
        DealtFacesPaired(shuffled, symbols, x);
      }
    }

    /** Replaces the deck by sixteen new cards. Flip-backs still scheduled
        refer to the discarded cards, so they can no longer affect this deck. */
    method CreateCards(shuffled: seq<Symbol>)
      requires |shuffled| == DeckSize
      modifies this`cards, this`pendingReverts
      ensures cards == Deal(shuffled) && pendingReverts == []
    {
      cards := [];
      for i := 0 to DeckSize
        invariant cards == Deal(shuffled)[..i]
      {
        cards := cards + [Card(i, shuffled[i], false, false)];
      }
      pendingReverts := [];
    }

    /** A click on a card. Ignored unless `CanFlip(cardId)`. Otherwise the card
        turns face up and waits; if another card was already waiting, the
        move counter goes up and the pair is resolved by `CheckMatch`. */
    method FlipCard(cardId: int)
      requires Valid()
      modifies this
      ensures Valid()
      ensures !old(CanFlip(cardId)) ==> unchanged(this)
      ensures old(CanFlip(cardId)) && old(flippedCards) == [] ==>
        cards == Reveal(old(cards), cardId) && flippedCards == [cardId] &&
        moves == old(moves) && pairs == old(pairs) && matchedCards == old(matchedCards) &&
        pendingReverts == old(pendingReverts) && pendingWins == old(pendingWins)
      ensures old(CanFlip(cardId)) && old(flippedCards) != [] ==>
        var first := old(flippedCards)[0];
        moves == old(moves) + 1 && flippedCards == [] &&
        if old(cards)[first].symbol == old(cards)[cardId].symbol then
          cards == MarkMatched(Reveal(old(cards), cardId), first, cardId) &&
          matchedCards == old(matchedCards) + [first, cardId] && pairs == old(pairs) + 1 &&
          pendingReverts == old(pendingReverts) &&
          pendingWins == old(pendingWins) + (if pairs == MaxPairs then 1 else 0)
        else
          cards == Reveal(old(cards), cardId) &&
          matchedCards == old(matchedCards) && pairs == old(pairs) &&
          pendingReverts == old(pendingReverts) + [(first, cardId)] &&
          pendingWins == old(pendingWins)
      ensures gameRunning == old(gameRunning) && timeElapsed == old(timeElapsed)
      ensures isMuted == old(isMuted) && visible == old(visible)
    {
      if !gameRunning {
        return;
      }
      var found := FindById(cards, cardId);
      if found.None? || cards[found.value].isFlipped || cards[found.value].isMatched || |flippedCards| >= 2 {
        return;
      }
      var k := found.value;
      assert k == cardId by {
        assert cards[k].id == k;
      }
      ghost var before := cards;
      TurnUp(k);
      if |flippedCards| == 2 {
        ghost var first := flippedCards[0];
        assert first in old(flippedCards) && first != k;
        assert cards[first].symbol == before[first].symbol && cards[k].symbol == before[k].symbol;
        moves := moves + 1;
        CheckMatch();
      }
    }

    /** Card `k` turns face up and joins the waiting cards. */
    method TurnUp(k: nat)
      requires Valid() && CanFlip(k)
      modifies this`cards, this`flippedCards
      ensures BoardInvariant(cards, flippedCards, matchedCards, pendingReverts, pairs)
      ensures cards == Reveal(old(cards), k) && flippedCards == old(flippedCards) + [k]
    {
      RevealKeepsBoard(cards, flippedCards, matchedCards, pendingReverts, pairs, k);
      cards := Reveal(cards, k);
      flippedCards := flippedCards + [k];
    }

    /** Resolves the two waiting cards. Equal faces: both become matched, the
        pair counter goes up, and reaching the last pair schedules the win.
        Different faces: a flip-back of the two is scheduled and they stay
        face up meanwhile. Either way no card waits afterwards. */
    method CheckMatch()
      requires EachFaceTwice(symbols)
      requires BoardInvariant(cards, flippedCards, matchedCards, pendingReverts, pairs)
      requires |flippedCards| == 2 && pairs + |pendingReverts| < moves
      requires timeElapsed <= TimeLimit && (gameRunning ==> |cards| == DeckSize && timeElapsed < TimeLimit)
      modifies this
      ensures Valid()
      ensures flippedCards == []
      ensures var a, b := old(flippedCards)[0], old(flippedCards)[1];
        if old(cards)[a].symbol == old(cards)[b].symbol then
          cards == MarkMatched(old(cards), a, b) &&
          matchedCards == old(matchedCards) + [a, b] && pairs == old(pairs) + 1 &&
          pendingReverts == old(pendingReverts) &&
          pendingWins == old(pendingWins) + (if pairs == MaxPairs then 1 else 0)
        else
          cards == old(cards) && matchedCards == old(matchedCards) && pairs == old(pairs) &&
          pendingReverts == old(pendingReverts) + [(a, b)] && pendingWins == old(pendingWins)
      ensures moves == old(moves) && gameRunning == old(gameRunning) && timeElapsed == old(timeElapsed)
      ensures isMuted == old(isMuted) && visible == old(visible)
    {
      var a, b := flippedCards[0], flippedCards[1];
      assert flippedCards == [a, b];
      assert a < |cards| && b < |cards|;
      if cards[a].symbol == cards[b].symbol {
        KeepPair(a, b);
        if pairs == MaxPairs {
          pendingWins := pendingWins + 1;
        }
      } else {
        ScheduleRevert(a, b);
      }
    }

    /** The two waiting cards `a` and `b` show the same face: both are marked
        matched and the pair is counted. */
    method KeepPair(a: nat, b: nat)
      requires a < |cards| && b < |cards| && flippedCards == [a, b]
      requires BoardInvariant(cards, flippedCards, matchedCards, pendingReverts, pairs)
      requires cards[a].symbol == cards[b].symbol
      modifies this`cards, this`matchedCards, this`pairs, this`flippedCards
      ensures BoardInvariant(cards, flippedCards, matchedCards, pendingReverts, pairs)
      ensures cards == MarkMatched(old(cards), a, b) && flippedCards == []
      ensures matchedCards == old(matchedCards) + [a, b] && pairs == old(pairs) + 1
    {
      MatchKeepsBoard(cards, matchedCards, pendingReverts, pairs, a, b);
      cards, matchedCards, pairs := MarkMatched(cards, a, b), matchedCards + [a, b], pairs + 1;
      flippedCards := [];
    }

    /** The two waiting cards `a` and `b` show different faces: they stay
        face up and their flip-back is scheduled. */
    method ScheduleRevert(a: nat, b: nat)
      requires a < |cards| && b < |cards| && flippedCards == [a, b]
      requires BoardInvariant(cards, flippedCards, matchedCards, pendingReverts, pairs)
      requires cards[a].symbol != cards[b].symbol
      modifies this`pendingReverts, this`flippedCards
      ensures BoardInvariant(cards, flippedCards, matchedCards, pendingReverts, pairs)
      ensures pendingReverts == old(pendingReverts) + [(a, b)] && flippedCards == []
    {
      MismatchKeepsBoard(cards, matchedCards, pendingReverts, pairs, a, b);
      pendingReverts := pendingReverts + [(a, b)];
      flippedCards := [];
    }

    /** The flip-back scheduled by the oldest mismatch runs: its two cards
        turn face down again and nothing else changes. It runs whether or not
        the round is still going. */
    method RevertTimeout()
      requires Valid() && pendingReverts != []
      modifies this
      ensures Valid()
      ensures var (a, b) := old(pendingReverts)[0];
        a < |old(cards)| && b < |old(cards)| && old(cards)[a].isFlipped && old(cards)[b].isFlipped &&
        cards == Conceal(old(cards), a, b)
      ensures pendingReverts == old(pendingReverts)[1..]
      ensures flippedCards == old(flippedCards) && matchedCards == old(matchedCards)
      ensures pairs == old(pairs) && moves == old(moves) && pendingWins == old(pendingWins)
      ensures gameRunning == old(gameRunning) && timeElapsed == old(timeElapsed)
      ensures isMuted == old(isMuted) && visible == old(visible)
    {
      var (a, b) := pendingReverts[0];
      ConcealKeepsBoard(cards, flippedCards, matchedCards, pendingReverts, pairs);
      assert Unpair(pendingReverts)[0] == a && Unpair(pendingReverts)[1] == b;
      cards := Conceal(cards, a, b);
      pendingReverts := pendingReverts[1..];
    }

    /** The win callback scheduled by the last pair runs. */
    method WinTimeout()
      requires Valid() && pendingWins > 0
      modifies this
      ensures Valid() && !gameRunning && pendingWins == old(pendingWins) - 1
      ensures visible == old(visible) - {GameArea} + {VictoryScreen}
      ensures cards == old(cards) && flippedCards == old(flippedCards) && matchedCards == old(matchedCards)
      ensures pendingReverts == old(pendingReverts)
      ensures pairs == old(pairs) && moves == old(moves) && timeElapsed == old(timeElapsed)
      ensures isMuted == old(isMuted)
    {
      pendingWins := pendingWins - 1;
      WinGame();
    }

    /** One tick of the one-second timer. While the round runs, the elapsed
        time goes up by one second, and reaching the limit ends the round as
        lost; otherwise nothing happens. */
    method Tick()
      requires Valid()
      modifies this
      ensures Valid()
      ensures !old(gameRunning) ==> unchanged(this)
      ensures old(gameRunning) ==>
        timeElapsed == old(timeElapsed) + 1 &&
        (gameRunning <==> timeElapsed < TimeLimit) &&
        visible == if timeElapsed < TimeLimit then old(visible)
                   else old(visible) - {GameArea} + {GameOverScreen}
      ensures cards == old(cards) && flippedCards == old(flippedCards) && matchedCards == old(matchedCards)
      ensures pendingReverts == old(pendingReverts) && pendingWins == old(pendingWins)
      ensures pairs == old(pairs) && moves == old(moves) && isMuted == old(isMuted)
    {
      if gameRunning {
        timeElapsed := timeElapsed + 1;
        if timeElapsed >= TimeLimit {
          GameOver();
        }
      }
    }

    /** Ends the round as won: the timer stops and the victory screen
        replaces the game area. */
    method WinGame()
      requires Valid()
      modifies this
      ensures Valid() && !gameRunning
      ensures visible == old(visible) - {GameArea} + {VictoryScreen}
      ensures cards == old(cards) && flippedCards == old(flippedCards) && matchedCards == old(matchedCards)
      ensures pendingReverts == old(pendingReverts) && pendingWins == old(pendingWins)
      ensures pairs == old(pairs) && moves == old(moves) && timeElapsed == old(timeElapsed)
      ensures isMuted == old(isMuted)
    {
      gameRunning := false;
      visible := visible - {GameArea} + {VictoryScreen};
    }

    /** Ends the round as lost: the timer stops and the game-over screen,
        which shows the pairs found, replaces the game area. */
    method GameOver()
      requires EachFaceTwice(symbols) && Table() && timeElapsed <= TimeLimit
      modifies this
      ensures Valid() && !gameRunning
      ensures visible == old(visible) - {GameArea} + {GameOverScreen}
      ensures cards == old(cards) && flippedCards == old(flippedCards) && matchedCards == old(matchedCards)
      ensures pendingReverts == old(pendingReverts) && pendingWins == old(pendingWins)
      ensures pairs == old(pairs) && moves == old(moves) && timeElapsed == old(timeElapsed)
      ensures isMuted == old(isMuted)
    {
      gameRunning := false;
      visible := visible - {GameArea} + {GameOverScreen};
    }

    /** The proposal is accepted: the final screen replaces the victory screen. */
    method AcceptProposal()
      requires Valid()
      modifies this`visible
      ensures Valid()
      ensures visible == old(visible) - {VictoryScreen} + {FinalScreen}
    {
      visible := visible - {VictoryScreen} + {FinalScreen};
    }

    /** The proposal is declined: after a message (not modelled), the same as
        a restart. */
    method RejectProposal()
      requires Valid()
      modifies this
      ensures Valid() && !gameRunning && visible == {StartScreen}
      ensures cards == old(cards) && flippedCards == old(flippedCards) && matchedCards == old(matchedCards)
      ensures pendingReverts == old(pendingReverts) && pendingWins == old(pendingWins)
      ensures pairs == old(pairs) && moves == old(moves) && timeElapsed == old(timeElapsed)
      ensures isMuted == old(isMuted)
    {
      RestartGame();
    }

    /** Back to the start screen with the timer stopped. The counters and
        the deck are left as they were; the next `StartGame` resets them. */
    method RestartGame()
      requires Valid()
      modifies this
      ensures Valid() && !gameRunning && visible == {StartScreen}
      ensures cards == old(cards) && flippedCards == old(flippedCards) && matchedCards == old(matchedCards)
      ensures pendingReverts == old(pendingReverts) && pendingWins == old(pendingWins)
      ensures pairs == old(pairs) && moves == old(moves) && timeElapsed == old(timeElapsed)
      ensures isMuted == old(isMuted)
    {
      visible := visible - {GameArea, GameOverScreen, VictoryScreen, FinalScreen} + {StartScreen};
      gameRunning := false;
      forall s | s in visible ensures s == StartScreen {
        match s
        case StartScreen =>
        case _ =>
      }
    }

    /** Sound on or off; nothing else changes. */
    method ToggleMute()
      requires Valid()
      modifies this`isMuted
      ensures Valid() && isMuted == !old(isMuted)
    {
      isMuted := !isMuted;
    }

    /** The timer text of the scoreboard: always five characters, and it reads
        back as the elapsed seconds. */
    function TimerText(): (r: string)
      reads this
      requires Valid()
      ensures |r| == 5 && Clock.ParseTime(r) == Some(timeElapsed)
    {
      Clock.FormatTimeWidth(timeElapsed);
      Clock.FormatTimeRoundTrip(timeElapsed);
      Clock.FormatTime(timeElapsed)
    }
  }
}
