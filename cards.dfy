/** The deck of the memory game: card faces, the symbol list the deck is dealt
    from, the card record, and the counting facts that make every face appear on
    exactly two cards of a dealt deck. */
module Cards {

  /** A card face (one heart emoji). */
  type Symbol = string

  const TwoHearts: Symbol := "\U{1F495}"
  const SparklingHeart: Symbol := "\U{1F496}"
  const GrowingHeart: Symbol := "\U{1F497}"
  const HeartWithArrow: Symbol := "\U{1F498}"
  const HeartWithRibbon: Symbol := "\U{1F49D}"
  const RevolvingHearts: Symbol := "\U{1F49E}"
  const HeartDecoration: Symbol := "\U{1F49F}"
  const LoveLetter: Symbol := "\U{1F48C}"

  /** The eight distinct faces, in the order the symbol list first names them. */
  const Alphabet: seq<Symbol> :=
    [TwoHearts, SparklingHeart, GrowingHeart, HeartWithArrow,
     HeartWithRibbon, RevolvingHearts, HeartDecoration, LoveLetter]

  /** The controller's 16-entry symbol list: the eight faces, then the eight again. */
  const Symbols: seq<Symbol> :=
    [TwoHearts, SparklingHeart, GrowingHeart, HeartWithArrow,
     HeartWithRibbon, RevolvingHearts, HeartDecoration, LoveLetter,
     TwoHearts, SparklingHeart, GrowingHeart, HeartWithArrow,
     HeartWithRibbon, RevolvingHearts, HeartDecoration, LoveLetter]

  /** Number of cards dealt by every round. */
  const DeckSize: nat := 16

  /** A card record; `isFlipped` and `isMatched` change during play. */
  datatype Card = Card(id: int, symbol: Symbol, isFlipped: bool, isMatched: bool)

  /** The faces of a row of cards, position by position. */
  function Faces(cards: seq<Card>): seq<Symbol>
  {
    seq(|cards|, i requires 0 <= i < |cards| => cards[i].symbol)
  }

  /** The positions of `s` that hold `x`. */
  ghost function Positions<T>(s: seq<T>, x: T): set<int>
  {
    set i | 0 <= i < |s| && s[i] == x
  }

  ghost predicate Distinct<T>(s: seq<T>)
  {
    forall i, j :: 0 <= i < j < |s| ==> s[i] != s[j]
  }

  /** A value occurs in a sequence exactly as often as there are positions holding it. */
  lemma {:induction false} PositionsCount<T>(s: seq<T>, x: T)
    ensures |Positions(s, x)| == multiset(s)[x]
  {
    if s != [] {
      var n := |s| - 1;
      var init := s[..n];
      PositionsCount(init, x);
      assert s == init + [s[n]];
      if s[n] == x {
        assert Positions(s, x) == Positions(init, x) + {n};
      } else {
        assert Positions(s, x) == Positions(init, x);
      }
    } else {
      assert Positions(s, x) == {};
    }
  }

  /** In a sequence without repetitions every value occurs at most once. */
  lemma {:induction false} DistinctOccursOnce<T>(s: seq<T>, x: T)
    requires Distinct(s)
    ensures multiset(s)[x] == if x in s then 1 else 0
  {
    if s != [] {
      DistinctOccursOnce(s[1..], x);
      assert s == [s[0]] + s[1..];
      assert s[0] !in s[1..] by {
        forall k | 0 <= k < |s[1..]| ensures s[1..][k] != s[0] {
          assert s[1..][k] == s[k + 1];
        }
      }
    }
  }

  lemma AlphabetDistinct()
    ensures Distinct(Alphabet)
  {
    forall i, j | 0 <= i < j < |Alphabet| ensures Alphabet[i] != Alphabet[j] {
      assert Alphabet[i][0] != Alphabet[j][0];
    }
  }

  lemma SymbolsDoubled()
    ensures Symbols == Alphabet + Alphabet
  {
  }

  /** `s` names each of the eight faces exactly twice and nothing else. */
  ghost predicate EachFaceTwice(s: seq<Symbol>)
  {
    |s| == DeckSize && forall x :: multiset(s)[x] == if x in Alphabet then 2 else 0
  }

  /** The controller's symbol list names each face exactly twice. */
  lemma SymbolsEachFaceTwice()
    ensures EachFaceTwice(Symbols)
  {
    SymbolsDoubled();
    AlphabetDistinct();
    forall x ensures multiset(Symbols)[x] == if x in Alphabet then 2 else 0 {
      DistinctOccursOnce(Alphabet, x);
    }
  }

  /** Whatever order the shuffle leaves a list that names each face twice in,
      each face lies on exactly two positions of the result, and no other
      symbol appears. */
  lemma ShuffledFacesPaired(shuffled: seq<Symbol>, symbols: seq<Symbol>, x: Symbol)
    requires EachFaceTwice(symbols) && multiset(shuffled) == multiset(symbols)
    ensures |shuffled| == DeckSize
    ensures |Positions(shuffled, x)| == if x in Alphabet then 2 else 0
  {
    assert |shuffled| == |multiset(shuffled)| == |multiset(symbols)| == |symbols|;
    PositionsCount(shuffled, x);
  }
}
