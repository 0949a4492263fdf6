/** The card table of a round as plain values: the dealt cards, the face-up
    cards still waiting for their partner, the matched cards, and the
    mismatched pairs waiting to be turned face down again. The invariant that
    ties these together, and one lemma per step of play showing that the step
    keeps it. */
module Board {
  import opened Cards

  /** Number of pairs in a full deck. */
  const MaxPairs: nat := 8

  /** Every entry is a position of a deck of `n` cards. */
  ghost predicate InDeck(s: seq<nat>, n: int)
  {
    forall i :: 0 <= i < |s| ==> s[i] < n
  }

  /** No position is listed in both `a` and `b`. */
  ghost predicate Disjoint(a: seq<nat>, b: seq<nat>)
  {
    forall k :: k in a ==> k !in b
  }

  /** The card positions named by the mismatched pairs, in order. */
  function Unpair(reverts: seq<(nat, nat)>): (r: seq<nat>)
    ensures |r| == 2 * |reverts|
  {
    if reverts == [] then [] else [reverts[0].0, reverts[0].1] + Unpair(reverts[1..])
  }

  /** The cards of the `p`-th matched pair show one face. */
  ghost predicate SamePair(cards: seq<Card>, matched: seq<nat>, p: nat)
  {
    2 * p + 1 < |matched| && matched[2 * p] < |cards| && matched[2 * p + 1] < |cards| &&
    cards[matched[2 * p]].symbol == cards[matched[2 * p + 1]].symbol
  }

  /** The two cards of a scheduled flip-back show different faces. */
  ghost predicate Mismatch(cards: seq<Card>, pair: (nat, nat))
  {
    pair.0 < |cards| && pair.1 < |cards| && cards[pair.0].symbol != cards[pair.1].symbol
  }

  /** Before the first round there are no cards; afterwards a full deck whose
      ids are the positions. */
  ghost predicate DeckShape(cards: seq<Card>)
  {
    (|cards| == 0 || |cards| == DeckSize) &&
    (forall i :: 0 <= i < |cards| ==> cards[i].id == i)
  }

  /** The waiting cards, the matched cards and the cards of the scheduled
      flip-backs (`held`) are positions of the deck, none listed twice. */
  ghost predicate ListsDisjoint(n: nat, flipped: seq<nat>, matched: seq<nat>, held: seq<nat>)
  {
    InDeck(flipped, n) && InDeck(matched, n) && InDeck(held, n) &&
    Distinct(flipped) && Distinct(matched) && Distinct(held) &&
    Disjoint(matched, flipped) && Disjoint(matched, held) && Disjoint(flipped, held)
  }

  /** A card is face up exactly when it is listed somewhere, and matched
      exactly when it is in the matched list. */
  ghost predicate FlagsTracked(cards: seq<Card>, flipped: seq<nat>, matched: seq<nat>, held: seq<nat>)
  {
    (forall i :: 0 <= i < |cards| ==> (cards[i].isFlipped <==> i in matched || i in flipped || i in held)) &&
    (forall i :: 0 <= i < |cards| ==> (cards[i].isMatched <==> i in matched))
  }

  /** The matched cards were added two by two, each two showing one face, and
      every scheduled flip-back holds two different faces. */
  ghost predicate FacesPaired(cards: seq<Card>, matched: seq<nat>, reverts: seq<(nat, nat)>, pairs: nat)
  {
    |matched| == 2 * pairs &&
    (forall p :: 0 <= p < pairs ==> SamePair(cards, matched, p)) &&
    (forall r :: 0 <= r < |reverts| ==> Mismatch(cards, reverts[r]))
  }

  /** The state of the table between two steps of play. `flipped` holds the
      face-up cards waiting for a partner (two of them only inside a step). */
  ghost predicate BoardInvariant(cards: seq<Card>, flipped: seq<nat>, matched: seq<nat>,
                                 reverts: seq<(nat, nat)>, pairs: nat)
  {
    DeckShape(cards) && |flipped| <= 2 &&
    ListsDisjoint(|cards|, flipped, matched, Unpair(reverts)) &&
    FlagsTracked(cards, flipped, matched, Unpair(reverts)) &&
    FacesPaired(cards, matched, reverts, pairs)
  }

  /** Steps of play change only flags, never ids or faces, so the parts of the
      invariant about ids and faces carry over. */
  lemma FacesFrame(cards: seq<Card>, c: seq<Card>, matched: seq<nat>, reverts: seq<(nat, nat)>, pairs: nat)
    requires |c| == |cards|
    requires forall i :: 0 <= i < |c| ==> c[i].id == cards[i].id && c[i].symbol == cards[i].symbol
    requires DeckShape(cards) && FacesPaired(cards, matched, reverts, pairs)
    ensures DeckShape(c) && FacesPaired(c, matched, reverts, pairs)
  {
    forall p | 0 <= p < pairs ensures SamePair(c, matched, p) {
      assert SamePair(cards, matched, p);
    }
    forall r | 0 <= r < |reverts| ensures Mismatch(c, reverts[r]) {
      assert Mismatch(cards, reverts[r]);
    }
  }

  /** The cards of a new round: ids 0..15 in order, the shuffled faces, all
      face down and unmatched. */
  function Deal(shuffled: seq<Symbol>): (cards: seq<Card>)
    requires |shuffled| == DeckSize
    ensures |cards| == DeckSize && Faces(cards) == shuffled
    ensures forall i :: 0 <= i < |cards| ==> cards[i].id == i && !cards[i].isFlipped && !cards[i].isMatched
  {
    seq(DeckSize, i requires 0 <= i < DeckSize => Card(i, shuffled[i], false, false))
  }

  /** Card `k` turned face up. */
  function Reveal(cards: seq<Card>, k: nat): (r: seq<Card>)
    requires k < |cards|
    ensures |r| == |cards| && r[k].isFlipped
    ensures r[k] == cards[k].(isFlipped := true)
    ensures forall i :: 0 <= i < |cards| && i != k ==> r[i] == cards[i]
  {
    cards[k := cards[k].(isFlipped := true)]
  }

  /** Cards `a` and `b` marked as matched. */
  function MarkMatched(cards: seq<Card>, a: nat, b: nat): (r: seq<Card>)
    requires a < |cards| && b < |cards|
    ensures |r| == |cards| && r[a].isMatched && r[b].isMatched
    ensures forall i :: 0 <= i < |cards| ==>
      r[i] == if i == a || i == b then cards[i].(isMatched := true) else cards[i]
  {
    cards[a := cards[a].(isMatched := true)][b := cards[b].(isMatched := true)]
  }

  /** Cards `a` and `b` turned face down. */
  function Conceal(cards: seq<Card>, a: nat, b: nat): (r: seq<Card>)
    requires a < |cards| && b < |cards|
    ensures |r| == |cards| && !r[a].isFlipped && !r[b].isFlipped
    ensures forall i :: 0 <= i < |cards| ==>
      r[i] == if i == a || i == b then cards[i].(isFlipped := false) else cards[i]
  {
    cards[a := cards[a].(isFlipped := false)][b := cards[b].(isFlipped := false)]
  }

  /** Scheduling one more flip-back lists its two cards after the others. */
  lemma {:induction false} UnpairAppend(reverts: seq<(nat, nat)>, a: nat, b: nat)
    ensures Unpair(reverts + [(a, b)]) == Unpair(reverts) + [a, b]
  {
    if reverts != [] {
      assert (reverts + [(a, b)])[1..] == reverts[1..] + [(a, b)];
      UnpairAppend(reverts[1..], a, b);
    }
  }

  /** A freshly dealt deck satisfies the invariant with nothing face up. */
  lemma DealtBoard(shuffled: seq<Symbol>)
    requires |shuffled| == DeckSize
    ensures BoardInvariant(Deal(shuffled), [], [], [], 0)
  {
  }

  /** Every face of a deck dealt from a shuffle of the symbol list lies on
      exactly two of its cards. */
  lemma DealtFacesPaired(shuffled: seq<Symbol>, symbols: seq<Symbol>, x: Symbol)
    requires EachFaceTwice(symbols) && multiset(shuffled) == multiset(symbols)
    ensures |shuffled| == DeckSize
    ensures |Positions(Faces(Deal(shuffled)), x)| == if x in Alphabet then 2 else 0
  {
    ShuffledFacesPaired(shuffled, symbols, x);
    assert Faces(Deal(shuffled)) == shuffled;
  }

  /** Turning up a face-down card while at most one card waits for a partner
      keeps the invariant, with that card added to the waiting list. */
  lemma RevealKeepsBoard(cards: seq<Card>, flipped: seq<nat>, matched: seq<nat>,
                         reverts: seq<(nat, nat)>, pairs: nat, k: nat)
    requires BoardInvariant(cards, flipped, matched, reverts, pairs)
    requires |flipped| <= 1 && k < |cards| && !cards[k].isFlipped
    ensures BoardInvariant(Reveal(cards, k), flipped + [k], matched, reverts, pairs)
  {
    var c := Reveal(cards, k);
    var u := Unpair(reverts);
    FacesFrame(cards, c, matched, reverts, pairs);
    assert k !in matched && k !in flipped && k !in u;
    var f := flipped + [k];
    assert forall j :: j in f ==> j in flipped || j == k;
    assert ListsDisjoint(|c|, f, matched, u);
  }

  /** Two waiting cards with one face become a matched pair: they leave the
      waiting list and join the matched list. */
  lemma MatchKeepsBoard(cards: seq<Card>, matched: seq<nat>, reverts: seq<(nat, nat)>,
                        pairs: nat, a: nat, b: nat)
    requires a < |cards| && b < |cards|
    requires BoardInvariant(cards, [a, b], matched, reverts, pairs)
    requires cards[a].symbol == cards[b].symbol
    ensures BoardInvariant(MarkMatched(cards, a, b), [], matched + [a, b], reverts, pairs + 1)
  {
    var c := MarkMatched(cards, a, b);
    var m := matched + [a, b];
    var u := Unpair(reverts);
    FacesFrame(cards, c, matched, reverts, pairs);
    assert a in [a, b] && b in [a, b];
    assert a != b by { assert [a, b][0] != [a, b][1]; }
    assert a !in matched && b !in matched && a !in u && b !in u;
    assert forall j :: j in m ==> j in matched || j == a || j == b;
    assert ListsDisjoint(|c|, [], m, u);
    assert FlagsTracked(c, [], m, u);
    forall p | 0 <= p < pairs + 1 ensures SamePair(c, m, p) {
      if p < pairs {
        assert SamePair(c, matched, p);
      } else {
        assert m[2 * p] == a && m[2 * p + 1] == b;
      }
    }
    forall r | 0 <= r < |reverts| ensures Mismatch(c, reverts[r]) {
      assert Mismatch(cards, reverts[r]);
    }
  }

  /** Two waiting cards with different faces leave the waiting list and are
      scheduled to be turned face down; they stay face up meanwhile. */
  lemma MismatchKeepsBoard(cards: seq<Card>, matched: seq<nat>, reverts: seq<(nat, nat)>,
                           pairs: nat, a: nat, b: nat)
    requires a < |cards| && b < |cards|
    requires BoardInvariant(cards, [a, b], matched, reverts, pairs)
    requires cards[a].symbol != cards[b].symbol
    ensures BoardInvariant(cards, [], matched, reverts + [(a, b)], pairs)
  {
    var rs := reverts + [(a, b)];
    UnpairAppend(reverts, a, b);
    var u := Unpair(reverts);
    var u' := Unpair(rs);
    assert a in [a, b] && b in [a, b];
    assert a != b;
    assert a !in matched && b !in matched && a !in u && b !in u;
    assert forall j :: j in u' ==> j in u || j == a || j == b;
    assert ListsDisjoint(|cards|, [], matched, u');
    assert FlagsTracked(cards, [], matched, u');
    forall r | 0 <= r < |rs| ensures Mismatch(cards, rs[r]) {
      if r < |reverts| {
        assert Mismatch(cards, reverts[r]);
      }
    }
  }

  /** The oldest scheduled flip-back turns its two cards face down and leaves
      the schedule. */
  lemma ConcealKeepsBoard(cards: seq<Card>, flipped: seq<nat>, matched: seq<nat>,
                          reverts: seq<(nat, nat)>, pairs: nat)
    requires BoardInvariant(cards, flipped, matched, reverts, pairs) && reverts != []
    ensures reverts[0].0 < |cards| && reverts[0].1 < |cards|
    ensures BoardInvariant(Conceal(cards, reverts[0].0, reverts[0].1), flipped, matched, reverts[1..], pairs)
  {
    var a, b := reverts[0].0, reverts[0].1;
    var u := Unpair(reverts);
    var rest := Unpair(reverts[1..]);
    assert u == [a, b] + rest;
    assert u[0] == a && u[1] == b;
    assert a < |cards| && b < |cards|;
    var c := Conceal(cards, a, b);
    FacesFrame(cards, c, matched, reverts, pairs);
    forall k | k in rest ensures k in u && k != a && k != b {
      var j :| 0 <= j < |rest| && rest[j] == k;
      assert u[j + 2] == k;
    }
    assert a !in matched && b !in matched && a !in flipped && b !in flipped;
    assert Distinct(rest) by {
      forall i, j | 0 <= i < j < |rest| ensures rest[i] != rest[j] {
        assert u[i + 2] == rest[i] && u[j + 2] == rest[j];
      }
    }
    forall j | 0 <= j < |rest| ensures rest[j] < |c| {
      assert u[j + 2] == rest[j];
    }
    assert ListsDisjoint(|c|, flipped, matched, rest);
    assert FlagsTracked(c, flipped, matched, rest);
    assert FacesPaired(c, matched, reverts[1..], pairs) by {
      forall r | 0 <= r < |reverts| - 1 ensures Mismatch(c, reverts[1..][r]) {
        assert Mismatch(c, reverts[r + 1]);
      }
    }
  }

  /** The positions `0 .. n-1`. */
  ghost function Range(n: nat): (r: set<nat>)
    ensures forall i :: i in r ==> i < n
    ensures forall i :: 0 <= i < n ==> i in r
    ensures |r| == n
  {
    if n == 0 then {} else Range(n - 1) + {n - 1}
  }

  /** The entries of a sequence, as a set. */
  ghost function Elements(s: seq<nat>): set<nat>
  {
    set k | k in s
  }

  /** A sequence without repeats has as many entries as distinct elements. */
  lemma {:induction false} DistinctCard(s: seq<nat>)
    requires Distinct(s)
    ensures |Elements(s)| == |s|
  {
    if s != [] {
      var tail := s[1..];
      assert Distinct(tail) by {
        forall i, j | 0 <= i < j < |tail| ensures tail[i] != tail[j] {
          assert tail[i] == s[i + 1] && tail[j] == s[j + 1];
        }
      }
      DistinctCard(tail);
      assert s[0] !in tail by {
        forall j | 0 <= j < |tail| ensures tail[j] != s[0] {
          assert tail[j] == s[j + 1];
        }
      }
      assert s == [s[0]] + tail;
      assert Elements(s) == {s[0]} + Elements(tail);
    } else {
      assert Elements(s) == {};
    }
  }

  /** A list of distinct positions of an `n`-card deck has at most `n`
      entries, and with exactly `n` entries it names every position. */
  lemma DistinctPositions(s: seq<nat>, n: nat)
    requires Distinct(s) && InDeck(s, n)
    ensures |s| <= n
    ensures |s| == n ==> forall i :: 0 <= i < n ==> i in s
  {
    var elems, range := Elements(s), Range(n);
    DistinctCard(s);
    assert elems <= range by {
      forall k | k in elems ensures k in range {
        var j :| 0 <= j < |s| && s[j] == k;
      }
    }
    assert range == elems + (range - elems);
    assert |range| == |elems| + |range - elems|;
    if |s| == n {
      assert range - elems == {};
      forall i | 0 <= i < n ensures i in s {
        assert i in range;
      }
    }
  }

  /** Joining two lists without repeats and without common entries gives a
      list without repeats. */
  lemma DistinctJoin(a: seq<nat>, b: seq<nat>)
    requires Distinct(a) && Distinct(b) && Disjoint(a, b)
    ensures Distinct(a + b)
  {
    var ab := a + b;
    forall i, j | 0 <= i < j < |ab| ensures ab[i] != ab[j] {
      if j < |a| {
        assert ab[i] == a[i] && ab[j] == a[j];
      } else if i >= |a| {
        assert ab[i] == b[i - |a|] && ab[j] == b[j - |a|];
      } else {
        assert ab[i] == a[i] && ab[j] == b[j - |a|];
        assert a[i] in a && b[j - |a|] in b;
      }
    }
  }

  /** The matched cards, the waiting cards and the cards of the scheduled
      flip-backs together never outnumber the deck. */
  lemma FaceUpBounded(cards: seq<Card>, flipped: seq<nat>, matched: seq<nat>,
                      reverts: seq<(nat, nat)>, pairs: nat)
    requires BoardInvariant(cards, flipped, matched, reverts, pairs)
    ensures 2 * pairs + |flipped| + 2 * |reverts| <= |cards| <= DeckSize
  {
    var u := Unpair(reverts);
    DistinctJoin(matched, flipped);
    assert Disjoint(matched + flipped, u) by {
      forall k | k in matched + flipped ensures k !in u {
        assert k in matched || k in flipped;
      }
    }
    DistinctJoin(matched + flipped, u);
    var all := matched + flipped + u;
    assert InDeck(all, |cards|) by {
      forall i | 0 <= i < |all| ensures all[i] < |cards| {
        if i < |matched| {
          assert all[i] == matched[i];
        } else if i < |matched| + |flipped| {
          assert all[i] == flipped[i - |matched|];
        } else {
          assert all[i] == u[i - |matched| - |flipped|];
        }
      }
    }
    DistinctPositions(all, |cards|);
  }

  /** At most eight pairs can ever be matched. */
  lemma PairsBounded(cards: seq<Card>, flipped: seq<nat>, matched: seq<nat>,
                     reverts: seq<(nat, nat)>, pairs: nat)
    requires BoardInvariant(cards, flipped, matched, reverts, pairs)
    ensures pairs <= MaxPairs
  {
    FaceUpBounded(cards, flipped, matched, reverts, pairs);
  }

  /** Once eight pairs are matched the whole deck is matched and face up, and
      nothing waits for a partner or a flip-back. */
  lemma AllMatchedAtMaxPairs(cards: seq<Card>, flipped: seq<nat>, matched: seq<nat>,
                             reverts: seq<(nat, nat)>, pairs: nat)
    requires BoardInvariant(cards, flipped, matched, reverts, pairs) && pairs == MaxPairs
    ensures |cards| == DeckSize
    ensures forall i :: 0 <= i < |cards| ==> cards[i].isMatched && cards[i].isFlipped
    ensures flipped == [] && reverts == []
  {
    FaceUpBounded(cards, flipped, matched, reverts, pairs);
    DistinctPositions(matched, |cards|);
  }
}
