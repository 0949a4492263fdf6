# Memory game controller — a Dafny model

The memory game is a single controller object, `MemoryGame`. It deals 16
cards: eight heart faces, each on two cards. The player turns cards face up
two at a time. Two equal faces stay up as a matched pair. Two different faces
are turned face down again one second later. Finding all eight pairs wins
the round; five minutes on the clock loses it. The scoreboard shows the pairs
found, the moves made and the elapsed time as `MM:SS`.

The model has four modules:

- `Cards` (`cards.dfy`): the card record, the eight faces and the 16-entry
  symbol list. It proves that any reordering of that list puts every face on
  exactly two positions.
- `Board` (`board.dfy`): the table as plain values. These are the cards, the
  face-up cards waiting for a partner, the matched cards and the mismatched
  pairs whose flip-back is still scheduled. `BoardInvariant` ties them
  together, and there is one lemma per step of play showing that the step
  keeps it. Counting lemmas then show that reaching eight pairs means every
  card is matched.
- `Clock` (`clock.dfy`): the `MM:SS` text of the scoreboard. It proves that
  the text reads back as the elapsed seconds and that it is five characters
  long below 100 minutes.
- `Game` (`game.dfy`): the `MemoryGame` class. Its fields are the
  controller's fields, and its methods update them in place. The two
  callbacks the controller hands to the browser's one-shot timer are fields
  too:
  - `pendingReverts`: the flip-backs scheduled by mismatches, oldest first;
  - `pendingWins`: the win calls scheduled by the last pair.

  `RevertTimeout` and `WinTimeout` run them. `Tick` is the body of the
  one-second repeating timer. The caller chooses when each of these runs.

Like the code, `checkMatch` empties the list of waiting cards at once, even
on a mismatch. So a third card can be turned up while the mismatched two are
still face up, waiting for their flip-back. `Valid()` and `BoardInvariant`
keep track of both groups.

A new deal replaces the card objects. Flip-backs still scheduled for the old
cards can no longer touch the new deck, so `CreateCards` drops them. A win
still scheduled acts on the controller itself, so `StartGame` keeps it.

`restartGame` (script.js:238-246) only switches screens and stops the timer.
Pairs, moves, elapsed time and the deck keep their values until the next
`startGame`; `Game.MemoryGame.RestartGame` states that they are unchanged.

## Model

| member | source | states |
|---|---|---|
| Cards.SymbolsEachFaceTwice | script.js:29 | the symbol list has 16 entries, naming each of the eight faces exactly twice and nothing else |
| Cards.ShuffledFacesPaired | script.js:97 | any reordering of such a list has 16 entries, with each face on exactly two positions and no other symbol anywhere |
| Board.Deal | script.js:100-111 | the deck built by the loop: 16 cards whose faces are the shuffled list in order, card `i` has id `i`, and every card is face down and unmatched |
| Board.DealtBoard | script.js:92-111 | the freshly dealt deck, with nothing waiting, matched or scheduled and zero pairs, satisfies the board invariant |
| Board.DealtFacesPaired | script.js:97-109 | on the dealt deck every face lies on exactly two cards |
| Board.Reveal | script.js:136 | turning card `k` up sets its face-up flag and changes no other card and no other field |
| Board.MarkMatched | script.js:156-157 | marking `a` and `b` matched sets both matched flags and changes no other card or field |
| Board.Conceal | script.js:179-180 | the flip-back clears the face-up flags of `a` and `b` and changes no other card or field |
| Board.RevealKeepsBoard | script.js:131-137 | turning up a face-down card while fewer than two wait keeps the invariant, with the card appended to the waiting list |
| Board.MatchKeepsBoard | script.js:152-163 | two waiting equal faces become a matched pair: the invariant holds with one more pair, two more matched entries and an empty waiting list |
| Board.MismatchKeepsBoard | script.js:171-188 | two waiting different faces stay up as a scheduled flip-back; the invariant holds with an empty waiting list |
| Board.ConcealKeepsBoard | script.js:178-185 | the oldest scheduled flip-back names two cards of the deck, and turning them down while dropping it keeps the invariant |
| Board.FaceUpBounded | script.js:131 | matched, waiting and flip-back cards are distinct positions of the deck, so together there are at most 16 |
| Board.PairsBounded | script.js:163 | the pair counter never exceeds 8 |
| Board.AllMatchedAtMaxPairs | script.js:168-169 | at 8 pairs all 16 cards are face up and matched, nothing waits and no flip-back is scheduled |
| Clock.DecimalText | script.js:254 | a number's decimal text is non-empty, all digits, one digit exactly below 10 and at most two below 100 |
| Clock.DecimalRoundTrip | script.js:254 | the decimal text of `n` reads back as `n` |
| Clock.NoLeadingZero | script.js:254 | a number's decimal text starts with '0' exactly when the number is zero, so it has no leading zeros |
| Clock.PadStart | script.js:254 | padding reaches the width, ends with the original text and fills the front with the pad character |
| Clock.Field | script.js:252-254 | a padded field is all digits, reads back as its number, and is two characters below 100 |
| Clock.FieldWidth | script.js:254 | a padded field is two characters exactly when its number is below 100 |
| Clock.JoinedRoundTrip | script.js:252-254 | minutes and seconds below 60, joined by ':', read back as `60 * minutes + seconds` |
| Clock.FormatTime | script.js:252-254 | the timer text: the padded whole minutes `t / 60`, a ':', the padded remaining seconds `t % 60`; it has no contract of its own, and `FormatTimeRoundTrip` and `FormatTimeWidth` state what it produces |
| Clock.FormatTimeRoundTrip | script.js:252-254 | the timer text for `t` reads back as `t`, and its seconds field is below 60 |
| Clock.FormatTimeWidth | script.js:252-254 | the timer text is five characters long exactly when `t < 6000` |
| Game.FindById | script.js:129 | the result is the first position carrying the id, or None exactly when no card carries it |
| Game.MemoryGame.constructor | script.js:2-32 | stopped, zero counters, sound on, no cards, the 16-entry symbol list, and the start screen shown |
| Game.MemoryGame.CanFlip | script.js:127-133 | the guard of a flip: the round runs, a card carries the id (ids are positions), it is face down and unmatched, and fewer than two cards wait; `FlipCard` states that a flip failing it changes nothing |
| Game.MemoryGame.StartGame | script.js:76-90 | counters zeroed, lists emptied, running, game area shown, and a deck of cards `i` with face `shuffled[i]`, face down, unmatched, each face on exactly two cards |
| Game.MemoryGame.CreateCards | script.js:92-112 | the deck becomes the 16 dealt cards built by the loop; flip-backs for the old deck are dropped |
| Game.MemoryGame.FlipCard | script.js:126-149 | nothing changes unless the round runs and the card exists, is face down, is unmatched and fewer than two wait; a first card is turned up and waits; a second card counts one move, empties the waiting list, and is resolved as a pair or as a scheduled flip-back |
| Game.MemoryGame.TurnUp | script.js:136-137 | the card turns face up and is appended to the waiting cards, and the board invariant holds afterwards |
| Game.MemoryGame.CheckMatch | script.js:151-189 | equal faces: both matched, pair counted, matched list grows by the two, win scheduled at 8 pairs; different faces: flip-back scheduled, cards and pairs unchanged; either way nothing waits afterwards |
| Game.MemoryGame.KeepPair | script.js:154-163 | equal faces: both cards are marked matched, the matched list grows by the two, the pair counter goes up by one, no card waits, and the board invariant holds |
| Game.MemoryGame.ScheduleRevert | script.js:171-188 | different faces: the pair joins the scheduled flip-backs, the cards stay as they are, no card waits, and the board invariant holds |
| Game.MemoryGame.RevertTimeout | script.js:178-185 | the oldest scheduled flip-back turns its two face-up cards down and nothing else changes |
| Game.MemoryGame.WinTimeout | script.js:168-169 | the scheduled win runs `WinGame` and is consumed |
| Game.MemoryGame.Tick | script.js:192-201 | stopped: nothing changes; running: one more second, and at 300 seconds the round ends as lost |
| Game.MemoryGame.WinGame | script.js:205-213 | stops the round and swaps the game area for the victory screen; counters unchanged |
| Game.MemoryGame.GameOver | script.js:215-222 | stops the round and swaps the game area for the game-over screen; pairs and the other counters unchanged |
| Game.MemoryGame.AcceptProposal | script.js:224-231 | swaps the victory screen for the final screen; nothing else changes |
| Game.MemoryGame.RejectProposal | script.js:233-236 | the same as a restart |
| Game.MemoryGame.RestartGame | script.js:238-246 | stopped with only the start screen shown; counters and deck unchanged |
| Game.MemoryGame.ToggleMute | script.js:257-261 | flips the mute flag and nothing else |
| Game.MemoryGame.TimerText | script.js:252-254 | the scoreboard's timer text is five characters long and reads back as the elapsed seconds |

## Left out

- The page itself is not modelled: element lookups, class names, card
  elements, inner text and the pair and move displays. Which screens are
  shown is kept as a set of screens. The start screen is taken to be the
  only one shown when the page loads, since the markup is not part of this
  model.
- Sound is not modelled (`initSounds`, `playSound`, script.js:40-65): it
  uses the browser's audio API and floating point. Muting only flips
  `isMuted`.
- The shuffle (script.js:97) is an input to `StartGame`: any reordering of
  the symbol list. Sorting with a random comparator is not modelled, and the
  model says nothing about how uniform the order is.
- Real time is not modelled. The repeating timer and the two one-shot delays
  are actions the caller invokes. `gameRunning` is true exactly while the
  repeating timer is alive, so the model has no separate timer handle.
  Scheduled flip-backs all have the same delay, so they run oldest first.
- Cards are kept by position in the deck rather than by object reference.
  The ids equal the positions, so the two name the same card.
- Event wiring (script.js:67-74) and the page-load bootstrap
  (script.js:265-267) are not modelled: they only connect buttons to the
  methods above.
- The message box shown by `rejectProposal` (script.js:234) is not modelled.
- Card faces are the emoji strings of the symbol list, compared as
  sequences of characters.
