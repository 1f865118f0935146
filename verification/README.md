# Mantis in Dafny

A model of the rules engines and the computer players of Mantis, a card game
for two to four players. Each card shows three possible colours on its back
and one actual colour on its front. On a turn a player draws the top card and
plays it either into their own tank ("score") or into another player's tank
("steal"). If the tank already holds that colour, every card of the colour
moves: to the player's score pile when scoring, or to the player's own tank
when stealing. Otherwise the card stays where it landed.

The repository has two engines, and both are modelled.

- **The count-vector engine** (src/game/game_logic.py).
  - The game is a list of 36 integers. Each of the four players has seven
    colour counts and a score.
  - The last four entries are the next card: three possible colours and the
    actual one.
  - Modules `GameLogic` and `Sampling` model it. The strategies that play on
    it are in `Selection`, `Bots` (src/bots.py) and `GameBots`
    (src/game/bots.py).
- **The object engine** (mantis_logic.py and utils.py).
  - Cards, players, a deck of 105 cards and the turn.
  - Modules `Colours`, `Cards`, `Utils`, `MantisLogic` and `Turns` model it.
    `Brains` models the target-choosing brains of brains.py.
- `ReplayBuffer` models the bounded experience buffer of rl/replay_buffer.py.
  Beyond `add` and `size`, it also models `sample`, with the generator's
  choices as input, because its ValueError on an oversized batch is part of
  the buffer's behaviour towards its callers.

Randomness is data.
- `random.sample(pool, k)` becomes a list of picks; pick j indexes the pool
  left after the first j picks. `Sampling.SampleReachesEvery` shows that
  every possible outcome is reachable.
- `randint` becomes an argument within its range.

Python exceptions become `Result` values: `Err(IndexError)`,
`Err(AssertionError)`, `Err(LookupError)`, `Err(ValueError)` or
`Err(KeyError)`. Objects that the source mutates in place become values that
the operations return.

A Python `Card` is compared by identity. The model gives every card a unique
`id`, so equal cards are the same object, and `list.remove` removes the first
occurrence of that object. utils.py repeats the colour registry and the
functions `convert_colour_index_to_name`, `convert_colour_list_to_names` and
`validate_colour` from mantis_logic.py (utils.py:20-31 and utils.py:45-46 match
mantis_logic.py:172-185 line for line). `Colours` defines them once, and the
table cites the mantis_logic.py copy.

The game's rules say the front colour is always one of the back colours
(mantis_logic.py:10). The code does not enforce this: a card built with both
a colour and a list of possible colours is accepted without checking that
the colour is in the list. The model follows the code, and
`MantisLogic.CardContainmentNotChecked` shows such a card being built.

## Model

| member | source | states |
|---|---|---|
| Colours.IndexToName | mantis_logic.py:172-176 | Indices 1..7 name red, orange, yellow, green, blue, purple, pink. Every other integer raises LookupError. |
| Colours.IndexListToNames | mantis_logic.py:178-182 | Succeeds exactly when every index is in 1..7. It then returns the names element by element, keeping order and length. Otherwise it raises LookupError. |
| Colours.ValidateColourIgnoresCase | mantis_logic.py:184-185 | A string is a valid colour exactly when it equals one of the seven names up to case. |
| Colours.NamesValidAndDistinct | mantis_logic.py:46-54 | Every registry name validates, and no two registry entries share a name. |
| Colours.IndexToNameValidAndInjective | mantis_logic.py:46-54 | The name of a valid index validates, and different indices give different names. |
| Colours.ValidateColourExamples | mantis_logic.py:184-185 | "red", "pink", "Red" and "PURPLE" are valid; "1" and "" are not. "pin" followed by KELVIN SIGN is valid because Python lower-cases that sign to "k". |
| Sampling.Sample | src/game/game_logic.py:43-44 | Drawing k picks without replacement yields k elements of the pool. They are pairwise distinct when the pool is. |
| Sampling.SampleReachesEvery | src/game/game_logic.py:43-44 | Every ordered selection of distinct pool elements is the outcome of some valid picks. |
| Sampling.PossibleIndices | mantis_logic.py:117-118 | The sampled possible colours are three distinct indices in 1..7. |
| GameLogic.GenerateCard | src/game/game_logic.py:38-46 | A generated card has four entries. The first three are distinct colours in 1..7, and the fourth (the actual colour) is one of them. |
| GameLogic.GenerateCardReachesEvery | src/game/game_logic.py:38-46 | Every card of that shape can be generated, so the contract above is exact. |
| GameLogic.NewCard | src/game/game_logic.py:48-52 | The last four slots receive a valid card: distinct possible colours, with the actual colour among them. All tank and score slots are unchanged. |
| GameLogic.ResetState | src/game/game_logic.py:54-69 | After a reset, every score is 0 and every count is non-negative. Each tank count equals how often its offset was dealt. Each tank total is four minus the number of sevens dealt to that player. A valid next card is in place: three distinct possible colours, with the actual colour among them. |
| GameLogic.DealAll | src/game/game_logic.py:58-66 | Dealing all four players sets each player's colour counts to their four dealt offsets. It zeroes each score and leaves no negative entry. |
| GameLogic.DealHand | src/game/game_logic.py:63-65 | Dealing one hand adds each dealt offset to that player's block and changes no other player's slots. |
| GameLogic.TankTotalFromCounts | src/game/game_logic.py:62-66 | A tank built from a hand holds the hand's size minus the draws that hit the score slot. |
| GameLogic.ResetCanLeaveTankEmpty | src/game/game_logic.py:62-66 | With all sixteen draws equal to 7, a reset leaves every player's tank empty rather than holding four cards. |
| GameLogic.ResetStateIntended | src/game/game_logic.py:54-69 | With offsets drawn from 0..6, every tank holds exactly four cards and every score is 0. Sixteen cards are in play, and a valid next card is in place. |
| GameLogic.CardCountByPlayer | src/game/game_logic.py:6-18 | The cards in play are the sum over the four players of tank total plus score. |
| GameLogic.ConvertColor | src/game/game_logic.py:71-94 | Index i in 1..7 gives the i-th registry colour name spelled with an upper-case first letter ("Red" .. "Pink"), which lowers back to the registry name; every other index gives "Unknown". |
| GameLogic.DisplaySpellings | src/game/game_logic.py:83-91 | The seven display names of the colour table are exactly the registry names with the first letter raised. |
| GameLogic.CheckGameover | src/game/game_logic.py:120-130 | The result is None exactly when no score reaches the goal. Otherwise it is the lowest-indexed player whose score reaches the goal. |
| GameLogic.ScoreAction | src/game/game_logic.py:167-187 | On a match, the colour count is cleared and the score grows by that count plus one (the drawn card). Without a match, the count becomes 1. Every other slot is unchanged. |
| GameLogic.StealAction | src/game/game_logic.py:189-212 | On a match, the target's count is cleared and the thief's count of that colour grows by it plus one. Without a match, the target's count becomes 1. No other slot changes, including when thief and target coincide. |
| GameLogic.ScoreAddsOneCard | src/game/game_logic.py:167-187 | Scoring keeps all counts non-negative and adds exactly one card (the drawn one) to the game. |
| GameLogic.StealAddsOneCard | src/game/game_logic.py:189-212 | Stealing keeps all counts non-negative, adds exactly one card and changes no score. |
| GameLogic.Action | src/game/game_logic.py:140-165 | A missing target or one at or above 4 fails the assertion. Targeting oneself scores, and any other target is stolen from, using the actual colour of the next card. |
| GameLogic.ActionEffects | src/game/game_logic.py:140-165 | An action adds exactly one card to the game and keeps counts non-negative. A steal changes no score, and no action changes another player's score. |
| GameLogic.SimulateTurn | src/game/game_logic.py:214-235 | A turn fails exactly when the action does. Otherwise it applies the action to tanks and scores and then places a freshly generated valid card. |
| GameLogic.SimulateTurnAddsOneCard | src/game/game_logic.py:214-235 | A turn with a target below 4 succeeds, adds exactly one card to the game and keeps counts non-negative. |
| Selection.FirstMax | src/bots.py:9-22 | A strict `>` scan starting from 0 returns the default when no eligible value is positive. Otherwise it returns the lowest eligible index holding the greatest value. |
| Bots.MatchCountFull | src/bots.py:14-17 | A player's match count is at most 3. It is 3 exactly when they hold every possible colour, and positive exactly when they hold at least one. |
| Bots.MatchPlayer | src/bots.py:8-22 | If nobody holds a possible colour, the result is the caller. Otherwise it is the lowest-indexed player holding the most possible colours. |
| Bots.MatcherBot | src/bots.py:34-35 | The Matcher plays MatchPlayer's choice, which is a player index whenever the caller is one. |
| Bots.ScorerBot | src/bots.py:47-49 | The Scorer always targets itself, so it always scores. |
| Bots.CertaintyBot | src/bots.py:62-72 | The bot scores if it holds any possible colour; otherwise it follows MatchPlayer. The result is a player index. |
| Bots.ThiefBot | src/bots.py:85-95 | The bot scores exactly when it holds all three possible colours; otherwise it follows MatchPlayer. |
| Bots.DefenderBot | src/bots.py:122-136 | Among players holding a possible colour and having a positive score, the bot picks the lowest-indexed one with the top score. If there is none, it falls back to MatchPlayer. |
| GameBots.MatcherBot | src/game/bots.py:14-27 | If every quantity is zero, the result is the caller. Otherwise it is the lowest-indexed player holding the most cards of the possible colours. |
| GameBots.StealTarget | src/game/bots.py:49-60 | Among the other players, the result is the lowest-indexed one holding the most cards of the possible colours. If none holds any, it is the caller. |
| GameBots.ScorerBot | src/game/bots.py:40-60 | The bot scores whenever it holds any card of a possible colour. Otherwise it steals, and never from a player holding none. |
| GameBots.ThiefBot | src/game/bots.py:73-93 | The bot scores exactly when its quantity of possible-colour cards is 3; otherwise it makes the steal choice. |
| GameBots.ThiefAgreesWithScorerWhenEmpty | src/game/bots.py:40-93 | When the bot holds nothing of the possible colours, the Thief and the Scorer pick the same target. |
| GameBots.ThiefCountsQuantityNotColours | src/game/bots.py:73-79 | Any state in which player 0 holds three red cards and player 1 one orange card, and the next card may be red, orange or yellow. The Thief scores, though it lacks orange and yellow, where the described Thief steals from player 1. |
| GameBots.ThiefExampleIsCase | src/game/bots.py:73-79 | Such a state exists: an all-zero state with those cards and that next card is one. |
| GameBots.RedOrangeYellow | src/game/bots.py:74-77 | When the possible colours are red, orange and yellow, a player's quantity is their red, orange and yellow tank counts added up. |
| GameBots.StealFromSoleHolder | src/game/bots.py:82-93 | When exactly one other player holds cards of the possible colours, the steal goes to that player. |
| GameBots.ThiefBotIntended | src/game/bots.py:63-68 | The corrected Thief scores exactly when it holds every possible colour; otherwise it makes the steal choice and never robs an empty-handed player. |
| GameBots.ThiefAgreesWhenSingles | src/game/bots.py:73-93 | When the Thief holds at most one card of each possible colour, the original and the corrected Thief agree. |
| Cards.MatchingNonEmpty | mantis_logic.py:137-141 | The search over the tank finds a card of the drawn colour exactly when the cards of that colour form a non-empty list. |
| Cards.FilterMembers | utils.py:57-64 | A card is selected exactly when it is in the list with that colour. It is left out exactly when it is in the list with another colour. |
| Cards.PartitionByColour | utils.py:57-64 | Selecting one colour and its complement loses and invents no card, and both parts keep the list's order. |
| Utils.TankColours | utils.py:49-54 | The result lists the colours of the tank's cards in order. A colour appears in it exactly when some tank card has it. |
| Utils.MatchingCards | utils.py:57-64 | An invalid colour fails the assertion. Otherwise the result is an ordered sub-list holding exactly the cards of that colour. |
| Utils.MatchingOfPlayer | utils.py:67-70 | The same holds for a player's tank: an invalid colour fails the assertion, and otherwise the result is an ordered sub-list of the tank holding exactly its cards of that colour. |
| Utils.MoveColours | utils.py:73-82 | Removing each selected card by identity leaves exactly the other-coloured cards, in order. The target gains the selected cards in order, and the count is the number moved. |
| Utils.MoveColoursConserves | utils.py:73-82 | Moving cards keeps every card, leaves no card of the colour in the source, and keeps the source's order. |
| Utils.MoveColoursFromTank | utils.py:85-89 | Applied to a tank, the move leaves the other-coloured cards in the tank and appends the matching ones to the target. |
| Utils.Strip | utils.py:96 | Stripping removes leading and trailing whitespace only: the result is a contiguous slice with no whitespace at either end. |
| Utils.ListToSpacedString | utils.py:91-96 | For every list, the result is the items joined by single spaces with the surrounding whitespace stripped; it never starts or ends with whitespace. |
| Utils.SpacedStripsLikeJoin | utils.py:93-96 | Appending a space after each item and stripping gives the same string as joining with single spaces and stripping. |
| Utils.StripIgnoresTrailingSpace | utils.py:96 | One extra trailing space never changes the result of stripping. |
| Utils.SpacedStringIsJoin | utils.py:91-96 | When the first item does not start with whitespace and the last does not end with it, nothing is stripped: the result is the items joined by single spaces. |
| Utils.SpacedStringExamples | utils.py:91-96 | ["red", "blue"] gives "red blue"; [] gives ""; [" ", ""] gives "". |
| MantisLogic.DrawCard | mantis_logic.py:68-71 | Drawing from an empty deck raises IndexError. Otherwise it returns the last card, and the remaining deck plus that card is the old deck. |
| MantisLogic.DrawCards | mantis_logic.py:80-81 | Drawing k cards succeeds exactly when the deck has k. The drawn cards come from the top down, and the deck keeps its bottom part. |
| MantisLogic.DrawCardsConserves | mantis_logic.py:80-81 | The drawn cards and the rest of the deck are together exactly the old deck. |
| MantisLogic.DealOne | mantis_logic.py:78-82 | A player's new tank is the top four cards in drawing order; the rest of the player is unchanged. Fewer than four cards raises IndexError. |
| MantisLogic.DealOneConserves | mantis_logic.py:78-82 | The dealt tank and the remaining deck together are the old deck. |
| MantisLogic.DealCards | mantis_logic.py:77-82 | Dealing succeeds exactly when the deck holds four cards per player. Names and score piles are kept, each tank holds four cards, and the deck loses 4·n cards from the top. |
| MantisLogic.DealtTank | mantis_logic.py:77-82 | Player i receives deck positions 4i to 4i+3 counted from the top, in drawing order. |
| MantisLogic.DealCardsConserves | mantis_logic.py:77-82 | Starting from empty tanks, dealing moves cards from the deck to the tanks without losing or inventing any. |
| MantisLogic.RandomPossible | mantis_logic.py:117-118 | Random possible colours are three distinct valid colour names. |
| MantisLogic.OverwriteKeepsDistinct | mantis_logic.py:108-109 | Replacing the first possible colour by an absent colour keeps the possible colours distinct. |
| MantisLogic.NewCard | mantis_logic.py:98-121 | An invalid supplied possible colour or colour fails the assertion. A random colour drawn from too short a supplied list raises IndexError. Supplied values are kept. A random colour is always among the possible colours, and every possible colour of a built card is valid. Generated possibilities are three distinct names: exactly the random ones, unless a supplied colour is missing from them, in which case it replaces the first. |
| MantisLogic.CardContainmentNotChecked | mantis_logic.py:102-113 | A card with colour "red" and possible colours ["blue"] is accepted as given. |
| MantisLogic.ShuffleDeck | mantis_logic.py:84-89 | The new deck holds 105 distinct cards, each with three distinct valid possible colours, one of which is its colour. |
| MantisLogic.StartGame | mantis_logic.py:73-75 | Starting succeeds exactly when there are at most 26 players. Every player then holds four cards, and the deck has 105 − 4·n. |
| MantisLogic.FourPlayerDeck | mantis_logic.py:55-58 | A four-player game starts with 89 cards in the deck. |
| MantisLogic.IsValidName | mantis_logic.py:91-95 | A name is valid exactly when no registered player has it. |
| MantisLogic.NewPlayer | mantis_logic.py:124-131 | A duplicate name raises ValueError. Otherwise the player has that name and an empty tank and score pile. |
| MantisLogic.Walk | mantis_logic.py:160-165 | The walk splits the tank into kept and moved cards without changing the total, and every moved card has the colour. |
| MantisLogic.WalkConserves | mantis_logic.py:160-165 | The kept and moved cards together are exactly the tank's cards. |
| MantisLogic.WalkKeepsOrder | mantis_logic.py:160-165 | Both parts keep the tank's order. |
| MantisLogic.WalkMovesFirstMatch | mantis_logic.py:160-165 | If the tank holds the colour, the first card of that colour is moved first. |
| MantisLogic.WalkMovesHalf | mantis_logic.py:160-165 | At least half of the cards of the colour are moved. |
| MantisLogic.WalkNoMatch | mantis_logic.py:160-165 | Without a card of the colour, nothing moves. |
| MantisLogic.IndexWalk | mantis_logic.py:160-165 | Iterating by position while removing the current card gives exactly the walk. A card right after a removed one is skipped. |
| MantisLogic.ScoreColour | mantis_logic.py:160-165 | An invalid colour fails the assertion. Otherwise the walk's moved cards are appended to the score pile and its kept cards stay in the tank. |
| MantisLogic.StealColour | mantis_logic.py:153-158 | An invalid colour fails the assertion. Otherwise the walk's moved cards leave the target's tank and are appended to the thief's tank. |
| MantisLogic.PlayerAction | mantis_logic.py:134-151 | An empty deck raises IndexError. A match on an invalid colour fails the assertion. Otherwise the deck loses its top card, names are kept, and only the actor and the target can change. |
| Turns.WrittenIsSettle | mantis_logic.py:134-165 | Without a match, the drawn card stays in the tank it landed in. With a match, the walk over that tank plus the card decides what moves, to the score pile or to the thief's tank. |
| Turns.ActionConserves | mantis_logic.py:134-165 | A turn moves the drawn card from the deck into play and loses or invents no card. |
| Turns.ActionNoMatch | mantis_logic.py:134-151 | Without a match, the drawn card is appended to the tank it landed in and every other player is unchanged. |
| Turns.ActionMovesFirstMatch | mantis_logic.py:134-165 | With a match, the first matching card reaches the score pile (score) or the thief's tank (steal). At least half of the matching cards move. |
| Turns.WrittenScoreSkipsDrawn | mantis_logic.py:134-165 | Scoring onto a one-card tank of the drawn colour moves that card and leaves the drawn card in the tank. |
| Turns.WrittenActionLeavesMatch | mantis_logic.py:160-165 | A concrete game: after scoring red onto a red card, a red card is still in the tank. |
| Turns.WalkIsFilterWhenSpread | mantis_logic.py:160-165 | When no two cards of the colour are adjacent, the walk moves exactly the cards of that colour. |
| Turns.ActionIntended | mantis_logic.py:18-35 | The corrected turn has the same error cases as the original. Only the actor and target can change, and the deck loses its top card. |
| Turns.IntendedMovesAll | mantis_logic.py:18-35 | On a match, every card of the colour, including the drawn one, moves: to the score pile when scoring, or to the actor's tank when stealing. No card of the colour remains where the card landed. |
| Turns.IntendedConserves | mantis_logic.py:18-35 | The corrected turn loses and invents no card. |
| Turns.WrittenAgreesWhenSpread | mantis_logic.py:134-165 | When no two cards of the drawn colour are adjacent in the landing tank plus the card, the original and the corrected turn agree. |
| Brains.RandomBrain | brains.py:4-8 | With no players, `randint(0, -1)` raises ValueError. Otherwise the target is one of the listed players. |
| Brains.RandomBrainReachesEvery | brains.py:4-8 | Every listed player can be chosen. |
| Brains.ScorerBrain | brains.py:12-14 | The brain always targets the active player, so it always scores. |
| Brains.BlueShellBrain | brains.py:17-26 | Without scores the result is None. Otherwise it is the last entry holding the top score. |
| Brains.LastMaxUnique | brains.py:17-26 | The last entry with the top score is unique, so the choice is determined. |
| Brains.AllTiedPicksLast | brains.py:17-26 | When all scores are tied, the last entry is chosen. |
| Brains.QuantityBrain | brains.py:29-43 | A listed player without a tank entry raises KeyError, and no players raises IndexError. Otherwise the result is the first player with the most tank cards. |
| Brains.FirstMaxUnique | brains.py:29-43 | The first player with the most tank cards is unique. |
| Brains.KelptoBrain | brains.py:45-51 | The result is the first listed name other than the active player's, or None if there is none. |
| Brains.KelptoNeverScores | brains.py:45-51 | The brain never targets the active player, so it never scores. |
| ReplayBuffer.New | rl/replay_buffer.py:5-7 | A new buffer is empty and has the given capacity. |
| ReplayBuffer.Size | rl/replay_buffer.py:19-20 | The size is the number of stored experiences. |
| ReplayBuffer.Add | rl/replay_buffer.py:9-14 | Adding fails with IndexError exactly when the buffer is full and empty (capacity 0 or less). Otherwise the new experience is last. Below capacity nothing is dropped; at capacity the oldest is dropped. |
| ReplayBuffer.AddKeepsBound | rl/replay_buffer.py:9-14 | With capacity at least one, adding never fails and never exceeds the capacity. |
| ReplayBuffer.ZeroCapacityFails | rl/replay_buffer.py:9-14 | A buffer of capacity 0 cannot take an experience. |
| ReplayBuffer.AddAllKeepsNewest | rl/replay_buffer.py:9-14 | After any sequence of adds, the buffer holds the last `capacity` of all experiences, oldest first. |
| ReplayBuffer.FromEmptyKeepsNewest | rl/replay_buffer.py:9-14 | Starting empty, the newest min(capacity, n) experiences remain, in order. |
| ReplayBuffer.SampleBatch | rl/replay_buffer.py:16-17 | A batch larger than the buffer, or a negative one, raises ValueError. Otherwise the batch has the requested size, holds only stored experiences, and has no repeats when the experiences are distinct. |
| ReplayBuffer.SampleBatchReachesEvery | rl/replay_buffer.py:16-17 | Every batch of distinct stored experiences is a possible sample. |

## Left out

- Printing and presentation: `print_state`, `reveal_card`, the ANSI codes of `convert_color`, and the emoji fields and helpers of utils.py (`convert_colour_name_to_emoji`, `convert_colour_list_to_emojis`). They produce text for a terminal and decide nothing.
- `set_player`, `playernames`, `players`, `debug` and the `__main__` demos of the count-vector engine. `simulate_turn` takes the target as an argument; the strategies are modelled separately.
- `RandomBot` in both bot files. Its target is the random number itself.
- `bot_duel` in both bot files. It loops until someone reaches the goal and need not terminate. Each of its steps is `GameLogic.SimulateTurn`.
- Python's negative list indexing. A negative target index passes `target_index < 4` in `action` and wraps around. The model types targets as natural numbers, and the colour entries as 1..7.
- GameLogic.CheckGameover: the goal is an argument, not the field `goal` that the constructor sets to 10.
- The `topCard` attribute, the `turns` and `goal` fields of `Mantis`, and the `Brain` inner class of the object engine. No rule reads them.
- Partial mutation before an exception. For example, `action` draws the card and appends it before `scoreColour` fails its assertion. The model returns the error without a changed game.
- MantisLogic.IndexWalk, MantisLogic.ScoreColour and MantisLogic.StealColour require the tank to hold distinct cards. In the game every card object is created once, so no tank holds one twice.
- Colours.Lower: lower-casing covers ASCII and KELVIN SIGN (the only other character Python lower-cases to an ASCII letter). Other characters are kept as they are, which can only matter for strings that are not colour names anyway.
- The distribution of `random.sample` and `randint`: the model covers which outcomes are possible, not their probabilities.
- rl/train.py, rl/env.py, rl/model.py and demo.py: training code and demonstrations outside the rules.
- Brains: the score dictionary is a list of pairs in insertion order; that its keys are unique is not enforced.

## Findings

| source | as written | input that shows it | evidently intended | confidence | as-written member | corrected member |
|---|---|---|---|---|---|---|
| mantis_logic.py:160-165 | `scoreColour` and `stealColour` remove cards from the list they iterate over, so the card after each removed card is skipped. | A tank holding one red card; score with a drawn red card. The first red card is scored, and the drawn red card stays in the tank. | Every card of the colour, including the drawn one, moves (rules in mantis_logic.py:21-35). | high; not executed | Turns.WrittenActionLeavesMatch | Turns.ActionIntended |
| src/game/game_logic.py:62-66 | `randint(0, 7)` can hit offset 7, the score slot, which is then zeroed, so the card is lost. | All sixteen draws equal 7: every tank is empty after the reset. | `randint(0, 6)`: four cards per tank, as tests/test_game_logic.py:8-17 expects. | high; not executed | GameLogic.ResetCanLeaveTankEmpty | GameLogic.ResetStateIntended |
| src/game/bots.py:73-79 | The Thief compares the total quantity of possible-colour cards with 3, the number of possible colours. | Player 0 holds three red cards, player 1 one orange card, and the next card may be red, orange or yellow: player 0's Thief scores. | Score only when holding every possible colour (the class description, src/game/bots.py:63-68). | medium; not executed | GameBots.ThiefCountsQuantityNotColours | GameBots.ThiefBotIntended |
