# GameBrain core in Dafny

GameBrain wraps a Game Boy emulator (PyBoy) as a reinforcement-learning
environment for Pokémon Red. This project models the deterministic path
from raw memory bytes to a reward and to an observation image, with the
bookkeeping around it:

- `Emulator` (emulator.dfy) reads memory as little-endian integers, single bits and packed decimal.
- `GameState` (game_state.dfy) keeps the named memory descriptors and the table of values read for them.
  Its `load_config` part expands `"BEG-END"` hex ranges.
- `Reward` (reward.dfy) holds `bit_count` and the exploration (novelty) term.
  That term keeps a ledger of distinct frames and pays a reward linear in its size.
- `PokemonRed` (pokemon_red.dfy) holds the five game-specific reward terms.
  Each is a small state machine: event flags, healing and deaths, badges, opponent level, level sum.
- `RewardAggregation` (reward_manager.dfy) models the reward manager.
  It is an ordered list of weighted terms, a name-to-score table that `update` overwrites and sums, and the Pokémon Red registration order.
- `GbEmulator` (gb_emulator.dfy) models the actions, the button events, the lazily cached screen and the three-slot frame history that `run_action` shifts in place.
- `Observation` (observation.dfy) builds the observation image.
  - The progress-bar channels are rendered into an 8×40 array.
  - The recent-memory reshape.
  - The vertical stack of memory rows, padding and the three compressed frames, 128 rows high.
- `Environment` (game_env.dfy) models `GameEnv`: reset and step counters, the truncation flag, and the reward delta.
  It keeps a ghost history of totals, so the deltas since the last reset add up to the current reward.
- `Wrappers` and `VisualUtil` hold the `Result`/`Option` types and the image shapes.
  The image resize `compress` is a parameter that is assumed to return an array of the requested shape with entries in 0..255.

Memory is a total function from addresses to bytes. The screen is a parameter of the methods that read it. Every call made into PyBoy (a tick, a button event, loading the saved state) is appended to a log, so the order and number of those calls can be stated. The exploration term's nearest-neighbour index is a sequence of stored frame vectors, searched exhaustively under an abstract distance.

Details of the code the model reproduces:

- The level-sum term computes max((10−2)+(12−2)−4, 0) = 14 for levels [10, 12].
  `PokemonRed.LevelSumExample` proves that [10, 12] gives 14 and [10, 14] gives 16.
- `GameStateManager.update` calls `read_memory(addr, size)` without passing the descriptor's `type`.
  So every descriptor, including those declared `"dec"`, is read as little-endian hex. `GameState.StateValue` does the same.
- `read_memory_decimal` reads the byte at `address` on every iteration, not at `address + i`.
  `Emulator.ReadMemoryDecimal` reproduces this: its result is the first byte's decimal value repeated in every pair of digits.

## Model

| member | source | states |
|---|---|---|
| Emulator.BitOrDisjoint | src/emulator.py:51 | OR-ing a value below 2^k with a multiple of 2^k is their sum, so each OR-assignment of a shifted byte adds it |
| Emulator.LittleEndian | src/emulator.py:48-51 | a `size`-byte little-endian read is below 256^size |
| Emulator.ReadLittleEndian | src/emulator.py:48-51 | the hex loop OR-ing byte i shifted by 8·i returns exactly Σ byte(address+i)·256^i, a negative size reads nothing, and the result is below 256^size |
| Emulator.LittleEndianLowByte | src/emulator.py:50-51 | a (size+1)-byte read is the byte at `address` plus 256 times the size-byte read starting at `address+1` |
| Emulator.LittleEndianFrame | src/emulator.py:50-51 | a read depends only on the bytes at address..address+size−1 |
| Emulator.LittleEndianRoundTrip | src/emulator.py:48-51 | writing the little-endian bytes of any n < 256^size into memory and reading them back gives n |
| Emulator.DecimalDigits | src/emulator.py:73 | a byte's decimal reading is at most 165: nibbles above 9 are not wrapped |
| Emulator.DecimalDigitsNibbles | src/emulator.py:73 | the decimal reading is 10·(high nibble) + (low nibble) |
| Emulator.DecimalDigitsRoundTrip | src/emulator.py:73 | encoding d < 100 as two decimal nibbles and decoding gives d; a byte whose nibbles are both at most 9 decodes below 100 and re-encodes to itself |
| Emulator.RepUnitStep | src/emulator.py:74 | adding the digit pair times 100^i extends the repeated-digit sum by one place |
| Emulator.ReadMemoryDecimal | src/emulator.py:66-75 | the loop rereads `address`, so the result is dec(byte(address))·(1 + 100 + … + 100^(size−1)); for size 1 it is the byte's decimal reading |
| Emulator.ReadMemory | src/emulator.py:44-55 | "hex" gives the little-endian value, "dec" the decimal reading, and any other type fails with the assertion error |
| Emulator.ReadBit | src/emulator.py:57-58 | a bit read is 0 or 1 |
| Emulator.BitsReassemble | src/emulator.py:57-58 | reassembling `read_bit` of bits 0..n−1 gives the byte modulo 2^n, and bits 0..7 give the byte back |
| Emulator.Read8 | src/emulator.py:60-61 | `read8` is the byte at the address |
| Emulator.Read16 | src/emulator.py:63-64 | `read16` is byte(address) + 256·byte(address+1), below 65536 |
| GameState.StateValue | src/game_state.py:43-51 | a descriptor with one address reads a scalar; a descriptor with a list reads a list with one value per address |
| GameState.ReadState | src/game_state.py:44-51 | the comprehension over the addresses reads, in order, the value `StateValue` specifies |
| GameState.RefreshedInOrderAt | src/game_state.py:43-51 | after the update loop has visited some names, each visited name holds its fresh read, every other name keeps its old value, and no name is dropped |
| GameState.RefreshedInOrderAll | src/game_state.py:43-51 | visiting every registered name in insertion order gives the order-independent refreshed table |
| GameState.Lookup | src/game_state.py:54-55 | reading a name from a value table succeeds iff the name is in it, with its stored value; otherwise it fails with KeyError(name) |
| GameState.GameStateManager.Get | src/game_state.py:54-55 | `get(name)` gives the value stored for `name` iff it is in `state_values`, and KeyError(name) otherwise |
| GameState.RefreshedLookup | src/game_state.py:54-55 | after an update, `get` of a registered name gives its fresh read and `get` of any other name gives what it gave before (a KeyError if never read); updating twice over the same memory gives the same table |
| GameState.RefreshValues | src/game_state.py:43-51 | the update loop over the names in insertion order computes the refreshed table |
| GameState.GameStateManager.constructor | src/game_state.py:17-20 | a new manager has no descriptors and no values |
| GameState.GameStateManager.AddState | src/game_state.py:22-31 | the descriptor is inserted or replaced under its name and every other entry is unchanged; a new name goes last in iteration order; values are untouched |
| GameState.GameStateManager.Update | src/game_state.py:42-52 | every registered name's `get` returns its fresh read, other values are kept, descriptors are unchanged, and `value_valid` is set |
| GameState.GameStateManager.LoadConfig | src/game_state.py:33-40 | loading succeeds iff every entry's address can be expanded; then the descriptors are those of the entries, later entries replacing earlier ones; on failure the error is that of the first bad entry and every entry before it stays registered |
| GameState.FirstBadEntry | src/game_state.py:36-40 | the position of the first entry whose address cannot be expanded: every entry before it expands, and the entry there (if any) does not |
| GameState.RegisteredNext | src/game_state.py:36-40 | registering one more entry is one map update under that entry's name |
| GameState.ExpandRange | src/game_state.py:37-39 | expansion succeeds iff the string splits at `-` into exactly two parts that both parse as hex; the result is then the inclusive list from int(BEG, 16) to int(END, 16), a run of consecutive addresses |
| GameState.InclusiveRange | src/game_state.py:39 | `range(beg, end + 1)` has end−beg+1 elements (none when end < beg) and element i is beg+i |
| GameState.Split | src/game_state.py:38 | the parts of `split("-")` contain no separator and join back to the string |
| GameState.SplitAtSeparator | src/game_state.py:38 | "a-b" with no separator in a or b splits into exactly [a, b] |
| GameState.SplitWithout | src/game_state.py:38 | a string without the separator splits into itself alone |
| GameState.HexDigitValue | src/game_state.py:39 | a hex digit's value is below 16 |
| GameState.ParseHex | src/game_state.py:39 | `int(s, 16)` succeeds iff s, after an optional 0x prefix, is a non-empty string of hex digits |
| GameState.HexChar | src/game_state.py:39 | each value below 16 has a hex digit that parses back to it |
| GameState.ToHex | src/game_state.py:39 | a number's hex rendering is non-empty, has only hex digits and no separator, and has the number as its value |
| GameState.ParseHexOfToHex | src/game_state.py:39 | parsing a number's hex rendering gives the number back |
| GameState.ExpandRangeOfHex | src/game_state.py:37-39 | "BEG-END" in hex expands to the inclusive address list beg..end |
| Reward.BitCount | src/reward.py:10-11 | the count of 1 bits is at most the number itself, zero exactly for zero, and at most 8 for a byte |
| Reward.PopcountBound | src/reward.py:10-11 | a number below 2^k has at most k bits set |
| Reward.PopcountOfByte | src/reward.py:10-11 | a byte has at most 8 bits set |
| Reward.PopcountAtMost | src/reward.py:10-11 | the bit count is at most the number and zero only for zero |
| Reward.PopcountBySlices | src/reward.py:10-11 | the bit count splits into the bits below position n plus the bit count of the rest |
| Reward.BitCountOfReadBits | src/reward.py:10-11 | `bit_count` of a byte equals the number of its eight `read_bit` reads that are 1 |
| Reward.NearestDistance | src/reward.py:72-73 | the `k=1` query returns a distance attained by a stored vector, and no stored vector is closer |
| Reward.Observe | src/reward.py:59-77 | the frame is stored exactly when the index is empty or every stored frame is farther than the threshold; otherwise the index is unchanged |
| Reward.ObserveAllDistinct | src/reward.py:59-77 | frames that are pairwise farther apart than the threshold are all stored, in order |
| Reward.ObserveAllRepeated | src/reward.py:59-77 | the same frame observed any number of times is stored once |
| Reward.ExplorationValue | src/reward.py:39-46 | the reward is size·0.005·w without the level flag, and base·0.005·w + size·0.01·w with it |
| Reward.ExplorationValueMonotone | src/reward.py:39-46 | a larger index never gives a smaller reward for a non-negative weight |
| Reward.ExploreStep | src/reward.py:39-77 | one `calculate` stores the frame as `update` decides, grows the index by at most one, returns the formula on the new size, and fails with the index unchanged when a full index must grow |
| Reward.ExplorationReward.constructor | src/reward.py:28-37 | a new term has weight 1, base 0, the level flag false and an empty index |
| Reward.ExplorationReward.Reset | src/reward.py:48-57 | `reset` empties the index and keeps the level flag |
| Reward.ExplorationReward.Update | src/reward.py:59-77 | `update` appends the frame vector exactly as `Observe` decides, and fails only when a novel frame meets a full index of 20000 |
| Reward.ExplorationReward.AddItem | src/reward.py:67-69 | `add_items` appends the vector at the next label, or fails when 20000 are stored |
| Reward.ExplorationReward.Calculate | src/reward.py:39-46 | the new state and the returned reward are those of `ExploreStep` |
| PokemonRed.GetList | src/game_state.py:54-55 | `get` of a list-valued name gives the list; a missing name is a KeyError |
| PokemonRed.GetInt | src/game_state.py:54-55 | `get` of a scalar name gives the number; a missing name is a KeyError |
| PokemonRed.SumBound | src/games/pokemon_red.py:25 | a sum of values each at most b is at most b times their number |
| PokemonRed.SumBitCounts | src/games/pokemon_red.py:25 | the total bit count over the flag bytes is zero iff every flag byte is zero, and at most 8 per byte |
| PokemonRed.AllEventsReward | src/games/pokemon_red.py:20-29 | the event reward is the flag bit total minus 13, clamped at 0 |
| PokemonRed.EventStep | src/games/pokemon_red.py:15-18 | `calculate` returns the new running maximum, which never falls, and it fails with the state kept when `event_flags` is missing |
| PokemonRed.EventRunIsMaximum | src/games/pokemon_red.py:15-18 | over any run of calls the running maximum is at least the start and at least every successful call's event reward |
| PokemonRed.EventReward.constructor | src/games/pokemon_red.py:11-13 | the running maximum starts at 0 |
| PokemonRed.EventReward.Calculate | src/games/pokemon_red.py:15-18 | the new state and the reward are those of `EventStep` |
| PokemonRed.EventReward.Reset | src/games/pokemon_red.py:31-32 | `reset` sets the running maximum to 0 |
| PokemonRed.HpFraction | src/games/pokemon_red.py:59-63 | the HP fraction is Σ current / max(Σ max, 1): non-negative, zero iff no HP, at most 1 when current ≤ max |
| PokemonRed.ReadHpFraction | src/games/pokemon_red.py:59-63 | the fraction is read when both HP lists are present, and fails otherwise |
| PokemonRed.HealthStep | src/games/pokemon_red.py:43-57 | the healing total never falls, deaths rise by at most 1, the new fraction and party size are stored, and the total is returned; a missing value fails with the state changed only as far as the source got: with the HP readable and `party_size` missing, the state is unchanged when health rose and otherwise only the stored health is updated, and the error is KeyError("party_size") |
| PokemonRed.NoRiseStep | src/games/pokemon_red.py:46-56 | when health did not rise and `party_size` is present, only the stored health and party size change, and the unchanged healing total is returned |
| PokemonRed.HealStep | src/games/pokemon_red.py:46-52 | when health rose from a positive value and the party size is the same, the healing total grows by 4·(cur − last) |
| PokemonRed.DeathStep | src/games/pokemon_red.py:46-54 | when health rose from 0 and the party size is the same, the death count rises by 1 and the healing total is kept |
| PokemonRed.PartyChangeStep | src/games/pokemon_red.py:46-56 | when the party size changed, only the stored fraction and party size change |
| PokemonRed.HealthRunMonotone | src/games/pokemon_red.py:43-57 | over any run of calls the healing total and the death count never fall |
| PokemonRed.HealthReward.constructor | src/games/pokemon_red.py:36-41 | the four fields start at 0 |
| PokemonRed.HealthReward.Calculate | src/games/pokemon_red.py:43-57 | the new state and the reward are those of `HealthStep` |
| PokemonRed.HealthReward.Reset | src/games/pokemon_red.py:65-69 | `reset` sets the four fields back to 0 |
| PokemonRed.BadgeValue | src/games/pokemon_red.py:72-74 | the badge reward is the bit count of `badges`, between 0 and 8 for a byte, and fails when `badges` is missing |
| PokemonRed.ThreeBadges | src/games/pokemon_red.py:72-74 | badges 0b00000111 give 3 |
| PokemonRed.BadgeReward.constructor | src/reward.py:15-17 | the term keeps its name and has no state |
| PokemonRed.BadgeReward.Calculate | src/games/pokemon_red.py:73-74 | the reward is `BadgeValue` |
| PokemonRed.Max | src/games/pokemon_red.py:83 | the maximum of a non-empty list is an element no smaller than any element |
| PokemonRed.OpLevelStep | src/games/pokemon_red.py:82-85 | the running maximum never falls; the reward is 0.2 times it; it is the old maximum or some opponent level minus 5; an empty or missing list fails with the state kept |
| PokemonRed.MaxOpLevelReward.constructor | src/games/pokemon_red.py:78-80 | the running maximum starts at 0 |
| PokemonRed.MaxOpLevelReward.Calculate | src/games/pokemon_red.py:82-85 | the new state and the reward are those of `OpLevelStep` |
| PokemonRed.LevelsAboveTwo | src/games/pokemon_red.py:107 | each level becomes max(level − 2, 0) |
| PokemonRed.LevelsAboveTwoBound | src/games/pokemon_red.py:107 | the reduced levels sum to at most the levels' sum, and to 0 when no level exceeds 2 |
| PokemonRed.LevelsSum | src/games/pokemon_red.py:105-108 | the level sum is at most the plain sum of levels and is 0 when every level is at most 2 |
| PokemonRed.Scaled | src/games/pokemon_red.py:95-101 | below 22 the sum is kept; from 22 on it is at least 22; never negative and never above the sum |
| PokemonRed.ScaledMonotone | src/games/pokemon_red.py:98-101 | scaling is monotone |
| PokemonRed.LevelSumExample | src/games/pokemon_red.py:94-108 | levels [10, 12] give 14, [10, 14] give 16, and [20, 20] give 24.5 |
| PokemonRed.LevelStep | src/games/pokemon_red.py:94-103 | the running maximum never falls and the reward is the new maximum of the old one and the scaled sum; a missing `party_levels` fails with the state kept |
| PokemonRed.LevelSumReward.constructor | src/games/pokemon_red.py:89-92 | the running maximum starts at 0 and the level flag is false |
| PokemonRed.LevelSumReward.Calculate | src/games/pokemon_red.py:94-103 | the new state and the reward are those of `LevelStep` |
| PokemonRed.LevelSumReward.Reset | src/games/pokemon_red.py:110-112 | `reset` sets the running maximum to 0 and the flag to false |
| RewardAggregation.NewTerm | src/reward.py:118-121 | `add_reward` builds a term of the requested class |
| RewardAggregation.Step | src/reward.py:127 | a term's `calculate` keeps the term's class |
| RewardAggregation.ResetTerm | src/reward.py:139-141 | a term's `reset` keeps its class |
| RewardAggregation.ResetTermProperties | src/reward.py:139-141 | reset is idempotent; the opponent-level and badge terms are unchanged by it (no override); event, health and level-sum terms return to their initial state; the exploration term's index is emptied |
| RewardAggregation.FailedStepState | src/reward.py:127 | a term whose `calculate` fails keeps its state, except the health term, which keeps what it stored before the failing lookup |
| RewardAggregation.Put | src/reward.py:126-128 | writing a score replaces the entry under that name; a new name goes last |
| RewardAggregation.SumOverUpdate | src/reward.py:133 | replacing one entry changes the sum by the difference |
| RewardAggregation.TotalPut | src/reward.py:131-134 | after a score is written, the total is the old total plus the new score minus the old score under that name |
| RewardAggregation.FirstFailure | src/reward.py:125-128 | the loop stops at the first item whose `calculate` fails; every earlier item succeeded |
| RewardAggregation.ScoresWrittenLastWins | src/reward.py:125-128 | a name's score is scale·calculate·weight of the last item with that name |
| RewardAggregation.ScoresWrittenUntouched | src/reward.py:125-128 | a name no item writes keeps its old score, so the table is never cleared |
| RewardAggregation.DistinctNamesScores | src/reward.py:125-128 | with distinct names every item's score is its own weighted result |
| RewardAggregation.CalculateAll | src/reward.py:124-129 | the update loop advances the items up to and including the first failure, writes their scores in order, and reports that failure or success |
| RewardAggregation.RewardManager.constructor | src/reward.py:103-116 | a new manager has scale 1, no scores, total 0 and exactly one item, "explore" |
| RewardAggregation.RewardManager.PokemonRed | src/games/pokemon_red.py:115-124 | the Pokémon Red manager holds explore, event, heal, badge, op_lvl and level, in that order, each with weight 1 |
| RewardAggregation.RewardManager.AddReward | src/reward.py:118-122 | the new item is appended at the end with its weight; scores are unchanged |
| RewardAggregation.RewardManager.Update | src/reward.py:124-134 | the scores are those written by the loop and the result is their total over every name ever written; a failing term leaves the total unchanged |
| RewardAggregation.RewardManager.Reset | src/reward.py:139-141 | every item's term is reset in place and the score table is not cleared |
| GbEmulator.ActionLen | src/gb_emulator.py:60-61 | there are 6 actions: every action's number is below it and every number below it is an action |
| GbEmulator.GetAction | src/gb_emulator.py:82-83 | `GBAction(n)` succeeds iff 0 ≤ n < 6 and then has number n; otherwise it is a ValueError |
| GbEmulator.GetActionRoundTrip | src/gb_emulator.py:8-14 | an action's number converts back to the action |
| GbEmulator.ActionToWindowEvent | src/gb_emulator.py:19-37 | each action maps to a press and a release of the same button |
| GbEmulator.ActionToWindowEventInjective | src/gb_emulator.py:19-31 | different actions press different buttons |
| GbEmulator.Ticks | src/gb_emulator.py:78-80 | `tick(n)` ticks exactly n times, and none for negative n |
| GbEmulator.Rolled | src/gb_emulator.py:94-95 | after the roll, slot 0 holds the new frame, slot i holds the old slot i−1, and the length is kept |
| GbEmulator.RolledAllRecent | src/gb_emulator.py:94-95 | after any number of actions slot i holds the i-th most recent frame, and slots no action reached keep the initial frames |
| GbEmulator.SliceStop | src/gb_emulator.py:97-98 | the slice `[:n]` keeps min(n, len) elements for n ≥ 0 and drops the last −n for n < 0 |
| GbEmulator.GBEmulator.constructor | src/gb_emulator.py:41-58 | the frame buffer starts as three all-zero 144×160×3 screens and no screen is cached |
| GbEmulator.GBEmulator.Reset | src/gb_emulator.py:63-68 | `reset` loads the initial state and clears neither the cache nor the buffer |
| GbEmulator.GBEmulator.CurrentFrame | src/gb_emulator.py:73-76 | the screen is read only when nothing is cached; otherwise the cached frame is returned unchanged |
| GbEmulator.GBEmulator.Tick | src/gb_emulator.py:78-80 | the emulator is ticked exactly n times |
| GbEmulator.GBEmulator.RunAction | src/gb_emulator.py:85-95 | press, `act_freq` ticks, release; the new screen is cached and pushed at the front of the buffer; an invalid action number fails before anything happens |
| GbEmulator.GBEmulator.GetLastNFrames | src/gb_emulator.py:97-98 | `get_last_n_frames(n)` returns the first slots as `[:n]` picks them, most recent first |
| Observation.BarDigits | src/observation.py:62-73 | the clamped value is row·128 + col·16 + last with row < 40, col < 8 and last < 16, so every write of the channel is in bounds |
| Observation.ChannelPixel | src/observation.py:67-74 | every pixel is in 0..255, and a pixel that is not 255 is a multiple of 15 up to 225 |
| Observation.MakeRewardChannel | src/observation.py:60-75 | the slice writes fill a fresh 8×40 array whose every pixel is `ChannelPixel` |
| Observation.ChannelGrid | src/observation.py:67-74 | the channel is an 8×40 grid and every pixel is in 0..255 |
| Observation.ColumnUnitsOfChannel | src/observation.py:67-74 | reading one column of the bar counts 16 per full pixel plus the boundary pixel's level |
| Observation.ColumnsUnitsOfChannel | src/observation.py:67-74 | reading the first n columns counts the value the bar holds in them |
| Observation.ReadBarRoundTrip | src/observation.py:60-75 | reading the bar back (16 per full pixel plus the boundary pixel / 15) gives the clamped value |
| Observation.ChannelPixelIsCell | src/observation.py:66-74 | the pixel at (y, x) is the level of cell 8·x + y of the bar |
| Observation.ChannelMonotone | src/observation.py:60-75 | a larger value never darkens a pixel |
| Observation.ChannelExtremes | src/observation.py:65-74 | value 0 gives an all-zero channel; the clamp value 4992 fills columns 0..38 and leaves column 39 zero |
| Observation.ExplorationMemory | src/observation.py:77-86 | the exploration memory is an 8×40×3 array of values in 0..255 |
| Observation.ChannelOf | src/observation.py:78-85 | a channel of an 8×40×3 image is an 8×40 grid |
| Observation.ExplorationMemoryChannel | src/observation.py:77-86 | channel c of the exploration memory is the bar of c+1 |
| Observation.ExplorationMemoryReadsBack | src/observation.py:77-86 | channel c of the exploration memory reads back as c+1 |
| Observation.CreateExplorationMemory | src/observation.py:56-89 | stacking the three channels gives the exploration memory |
| Observation.RecentMemoryImage | src/observation.py:91-95 | the `(w h) c -> h w c` reshape gives an 8×40 image |
| Observation.FlattenRecent | src/observation.py:91-95 | the inverse reshape gives 320 rows |
| Observation.RecentMemoryRoundTrip | src/observation.py:91-95 | the reshape and its inverse undo each other in both directions |
| Observation.InitialRecentMemory | src/observation.py:29-31 | the recent memory has 320 rows |
| Observation.InitialRecentMemoryImage | src/observation.py:29-31 | the initial recent memory reshapes to an all-zero 8×40×3 image |
| Observation.StackFramesLength | src/observation.py:50 | stacking frames of 36 rows gives 36 rows per frame |
| Observation.StackFramesRows | src/observation.py:50 | row r of the stacked frames is row r mod 36 of frame r div 36 |
| Observation.CompressAll | src/observation.py:39-41 | one compressed frame per frame |
| Observation.ObsLayoutShape | src/observation.py:22-27 | the observation is 128×40×3 = `output_full`, and row 20+r is row r mod 36 of the compressed frame r div 36, in buffer order |
| Observation.Observation.constructor | src/observation.py:12-31 | the observation keeps its emulator and compressor |
| Observation.Observation.ObsSpaceShape | src/observation.py:22-27 | `output_full` is (8+2+8+2+3·36, 40, 3) |
| Observation.Observation.CreateObsMem | src/observation.py:36-54 | the observation is the layout of the exploration memory, the recent memory and the buffer's compressed frames; the screen is cached if nothing was |
| Environment.Deltas | src/game_env.py:78-100 | each step's delta is its total minus the previous one, the first delta being the first total |
| Environment.DeltasSnoc | src/game_env.py:78-100 | one more step adds one delta, the new total minus the last |
| Environment.DeltasTelescope | src/game_env.py:78-100 | the deltas since a reset add up to the last total |
| Environment.GameEnv.RewardsAddUp | src/game_env.py:60-100 | the rewards returned since the last reset add up to the current reward |
| Environment.GameEnv.constructor | src/game_env.py:16-47 | construction ends with one reset: reset count 1, step count 0, reward 0, no truncation, current action UP; the emulator has loaded its initial state and its screen is cached, every reward term is reset and the manager's score table and total are kept; the observation uses the reward manager's compressor |
| Environment.GameEnv.Reset | src/game_env.py:60-69 | the counters are reset and the reset count rises by one; the initial state is loaded, every reward term is reset while the score table and the manager's total are kept, the screen is cached if nothing was, and the observation is returned |
| Environment.GameEnv.ResetCounters | src/game_env.py:65-68 | step count 0, reward 0, no truncation, reset count one more |
| Environment.GameEnv.Render | src/game_env.py:71-72 | `render` returns the current frame and fills the cache if it was empty |
| Environment.GameEnv.Step | src/game_env.py:74-104 | the descriptor table never changes; an invalid action fails before anything happens: the current action, emulator calls, cached screen, frame buffer, state values and the reward manager's items, scores and total are all unchanged; a valid action is stored as the current action, its press/ticks/release calls are made, the new screen is cached, the frame buffer rolls and the state table is refreshed whether or not a reward term then fails, and the reward manager updates exactly as `RewardManager.Update` does on the refreshed values and the screen (its failure is the step's failure); on success the reward is the new total minus the old, the observation is that of the rolled frame buffer, the drop message fires iff the total fell, `terminated` is false, truncation is step_count ≥ max_steps before the increment, and the step count rises by one |
| Environment.GameEnv.Advance | src/game_env.py:75-77 | the action's press, ticks and release are sent to the emulator, the screen is cached and rolled into the frame buffer, the descriptors are kept and the state values are refreshed from memory |
| Environment.GameEnv.UpdateTotal | src/game_env.py:79 | the reward manager's items, score table, total and result are those `RewardManager.Update` produces on the current state values and the cached screen; no emulator call is made |
| Environment.GameEnv.RecordTotal | src/game_env.py:78-81 | the new total is stored and the drop message fires iff it is below the old one |
| Environment.GameEnv.CountStep | src/game_env.py:85-96 | truncation is step_count ≥ max_steps before the increment, and the step count rises by one |
| Environment.GameEnv.Score | src/game_env.py:78-104 | no emulator call is made and the screen stays cached; the reward manager updates as `RewardManager.Update` does and its failure is the result; on success the returned delta, the drop flag, `terminated` false, truncation and the observation of the step |
| VisualUtil.Zeros | src/gb_emulator.py:58 | `np.zeros` of a shape has that shape and only zeros |

## Left out

- PyBoy is not modelled.
  - Construction, `load_state`'s file read, `send_input`, `tick` and `set_emulation_speed` are entries in the call log or are left out.
  - The screen that `_get_screen_pixels` returns is a method parameter.
  - `read_one_byte` is the memory function passed in.
- The image resize `compress` (skimage) is a parameter. It is assumed to return an array of the requested shape with entries in 0..255.
- The hnswlib index is a sequence of stored vectors with an exact nearest-neighbour search under an abstract distance.
  Approximate graph search, `ef_construction`, `M`, float32 vectors and the meaning of "l2" (squared Euclidean) are left out.
- Floating point is Dafny `real`: rounding in 0.005, 0.01, 0.2, /4 and the HP fraction is not modelled.
- YAML reading is left out. `GameStateManager.LoadConfig` takes the parsed entries.
  A config without `states` or an entry without `addr` (a KeyError in the source) cannot be built from the entry type.
  Neither can an entry without `name` or `description`, or one with keys `add_state` does not take (a TypeError from `add_state(**state)` in the source).
- `int(s, 16)` is modelled for an optional `0x`/`0X` prefix and hex digits. Python also accepts a sign, surrounding whitespace and underscores; those forms are not modelled.
- `GameStateManager.load_config` unpacks `split("-")` into two parts. A string with more or fewer than one `-` raises a ValueError there; `GameState.ExpandRange` returns that as a failure.
- `GameEnv.info`, uuid, `Path.mkdir`, the progress tracker, the gymnasium spaces (only the observation shape is kept), `metadata` and `reward_range` are left out, and so is `create_env`'s configuration plumbing.
- The reward-drop message is the `rewardDrop` flag of the step result, not printed text.
- `reset`'s `seed` argument is stored and never read; it is left out.
- Emulator.ReadBit: takes a non-negative bit index; Python's ValueError for a negative shift count is not modelled.
- RewardAggregation.RewardManager.Update: reward terms are values inside the manager's item list, not objects shared by reference.
  Each term reads the state table and the current frame passed in, instead of reaching them through the manager objects.
- RewardAggregation.CalculateAll is stated for any `calculate` of a term. `RewardManager.Update` instantiates it with the dispatch to each class's step function.
- RewardAggregation.Step: its contract states only that the term keeps its class. What each class computes is stated by the step function it dispatches to (`ExploreStep`, `EventStep`, `HealthStep`, `BadgeValue`, `OpLevelStep`, `LevelStep`).
- RewardAggregation.ResetTerm: its contract states only that the class is kept; `ResetTermProperties` states what each class's reset does.
- Observation.MakeRewardChannel takes a natural number. Negative or fractional `r_val` values are not modelled; the source only passes 1, 2 and 3.
- `create_obs_mem` compresses `cur_frame` and discards the result. Only the cache fill done by `current_frame` is kept.
- The `reward` reference held by `Observation`, the commented-out `RewardWrapper` and the second copy of `bit_count` are unused in the source and left out.
  The `levels_satisfied` flag of `LevelSumReward` is never read either; the model keeps it as a field that the constructor and `reset` set to false.
- GbEmulator.ActionToWindowEvent: the final `ValueError` branch cannot be reached with the closed `GBAction` type.
- GbEmulator.GBEmulator.Tick takes its count explicitly; the default `n=1` is not modelled.
- The exploration term's index holds at most 20000 vectors. Adding one more is a capacity failure, where hnswlib raises.
- NumPy's uint8 wrap-around is not modelled. Every value written into a uint8 array here is already in 0..255.
