# Baccarat prediction bot — a Dafny model of its prediction state machine

The bot reads finalized game-result messages from a source channel. From
consecutive games it derives a "missing suit" prediction. Predictions wait in a
queue and are announced a few games ahead of their target. Each announced
prediction is then settled by the target game or by the game after it. A
missed prediction schedules one backup prediction six games later. An hourly
reset and a daily reset clear the state.

The model has seven modules:

- `Wrappers` (wrappers.dfy): the `Option` type.
- `Text` (text.dfy): the Python string operations the bot uses.
  - Substring membership (`needle in hay`).
  - `str.replace`.
  - Decimal digits, for `int(...)` and `str(n)`.
- `Config` (config.dfy): `ALL_SUITS`, `SUIT_MAPPING`, `SUIT_DISPLAY` and the id conversion of `parse_channel_id`.
- `Analysis` (analysis.dfy): the pure message functions.
  - `is_message_finalized`.
  - `extract_game_number`, with the leftmost-match search of `re.search`.
  - `extract_parentheses_groups`, the scan done by `re.findall`.
  - `normalize_suits`, `get_suits_in_group`, `has_suit_in_group` (a method with a loop) and `get_predicted_suit`.
- `Store` (store.dfy): the state of the bot as one value.
  - The seven globals: queue, active set, recent games, dedupe set, transfer marker, current game, pair memory.
  - One function per state change, and the invariant every change keeps.
  - The lemmas that state what each change promises.
- `Bot` (bot.dfy): class `PredictionBot`, whose fields are the seven globals.
  - Its methods update the fields in place, in the order of the handlers of `main.py`.
  - Each method's `ensures` ties its new state (`Snapshot()`) to the matching function of `Store`, so every lemma about that function holds of the object.
  - The promotion loop over the sorted queue keys is a `for` loop. Its invariant ties the loop to the recursive specification `Store.PromoteAll`.
- `Schedule` (schedule.dfy): the daily reset's wait, over whole seconds of the day in West Africa Time.

The state invariant (`Store.Invariant`) has seven parts:

- The queue and the active set have disjoint keys.
- The active set holds at most two records.
- Every queued entry is filed under its own target and names a canonical suit.
- Every active record is well formed:
  - its backup game is its target plus 6;
  - its alternate suit is the mapped suit;
  - its status is the pending status;
  - its check count is 0 or 1.
- The dedupe set holds at most 200 keys.
- `recent_games` holds at most 100 games.
- The remembered pair suits are canonical.

Where the code and its comments disagree, the model follows the code:

- **Capacity before expiry.** The capacity check in `check_and_send_queued_predictions` (main.py:181-183) comes before the expiry branch. So when the active set is full nothing is removed from the queue, not even expired entries, although the comment at main.py:172 says otherwise (`Store.PromotedWhenFull`).
- **Early return on the first chance.** `check_prediction_result` returns after the first chance (main.py:251, main.py:255). So the second chance of game G-1 is not examined when G has its own active record; that record of G-1 then stays active with check count 1 (`Store.ResolvedSecondChanceShadowed`).
- **Pair-rule target.** The paired rule targets game G+5, where G is the later game of the pair (main.py:340-341).
- **Backup is not guaranteed.** A miss queues its backup only when `queue_prediction` accepts it, i.e. when the backup game is neither queued nor active.
- **Hourly reset scope.** The hourly reset clears the queue, the active set, the dedupe set, the transfer marker and the pair memory. It keeps `recent_games` and the current game number.

## Model

| member | source | states |
|---|---|---|
| `Text.ContainsOneChar` | main.py:235-239 | For a one-character needle, Python substring membership is character membership. |
| `Text.ReplaceCharMembership` | main.py:80-84 | After `str.replace`, a character outside the pattern occurs exactly when it occurred before, or the pattern occurred and the replacement holds it. A character in both pattern and replacement occurs exactly when it did before. |
| `Text.DecimalRoundTrip` | config.py:8-10 | Reading back the decimal form of a natural number gives the number. |
| `Config.AllSuitsDistinct` | config.py:38 | `ALL_SUITS` holds four distinct one-character suits. |
| `Config.MappingDomains` | config.py:31-44 | `SUIT_MAPPING` and `SUIT_DISPLAY` are defined on exactly the four suits of `ALL_SUITS`, and the mapping's values are suits. |
| `Config.MappingInvolution` | config.py:31-36 | `SUIT_MAPPING` maps every suit to a different suit of the same colour, and mapping twice gives the suit back. |
| `Config.ParseInt` | config.py:8 | `int(value)` on an optional sign and decimal digits, None where `int` raises. `Config.ParseIntRoundTrip` proves it reads back every printed integer. |
| `Config.ToChannelId` | config.py:10-11 | The conversion of `parse_channel_id`. `Config.ToChannelIdNegatesLongIds` proves it negates exactly the ids of at least 1,000,000,000, and `Config.ToChannelIdIdempotent` that applying it twice changes nothing. |
| `Config.ParseChannelId` | config.py:6-12 | The result is None exactly when `int` rejects the chosen value (`os.getenv(...) or default`). Otherwise it is `ToChannelId` of the parsed id, so the parsed id or its negation, and never 1,000,000,000 or more. |
| `Config.ParseChannelIdDefault` | config.py:7 | An absent or empty environment value falls back to the default string. |
| `Config.ParseIntRoundTrip` | config.py:8 | `int(str(id)) == id` for every integer. |
| `Config.ToChannelIdNegatesLongIds` | config.py:10-11 | A positive id with ten or more digits (at least 1,000,000,000) is negated; every other id is kept. |
| `Config.ToChannelIdIdempotent` | config.py:10-12 | Applying the conversion to its own output changes nothing. |
| `Config.ParseChannelIdOfDefault` | config.py:6-12 | With no environment value, the printed default id is parsed back and converted. |
| `Config.ParseChannelIdOfEnv` | config.py:6-12 | A set environment value holding the printed form of an id is read back and converted, whatever the default. |
| `Analysis.FinalizedBySubstrings` | main.py:235-239 | A message with the alarm clock is never final; otherwise it is final exactly when a check mark or a beginner badge occurs. |
| `Analysis.IsMessageFinalized` | main.py:235-239 | `is_message_finalized`. `Analysis.FinalizedBySubstrings` states it with Python substring tests: never final with the alarm clock, otherwise final exactly with a check mark or a beginner badge. |
| `Analysis.GameTagAt` | main.py:71 | The pattern `#N\s*(\d+)` tried at one position. `Analysis.WrittenTagAt` proves a written tag reads back as its number there, and `Analysis.NoTagInPrefix` that no match starts in text without `#`. |
| `Analysis.SearchGameTag` | main.py:71 | `re.search` from a position on. `Analysis.SearchGameTagFirst` proves it returns the leftmost match, or None exactly when no position matches. |
| `Analysis.SearchGameTagFirst` | main.py:71 | The search returns the match at the leftmost position where the tag pattern matches, and None exactly when it matches nowhere. |
| `Analysis.ExtractGameNumber` | main.py:69-74 | The result is the value of the first `#N`/`#n` tag, or None exactly when no position starts a tag. |
| `Analysis.GameNumberRoundTrip` | main.py:69-74 | `#N` or `#n`, optional spaces and the decimal form of n, after text without `#` and before a non-digit, is read back as n. |
| `Analysis.IndexOfClose` | main.py:78 | The index found is the first `)`, or the end of the text when there is none. |
| `Analysis.ExtractParenthesesGroups` | main.py:76-78 | No returned group contains `)`. |
| `Analysis.GroupsSkipText` | main.py:78 | Text without `(` before a message yields no group and does not change the groups after it. |
| `Analysis.GroupsOfBracketed` | main.py:78 | A bracketed group comes first, ahead of the groups of the rest of the message. |
| `Analysis.GroupsNeedClose` | main.py:76-78 | A message without `)` yields no group, so a `(` with no `)` after it contributes nothing. |
| `Analysis.GroupsLeftToRight` | main.py:76-78 | Two groups come back in the order they are written. |
| `Analysis.NormalizedSuitPresence` | main.py:80-84 | After normalisation, a canonical suit is present exactly when it was before or, for the heart, when a red heart was. |
| `Analysis.NormalizeSuits` | main.py:80-84 | The six replacements in the source's order. `Analysis.NormalizedSuitPresence` states which canonical suits are present afterwards, and `Analysis.NormalizeCanonical` that a canonical suit is unchanged. |
| `Analysis.SuitsOccurringFour` | main.py:89 | The comprehension over the four suits keeps each suit, in order, exactly when it occurs. |
| `Analysis.GetSuitsInGroup` | main.py:86-89 | At most four suits, and a string is returned exactly when it is a canonical suit occurring in the normalised group. |
| `Analysis.NormalizedContainsIffShows` | main.py:80-89 | A canonical suit occurs in the normalised group exactly when the raw group shows it in an accepted spelling. |
| `Analysis.SuitsInGroupExplicit` | main.py:86-89 | The suits of a group are spade, heart, diamond, club in that order, each once, each exactly when the raw group shows it. |
| `Analysis.HasSuitInGroup` | main.py:91-98 | The loop answers true exactly when some canonical suit occurs in both normalised strings. |
| `Analysis.NormalizeCanonical` | main.py:80-84 | Normalisation leaves a canonical suit unchanged. |
| `Analysis.SharesSuitIffInGroup` | main.py:86-98 | For a canonical target, `has_suit_in_group` holds exactly when the target is in `get_suits_in_group`. |
| `Analysis.GetPredictedSuit` | main.py:100-105 | A suit maps to a different suit of the same colour; any other string is returned unchanged. |
| `Analysis.PredictedSuitInvolution` | main.py:100-105 | Predicting from a predicted suit gives the original suit. |
| `Store.EnqueuedSpec` | main.py:146-160 | A target already queued or active is refused and nothing changes. Otherwise exactly that key is added with the given suit and base, every other entry and the active set are kept, and the result is true. |
| `Store.EnqueuedInvariant` | main.py:146-160 | Queueing a canonical suit keeps the invariant, in particular disjoint key spaces. |
| `Store.Enqueued` | main.py:146-160 | `queue_prediction` on the state. `Store.EnqueuedSpec` states its refusal and insertion cases, and `Store.EnqueuedInvariant` that it keeps the invariant. |
| `Store.Announced` | main.py:108-144 | The record `send_prediction_to_channel` stores. `Store.PromotedNewActive` states each announced record: queued suit, mapped alternate, backup target plus 6, queued base, pending status, check count 0. |
| `Store.SortedKeys` | main.py:176 | `sorted(keys)`: strictly ascending, and holds exactly the keys. |
| `Store.PromoteStepCases` | main.py:178-200 | One iteration: full or far ahead changes nothing. A target in the window moves to the active set as a new record. An expired target is dropped. |
| `Store.PromoteStep` | main.py:178-200 | One iteration of the loop. `Store.PromoteStepCases` states its three outcomes and `Store.PromoteStepInvariant` that it keeps the invariant. |
| `Store.PromoteAllInvariant` | main.py:176-200 | The loop keeps the invariant and changes only the queue and the active set. |
| `Store.PromoteAll` | main.py:176-200 | The loop over the sorted keys. `Store.PromoteAllInvariant` states what it keeps, and the `Store.PromoteAll*` lemmas the facts behind the `Store.Promoted*` rows. |
| `Store.PromotedKeys` | main.py:176-178 | The loop visits the queued targets in ascending order. |
| `Store.PromotedInvariant` | main.py:162-200 | Promotion keeps the invariant, so the active set never exceeds two records, and it sets the current game number. |
| `Store.Promoted` | main.py:162-200 | `check_and_send_queued_predictions` on the state. The `Store.Promoted*` lemmas in these rows state its contract: invariant, capacity, expiry, order, new records. |
| `Store.PromotedWhenFull` | main.py:170-183 | With a full active set, nothing is promoted and nothing is dropped, expired entries included. |
| `Store.PromotedQueueShrinks` | main.py:178-200 | The queue only loses entries; targets more than three games ahead always stay. |
| `Store.PromotedDropsExpired` | main.py:197-200 | Below capacity, every target not ahead of the current game leaves the queue. |
| `Store.PromotedSaturates` | main.py:181-196 | A target within the window stays queued only when the active set ends up full. |
| `Store.PromotedKeepsActive` | main.py:162-200 | Existing active records are kept unchanged. |
| `Store.PromotedNewActive` | main.py:128-137 | A new active record comes from the queue, from within the window. It has the queued suit, the mapped alternate suit, backup game target plus 6, the queued base, the pending status and check count 0. |
| `Store.PromotedInOrder` | main.py:175-196 | Announcement follows ascending order: when a target is announced, every nearer queued target ahead of the current game is active too. |
| `Store.PromotedRemoved` | main.py:185-200 | A target still ahead of the current game leaves the queue only by being announced. |
| `Store.PromotedBothNear` | main.py:162-200 | With an empty active set, targets one and two games ahead are both announced and the queue is emptied. |
| `Store.StatusUpdatedSpec` | main.py:202-233 | Without a record the result is false and nothing changes. A terminal status deletes exactly that record. Any status keeps the invariant. |
| `Store.StatusUpdated` | main.py:202-233 | `update_prediction_status` on the state. `Store.StatusUpdatedSpec` states its contract. |
| `Store.SecondLookInvariant` | main.py:252-255 | Setting the check count to 1 keeps the invariant. |
| `Store.ResolvedInvariant` | main.py:241-282 | Resolution keeps the invariant and changes only the queue and the active set. |
| `Store.Resolved` | main.py:241-282 | `check_prediction_result` on the state. Its contract is stated by `Store.ResolvedInvariant`, `Store.ResolvedFirstChance`, `Store.ResolvedSecondChance`, `Store.ResolvedNothingDue`, `Store.ResolvedWithinTwoGames` and `Store.ResolvedSecondChanceShadowed`. |
| `Store.ResolvedFirstChance` | main.py:244-255 | On its own game, a hit (its suit is in the first group) deletes the record. A miss sets its check count to 1, keeps it and returns at once. |
| `Store.ResolvedSecondChance` | main.py:257-280 | On the next game the record of G-1 is deleted either way. On a miss its backup (game G-1+6, the mapped suit, same base) is queued unless that game is taken. |
| `Store.ResolvedNothingDue` | main.py:257-282 | With nothing to settle, the state is unchanged and the result is None. |
| `Store.ResolvedWithinTwoGames` | main.py:241-282 | A fresh prediction whose next game has no record of its own is settled within two results. |
| `Store.ResolvedSecondChanceShadowed` | main.py:244-261 | If the next game has its own record, a first miss of the target leaves the target active after the next result. |
| `Store.MissingSuits` | main.py:338 | The suits of `ALL_SUITS` not in the set, and only those. |
| `Store.MissingSuitCompletes` | main.py:336-338 | When a pair shows exactly three suits, the first missing suit is the fourth one. |
| `Store.PairRuleInvariant` | main.py:330-353 | With canonical suits the rule never aborts. It keeps the invariant and changes only the queue, the active set and the current game. |
| `Store.PairRule` | main.py:330-353 | The paired rule on the state, None where the source raises. `Store.PairRuleInvariant`, `Store.PairRuleFires` and `Store.PairRuleQuiet` state its contract. |
| `Store.PairRuleFires` | main.py:330-351 | After game G-1, if exactly one suit m is missing and G+5 is free, G+5 is queued with the partner of m and base G, then promotion runs. |
| `Store.PairRuleQuiet` | main.py:330-353 | Without consecutive games showing exactly three suits, or with G+5 taken, the rule changes nothing. |
| `Store.RecordRecentGameBound` | main.py:362-368 | `recent_games` stays within 100 games. The recorded game holds its group unless evicted, and every other kept game is unchanged. |
| `Store.RecordRecentGame` | main.py:362-368 | Recording a game in `recent_games`. `Store.RecordRecentGameBound`, `Store.RecordRecentGameRoom` and `Store.RecordRecentGameEvictsOldest` state its contract: the game is stored, nothing is evicted while there is room, and on overflow only the smallest game number is evicted. |
| `Store.RecordRecentGameEvictsOldest` | main.py:366-368 | Every evicted game number is below every kept one. The new game is evicted only when it is new, smallest, and the record was full. |
| `Store.RecordRecentGameRoom` | main.py:362-368 | While the grown record holds at most 100 games nothing is evicted. On overflow the record is cut back to exactly 100 games, so exactly one game is evicted: the smallest, by `Store.RecordRecentGameEvictsOldest`. |
| `Store.MessageKeySpec` | main.py:296-297 | Two messages of one game share a dedupe key exactly when their first 50 characters agree. |
| `Store.MessageKey` | main.py:296 | The dedupe key. `Store.MessageKeySpec` states when two messages share it. |
| `Store.Remember` | main.py:299-302 | The key is kept exactly when the grown set has at most 200 keys. The set is then the old set plus the key; otherwise it is emptied. |
| `Store.HandleGameSpec` | main.py:308-368 | Handling a game keeps the invariant. It stores the game as the pair memory and records it in `recent_games`. The transfer marker becomes the game when forwarded. |
| `Store.HandleGame` | main.py:308-368 | The handler after deduplication. `Store.HandleGameSpec` states its contract. |
| `Store.ProcessedIgnoresUnfinished` | main.py:288-289 | A message that is not final changes nothing. |
| `Store.ProcessedIgnoresUnnumbered` | main.py:291-293 | A final message without a game number changes nothing. |
| `Store.ProcessedDuplicate` | main.py:295-298 | A repeated message changes only the current game number. |
| `Store.ProcessedWithoutGroup` | main.py:299-306 | A new message without a group is remembered and otherwise ignored. |
| `Store.ProcessedInvariant` | main.py:284-368 | Every message keeps the invariant. |
| `Store.Processed` | main.py:284-368 | `process_finalized_message` on the state. Its contract is stated by `Store.ProcessedInvariant`, `Store.ProcessedNewGame` and the four `Store.Processed*` lemmas for the early exits. |
| `Store.ProcessedNewGame` | main.py:295-368 | A new game with a group sets the current game, is remembered, becomes the pair memory and is recorded with its first group. |
| `Store.AfterHourlyReset` | main.py:499-506 | Queue, active set, dedupe set, transfer marker and pair memory are cleared. Recent games and the current game number are kept. |
| `Store.AfterDailyReset` | main.py:530-538 | Everything returns to the start-up state. |
| `Store.ResetsIdempotent` | main.py:499-538 | Repeating a reset, or running both in either order, changes nothing further. |
| `Bot.PredictionBot.constructor` | main.py:45-54 | The globals start empty, with current game 0. |
| `Bot.PredictionBot.QueuePrediction` | main.py:146-160 | The in-place insertion agrees with `Store.Enqueued`. |
| `Bot.PredictionBot.SendPredictionToChannel` | main.py:108-144 | The in-place insertion of the new active record agrees with `Store.Announced`. |
| `Bot.PredictionBot.CheckAndSendQueuedPredictions` | main.py:162-200 | Setting the current game and running the loop over the sorted keys agrees with `Store.Promoted`. |
| `Bot.PredictionBot.PromoteInOrder` | main.py:176-200 | The `for` loop over ascending keys agrees with `Store.PromoteAll`. |
| `Bot.PredictionBot.PromoteQueuedTarget` | main.py:178-200 | One loop iteration (continue, pop and announce, or drop) agrees with `Store.PromoteStep`. |
| `Bot.PredictionBot.UpdatePredictionStatus` | main.py:202-233 | The in-place status write and deletion agree with `Store.StatusUpdated`. |
| `Bot.PredictionBot.CheckPredictionResult` | main.py:241-282 | The early-returning method agrees with `Store.Resolved`. |
| `Bot.PredictionBot.ProcessFinalizedMessage` | main.py:284-368 | The handler agrees with `Store.Processed` and keeps the invariant. |
| `Bot.PredictionBot.HandleFinalizedGame` | main.py:308-368 | The steps after deduplication agree with `Store.HandleGame`. |
| `Bot.PredictionBot.ApplyPairRule` | main.py:330-353 | It completes exactly when `Store.PairRule` does, with the same state. |
| `Bot.PredictionBot.RecordGame` | main.py:355-368 | Stores the pair memory and records the game with eviction of the smallest game number. |
| `Bot.PredictionBot.HourlyReset` | main.py:499-506 | Agrees with `Store.AfterHourlyReset` and keeps the invariant. |
| `Bot.PredictionBot.DailyReset` | main.py:530-538 | Agrees with `Store.AfterDailyReset` and keeps the invariant. |
| `Schedule.SecondsUntilDailyReset` | main.py:517-523 | The wait is positive, at most one day, and ends at 00:59 WAT. |
| `Schedule.DailyResetIsNext` | main.py:517-523 | No shorter wait ends at 00:59: the daily reset wakes at the next 00:59. |

## Left out

- Telegram transport is not modelled:
  - the client;
  - the new-message and edited-message hooks and their chat-id rewriting (main.py:376-406);
  - the `send_message` and `edit_message` calls (main.py:118-126, main.py:214-219).
- An announcement always creates its record. The message id it would carry is not part of the record.
- The copy of each finalized message to the administrator (main.py:313-320) is a boolean parameter `forwarded`. It says that forwarding is enabled and that the copy was delivered.
- Timestamps (`created_at`, `queued_at`, the timestamps of `recent_games`) and all logging are not modelled.
- Operator commands, status formatting, the HTTP health server, startup checks and the process entry point (main.py:27-35, main.py:410-485, main.py:542-590) are input/output only.
- The asyncio sleeps and task scheduling are not modelled. Every handler runs atomically, with no interleaving at `await` points. Only the effect of each reset and the daily wait in whole seconds are modelled.
- `SecondsUntilDailyReset`: works on whole seconds of the day. It ignores the fractional seconds that `total_seconds()` returns.
- `Config.ParseChannelId`: `os.getenv` is an optional string argument. It reads only an optional sign followed by ASCII digits; Python's `int` also accepts surrounding whitespace, underscores and non-ASCII digits.
- The `ADMIN_ID`, `API_ID`, `API_HASH`, `BOT_TOKEN` and `PORT` settings (config.py:20-26) are read from the environment and used only by the transport.
- `Analysis.ExtractGameNumber`: `\s` and `\d` are ASCII only, whereas Python's are Unicode classes.
- `Bot.PredictionBot.ApplyPairRule`: leaves out the reset of `last_processed_game_data` at main.py:353, because the caller overwrites that global straight after.
- The `except` branch of `process_finalized_message` (main.py:370-373) is modelled only for the one exception the core can raise: indexing an empty list of missing suits. The handler then stops with the changes made so far. The invariant rules this case out.
