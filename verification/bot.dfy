/**
  The bot's global state as one object whose methods update it in place, in
  the order of the handlers. Each method is proved to leave the object in the
  state the corresponding function of module Store computes, so every lemma
  proved there holds of the object.
 */
module Bot {
  import opened Wrappers
  import opened Text
  import opened Config
  import opened Analysis
  import opened Store

  class PredictionBot {
    var queued: map<int, QueuedPrediction>
    var pending: map<int, ActivePrediction>
    var recentGames: map<int, string>
    var processedMessages: set<(int, string)>
    var lastTransferredGame: Option<int>
    var currentGameNumber: int
    var lastProcessedGameData: Option<PairData>

    /** The current values of the seven globals. */
    function Snapshot(): State
      reads this
    {
      State(queued, pending, recentGames, processedMessages, lastTransferredGame,
            currentGameNumber, lastProcessedGameData)
    }

    ghost predicate Valid()
      reads this
    {
      Invariant(Snapshot())
    }

    constructor()
      ensures Snapshot() == InitialState()
      ensures Valid()
    {
      queued := map[];
      pending := map[];
      recentGames := map[];
      processedMessages := {};
      lastTransferredGame := None;
      currentGameNumber := 0;
      lastProcessedGameData := None;
    }

    /** queue_prediction */
    method QueuePrediction(target: int, suit: string, base: int) returns (ok: bool)
      modifies this
      ensures (Snapshot(), ok) == Enqueued(old(Snapshot()), target, suit, base)
    {
      if target in queued || target in pending {
        return false;
      }
      queued := queued[target := QueuedPrediction(target, suit, base)];
      return true;
    }

    /** send_prediction_to_channel, without the channel message. */
    method SendPredictionToChannel(target: int, suit: string, base: int)
      modifies this
      ensures Snapshot() == Announced(old(Snapshot()), target, suit, base)
    {
      var alternate := GetPredictedSuit(suit);
      var backup := target + PredictionOffset;
      pending := pending[target := ActivePrediction(suit, alternate, backup, base, Pending, 0)];
    }

    /** check_and_send_queued_predictions */
    method CheckAndSendQueuedPredictions(current: int)
      modifies this
      ensures Snapshot() == Promoted(old(Snapshot()), current)
    {
      ghost var s0 := Snapshot();
      PromotedKeys(s0, current);
      currentGameNumber := current;
      assert Snapshot() == s0.(currentGameNumber := current);
      var sorted := SortedKeys(queued.Keys);
      PromoteInOrder(sorted, current);
    }

    /** The loop of check_and_send_queued_predictions over the ascending targets `keys`. */
    method PromoteInOrder(keys: seq<int>, current: int)
      requires StrictlyAscending(keys) && AllQueued(Snapshot(), keys)
      modifies this
      ensures Snapshot() == PromoteAll(old(Snapshot()), keys, current)
    {
      ghost var start := Snapshot();
      assert keys[0..] == keys;
      for i := 0 to |keys|
        invariant StrictlyAscending(keys[i..]) && AllQueued(Snapshot(), keys[i..])
        invariant PromoteAll(Snapshot(), keys[i..], current) == PromoteAll(start, keys, current)
      {
        PromoteTail(Snapshot(), keys[i..], current);
        assert keys[i..][1..] == keys[i + 1..];
        PromoteQueuedTarget(keys[i], current);
      }
      assert keys[|keys|..] == [];
    }

    /** One iteration of the promotion loop, for the queued target `target`. */
    method PromoteQueuedTarget(target: int, current: int)
      requires target in queued
      modifies this
      ensures Snapshot() == PromoteStep(old(Snapshot()), target, current)
    {
      if |pending| >= MaxPendingPredictions {
        return;
      }
      var distance := target - current;
      if distance <= ProximityThreshold && distance > 0 {
        var entry := queued[target];
        queued := queued - {target};
        SendPredictionToChannel(entry.targetGame, entry.predictedSuit, entry.baseGame);
      } else if distance <= 0 {
        queued := queued - {target};
      }
    }

    /** update_prediction_status, without the channel edit. */
    method UpdatePredictionStatus(game: int, status: Status) returns (ok: bool)
      modifies this
      ensures (Snapshot(), ok) == StatusUpdated(old(Snapshot()), game, status)
    {
      if game !in pending {
        return false;
      }
      pending := pending[game := pending[game].(status := status)];
      if IsTerminal(status) {
        pending := pending - {game};
      }
      return true;
    }

    /** check_prediction_result */
    method CheckPredictionResult(game: int, group: string) returns (outcome: Option<bool>)
      modifies this
      ensures (Snapshot(), outcome) == Resolved(old(Snapshot()), game, group)
    {
      if game in pending {
        var prediction := pending[game];
        var found := HasSuitInGroup(group, prediction.suit);
        if found {
          var updated := UpdatePredictionStatus(game, HitImmediate);
          return Some(true);
        } else {
          pending := pending[game := prediction.(checkCount := 1)];
          return Some(false);
        }
      }
      var previous := game - 1;
      if previous in pending {
        var prediction := pending[previous];
        if prediction.checkCount >= 1 {
          var found := HasSuitInGroup(group, prediction.suit);
          if found {
            var updated := UpdatePredictionStatus(previous, HitDelayed);
            return Some(true);
          } else {
            var updated := UpdatePredictionStatus(previous, Miss);
            var queuedBackup := QueuePrediction(prediction.backupGame, prediction.alternateSuit, prediction.baseGame);
            return Some(false);
          }
        }
      }
      return None;
    }

    /**
      process_finalized_message; `forwarded` says that forwarding to the
      administrator is enabled and that the copy was delivered.
     */
    method ProcessFinalizedMessage(text: string, forwarded: bool)
      modifies this
      ensures Snapshot() == Processed(old(Snapshot()), text, forwarded)
      ensures old(Valid()) ==> Valid()
    {
      ghost var s := Snapshot();
      if Invariant(s) {
        ProcessedInvariant(s, text, forwarded);
      }
      if !IsMessageFinalized(text) {
        return;
      }
      var number := ExtractGameNumber(text);
      if number.None? {
        return;
      }
      var game := number.value;
      currentGameNumber := game;
      var key := MessageKey(game, text);
      if key in processedMessages {
        return;
      }
      processedMessages := processedMessages + {key};
      if |processedMessages| > MaxProcessedMessages {
        processedMessages := {};
      }
      var groups := ExtractParenthesesGroups(text);
      if |groups| < 1 {
        return;
      }
      HandleFinalizedGame(game, groups[0], forwarded);
    }

    /** The part of process_finalized_message that follows deduplication, for a game with first group `group`. */
    method HandleFinalizedGame(game: int, group: string, forwarded: bool)
      modifies this
      ensures Snapshot() == HandleGame(old(Snapshot()), game, group, forwarded)
    {
      var suitsCurrent := set x | x in GetSuitsInGroup(group);
      if forwarded && lastTransferredGame != Some(game) {
        lastTransferredGame := Some(game);
      }
      var outcome := CheckPredictionResult(game, group);
      CheckAndSendQueuedPredictions(game);
      var completed := ApplyPairRule(game, suitsCurrent);
      if !completed {
        return;
      }
      RecordGame(game, group, suitsCurrent);
    }

    /**
      The paired-game rule of process_finalized_message. It returns false where
      the source raises (no missing suit to take the first of) and the rest of the
      handler is skipped. The reset of last_processed_game_data inside the rule
      is left out, since the caller overwrites it straight after.
     */
    method ApplyPairRule(game: int, suitsCurrent: set<string>) returns (completed: bool)
      modifies this
      ensures completed <==> PairRule(old(Snapshot()), game, suitsCurrent).Some?
      ensures Snapshot() == if completed then PairRule(old(Snapshot()), game, suitsCurrent).value else old(Snapshot())
    {
      if lastProcessedGameData.Some? && lastProcessedGameData.value.gameNumber == game - 1 {
        var combined := suitsCurrent + lastProcessedGameData.value.suits;
        if |combined| == 3 {
          var missing := MissingSuits(combined);
          if |missing| == 0 {
            return false;
          }
          var predicted := GetPredictedSuit(missing[0]);
          var target := game + PairPredictionDelay;
          if target !in pending && target !in queued {
            var ok := QueuePrediction(target, predicted, game);
            CheckAndSendQueuedPredictions(game);
          }
        }
      }
      return true;
    }

    /** The records kept of a handled game: the pair memory and recent_games, trimmed to 100 entries. */
    method RecordGame(game: int, group: string, suits: set<string>)
      modifies this
      ensures Snapshot() == old(Snapshot()).(lastProcessedGameData := Some(PairData(game, group, suits)),
                                             recentGames := RecordRecentGame(old(recentGames), game, group))
    {
      lastProcessedGameData := Some(PairData(game, group, suits));
      recentGames := recentGames[game := group];
      if |recentGames| > MaxRecentGames {
        var oldest := MinOf(recentGames.Keys);
        recentGames := recentGames - {oldest};
      }
    }

    /** The body of the hourly reset task. */
    method HourlyReset()
      modifies this
      ensures Snapshot() == AfterHourlyReset(old(Snapshot()))
      ensures old(Valid()) ==> Valid()
    {
      pending := map[];
      queued := map[];
      processedMessages := {};
      lastTransferredGame := None;
      lastProcessedGameData := None;
    }

    /** The body of the daily reset task. */
    method DailyReset()
      modifies this
      ensures Snapshot() == AfterDailyReset(old(Snapshot()))
      ensures old(Valid()) ==> Valid()
    {
      pending := map[];
      queued := map[];
      recentGames := map[];
      processedMessages := {};
      lastTransferredGame := None;
      currentGameNumber := 0;
      lastProcessedGameData := None;
    }
  }
}
