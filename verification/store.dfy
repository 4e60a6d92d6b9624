/**
  The prediction state of the bot as a value, and one function per operation
  that changes it: queueing, announcing, promotion from the queue, status
  updates, the two-chance resolution, the paired-game rule, the per-message
  driver and the two resets. The lemmas state what these operations keep and
  promise; the class in module Bot performs them in place and is proved to
  agree with them.
 */
module Store {
  import opened Wrappers
  import opened Text
  import opened Config
  import opened Analysis

  /** MAX_PENDING_PREDICTIONS: the capacity of the active set. */
  const MaxPendingPredictions: int := 2
  /** PROXIMITY_THRESHOLD: how many games ahead a queued prediction may be announced. */
  const ProximityThreshold: int := 3
  /** PREDICTION_OFFSET: the distance from a target game to its backup game. */
  const PredictionOffset: int := 6
  /** The distance from the second game of a pair to the predicted game. */
  const PairPredictionDelay: int := 5
  /** The dedupe set is emptied once it holds more than this many keys. */
  const MaxProcessedMessages: int := 200
  /** The recent-games record keeps at most this many games. */
  const MaxRecentGames: int := 100
  /** How many leading characters of a message enter its dedupe key. */
  const MessageKeyLength: int := 50

  /**
    The status written on an announced prediction: Pending is the crystal ball,
    HitImmediate the check mark with keycap 0, HitDelayed the check mark with
    keycap 1, Miss the cross mark.
   */
  datatype Status = Pending | HitImmediate | HitDelayed | Miss

  /** The three statuses after which a record is deleted from the active set. */
  predicate IsTerminal(status: Status) {
    status != Pending
  }

  /** An entry of queued_predictions (its timestamp is not modelled). */
  datatype QueuedPrediction = QueuedPrediction(targetGame: int, predictedSuit: string, baseGame: int)

  /** An entry of pending_predictions (its message handle and timestamp are not modelled). */
  datatype ActivePrediction = ActivePrediction(
    suit: string,
    alternateSuit: string,
    backupGame: int,
    baseGame: int,
    status: Status,
    checkCount: int)

  /** last_processed_game_data: the previous game, kept for the paired rule. */
  datatype PairData = PairData(gameNumber: int, firstGroup: string, suits: set<string>)

  /** The bot's global state; a dedupe key is the game number with the first 50 characters. */
  datatype State = State(
    queued: map<int, QueuedPrediction>,
    pending: map<int, ActivePrediction>,
    recentGames: map<int, string>,
    processedMessages: set<(int, string)>,
    lastTransferredGame: Option<int>,
    currentGameNumber: int,
    lastProcessedGameData: Option<PairData>)

  /** The state at start-up. */
  function InitialState(): State {
    State(map[], map[], map[], {}, None, 0, None)
  }


  /** What every active record looks like: created by promotion, at most one failed check. */
  predicate WellFormedActive(target: int, p: ActivePrediction) {
    && IsSuit(p.suit)
    && p.alternateSuit == GetPredictedSuit(p.suit)
    && p.backupGame == target + PredictionOffset
    && p.status == Pending
    && (p.checkCount == 0 || p.checkCount == 1)
  }

  /**
    The invariant of the bot's state: queue and active set have disjoint keys,
    the active set is within capacity, every queued entry is filed under its own
    target and predicts a canonical suit, every active record is well formed, and
    the two caches are within their bounds.
   */
  predicate Invariant(s: State) {
    && s.queued.Keys !! s.pending.Keys
    && |s.pending| <= MaxPendingPredictions
    && (forall t | t in s.queued :: s.queued[t].targetGame == t && IsSuit(s.queued[t].predictedSuit))
    && (forall t | t in s.pending :: WellFormedActive(t, s.pending[t]))
    && |s.processedMessages| <= MaxProcessedMessages
    && |s.recentGames| <= MaxRecentGames
    && (s.lastProcessedGameData.Some? ==> s.lastProcessedGameData.value.suits <= SuitSet)
  }

  // ---------------------------------------------------------------------------
  // queue_prediction and send_prediction_to_channel

  /** queue_prediction: refused (false, nothing changes) when the target is already queued or active. */
  function Enqueued(s: State, target: int, suit: string, base: int): (State, bool) {
    if target in s.queued || target in s.pending then (s, false)
    else (s.(queued := s.queued[target := QueuedPrediction(target, suit, base)]), true)
  }

  /**
    queue_prediction refuses a target that is queued or active and then changes
    nothing; otherwise it files exactly that target, with the given suit and base
    game, and leaves the active set and every other entry alone.
   */
  lemma EnqueuedSpec(s: State, target: int, suit: string, base: int)
    ensures var (r, ok) := Enqueued(s, target, suit, base);
      && (ok <==> target !in s.queued && target !in s.pending)
      && (!ok ==> r == s)
      && (ok ==> && r.queued.Keys == s.queued.Keys + {target}
                 && r.queued[target] == QueuedPrediction(target, suit, base)
                 && (forall t | t in s.queued :: r.queued[t] == s.queued[t])
                 && r == s.(queued := r.queued))
  {
  }

  /** Queueing a canonical suit keeps the invariant: the uniqueness check keeps the key spaces disjoint. */
  lemma EnqueuedInvariant(s: State, target: int, suit: string, base: int)
    requires Invariant(s) && IsSuit(suit)
    ensures Invariant(Enqueued(s, target, suit, base).0)
  {
  }

  /** The active record created when a prediction is announced. */
  function NewActive(target: int, suit: string, base: int): ActivePrediction {
    ActivePrediction(suit, GetPredictedSuit(suit), target + PredictionOffset, base, Pending, 0)
  }

  /** The state effect of send_prediction_to_channel (the message itself is left to the transport). */
  function Announced(s: State, target: int, suit: string, base: int): State {
    s.(pending := s.pending[target := NewActive(target, suit, base)])
  }

  // ---------------------------------------------------------------------------
  // check_and_send_queued_predictions

  predicate StrictlyAscending(xs: seq<int>) {
    forall i, j | 0 <= i < j < |xs| :: xs[i] < xs[j]
  }

  /** An element of a non-empty set. */
  lemma PickElement<T>(s: set<T>) returns (y: T)
    requires s != {}
    ensures y in s
  {
    if forall x :: x !in s {
      assert false;
    }
    y :| y in s;
  }

  /** A least element of a non-empty set, found by removing one element at a time. */
  lemma {:induction false} LeastElement(s: set<int>) returns (least: int)
    requires s != {}
    ensures least in s && forall x | x in s :: least <= x
    decreases |s|
  {
    var y := PickElement(s);
    var rest := s - {y};
    if rest == {} {
      least := y;
      forall x | x in s ensures y <= x {
        assert x !in rest;
      }
    } else {
      var m := LeastElement(rest);
      least := if y < m then y else m;
      forall x | x in s ensures least <= x {
        if x != y {
          assert x in rest;
        }
      }
    }
  }

  lemma MinExists(s: set<int>)
    requires s != {}
    ensures exists m :: m in s && forall x | x in s :: m <= x
  {
    var m := LeastElement(s);
  }

  /** The least element of a non-empty set of game numbers (Python `min`). */
  function MinOf(s: set<int>): (m: int)
    requires s != {}
    ensures m in s && forall x | x in s :: m <= x
  {
    MinExists(s);
    var m :| m in s && forall x | x in s :: m <= x;
    m
  }

  /** Python `sorted` of a set of game numbers. */
  function SortedKeys(s: set<int>): (keys: seq<int>)
    ensures StrictlyAscending(keys)
    ensures forall x :: x in keys <==> x in s
    ensures |keys| == |s|
    decreases |s|
  {
    if s == {} then []
    else
      var m := MinOf(s);
      var rest := SortedKeys(s - {m});
      [m] + rest
  }

  /** One iteration of the promotion loop, for the queued target `t`. */
  function PromoteStep(s: State, t: int, current: int): State
    requires t in s.queued
  {
    if |s.pending| >= MaxPendingPredictions then s
    else
      var distance := t - current;
      if distance <= ProximityThreshold && distance > 0 then
        var e := s.queued[t];
        Announced(s.(queued := s.queued - {t}), e.targetGame, e.predictedSuit, e.baseGame)
      else if distance <= 0 then s.(queued := s.queued - {t})
      else s
  }

  predicate AllQueued(s: State, keys: seq<int>) {
    forall i | 0 <= i < |keys| :: keys[i] in s.queued
  }

  /** The promotion loop over `keys`, in order. */
  function PromoteAll(s: State, keys: seq<int>, current: int): State
    requires StrictlyAscending(keys) && AllQueued(s, keys)
    decreases |keys|
  {
    if keys == [] then s
    else
      PromoteTail(s, keys, current);
      PromoteAll(PromoteStep(s, keys[0], current), keys[1..], current)
  }

  /** check_and_send_queued_predictions: record the current game, then visit the queue in ascending order. */
  function Promoted(s: State, current: int): State {
    var s1 := s.(currentGameNumber := current);
    PromoteAll(s1, SortedKeys(s1.queued.Keys), current)
  }

  /** After visiting the first key, the rest of the keys are still ascending and queued. */
  lemma PromoteTail(s: State, keys: seq<int>, current: int)
    requires StrictlyAscending(keys) && AllQueued(s, keys) && keys != []
    ensures StrictlyAscending(keys[1..]) && AllQueued(PromoteStep(s, keys[0], current), keys[1..])
  {
    var s' := PromoteStep(s, keys[0], current);
    forall i | 0 <= i < |keys| - 1
      ensures keys[1..][i] in s'.queued
    {
      assert keys[0] < keys[i + 1];
    }
  }

  /** Queue and active set have disjoint keys, and every queued entry is filed under its own target. */
  predicate Keyed(s: State) {
    && s.queued.Keys !! s.pending.Keys
    && forall t | t in s.queued :: s.queued[t].targetGame == t
  }

  /** The three outcomes of one loop iteration. */
  lemma PromoteStepCases(s: State, t: int, current: int)
    requires Keyed(s) && t in s.queued
    ensures var r := PromoteStep(s, t, current);
      && Keyed(r)
      && r == s.(queued := r.queued, pending := r.pending)
      && (forall u | u in s.pending :: u in r.pending && r.pending[u] == s.pending[u])
      && (if |s.pending| >= MaxPendingPredictions || t - current > ProximityThreshold then r == s
          else if t - current > 0 then
            && r.queued == s.queued - {t}
            && r.pending == s.pending[t := NewActive(t, s.queued[t].predictedSuit, s.queued[t].baseGame)]
          else r.queued == s.queued - {t} && r.pending == s.pending)
  {
  }

  /** One loop iteration keeps the invariant: an announcement happens only below capacity. */
  lemma PromoteStepInvariant(s: State, t: int, current: int)
    requires Invariant(s) && t in s.queued
    ensures Invariant(PromoteStep(s, t, current))
  {
    PromoteStepCases(s, t, current);
  }

  lemma {:induction false} PromoteAllInvariant(s: State, keys: seq<int>, current: int)
    requires Invariant(s) && StrictlyAscending(keys) && AllQueued(s, keys)
    ensures var r := PromoteAll(s, keys, current);
      Invariant(r) && r == s.(queued := r.queued, pending := r.pending)
    decreases |keys|
  {
    if keys != [] {
      PromoteStepInvariant(s, keys[0], current);
      PromoteAllInvariant(PromoteStep(s, keys[0], current), keys[1..], current);
    }
  }

  /** A full active set stops the loop from changing anything: nothing is promoted, nothing expires. */
  lemma {:induction false} PromoteAllWhenFull(s: State, keys: seq<int>, current: int)
    requires StrictlyAscending(keys) && AllQueued(s, keys)
    requires |s.pending| >= MaxPendingPredictions
    ensures PromoteAll(s, keys, current) == s
    decreases |keys|
  {
    if keys != [] {
      PromoteAllWhenFull(s, keys[1..], current);
    }
  }

  /** The loop never adds to the queue, and leaves alone the targets it does not visit or that are far ahead. */
  lemma {:induction false} PromoteAllQueueFrame(s: State, keys: seq<int>, current: int)
    requires Keyed(s) && StrictlyAscending(keys) && AllQueued(s, keys)
    ensures var r := PromoteAll(s, keys, current);
      && (forall t | t in r.queued :: t in s.queued && r.queued[t] == s.queued[t])
      && (forall t | t in s.queued && (t !in keys || t - current > ProximityThreshold) ::
            t in r.queued && r.queued[t] == s.queued[t])
    decreases |keys|
  {
    if keys != [] {
      PromoteStepCases(s, keys[0], current);
      PromoteAllQueueFrame(PromoteStep(s, keys[0], current), keys[1..], current);
    }
  }

  /** The loop keeps queue and active keys disjoint and every queued entry filed under its target. */
  lemma {:induction false} PromoteAllKeyed(s: State, keys: seq<int>, current: int)
    requires Keyed(s) && StrictlyAscending(keys) && AllQueued(s, keys)
    ensures Keyed(PromoteAll(s, keys, current))
    decreases |keys|
  {
    if keys != [] {
      PromoteStepCases(s, keys[0], current);
      PromoteTail(s, keys, current);
      PromoteAllKeyed(PromoteStep(s, keys[0], current), keys[1..], current);
    }
  }

  /** Active records are never changed or removed by the loop. */
  lemma {:induction false} PromoteAllKeepsActive(s: State, keys: seq<int>, current: int)
    requires Keyed(s) && StrictlyAscending(keys) && AllQueued(s, keys)
    ensures var r := PromoteAll(s, keys, current);
      forall t | t in s.pending :: t in r.pending && r.pending[t] == s.pending[t]
    decreases |keys|
  {
    if keys != [] {
      PromoteStepCases(s, keys[0], current);
      PromoteTail(s, keys, current);
      PromoteAllKeepsActive(PromoteStep(s, keys[0], current), keys[1..], current);
    }
  }

  /** Every record the loop adds is a visited queued target within the window, announced with its queued suit. */
  lemma {:induction false} PromoteAllNewActive(s: State, keys: seq<int>, current: int)
    requires Keyed(s) && StrictlyAscending(keys) && AllQueued(s, keys)
    ensures var r := PromoteAll(s, keys, current);
      forall t | t in r.pending && t !in s.pending ::
        && t in s.queued
        && 0 < t - current <= ProximityThreshold
        && r.pending[t] == NewActive(t, s.queued[t].predictedSuit, s.queued[t].baseGame)
    decreases |keys|
  {
    if keys != [] {
      var s' := PromoteStep(s, keys[0], current);
      PromoteStepCases(s, keys[0], current);
      PromoteAllNewActive(s', keys[1..], current);
      PromoteAllKeepsActive(s', keys[1..], current);
    }
  }

  /** A target leaves the queue only by expiry or by being announced. */
  lemma {:induction false} PromoteAllRemoved(s: State, keys: seq<int>, current: int)
    requires Keyed(s) && StrictlyAscending(keys) && AllQueued(s, keys)
    ensures var r := PromoteAll(s, keys, current);
      forall t | t in s.queued && t !in r.queued ::
        t <= current || (t in r.pending && r.pending[t] == NewActive(t, s.queued[t].predictedSuit, s.queued[t].baseGame))
    decreases |keys|
  {
    if keys != [] {
      var s' := PromoteStep(s, keys[0], current);
      PromoteStepCases(s, keys[0], current);
      PromoteTail(s, keys, current);
      PromoteAllRemoved(s', keys[1..], current);
      PromoteAllKeepsActive(s', keys[1..], current);
    }
  }

  /** Below capacity, every visited target that is not ahead of the current game is dropped from the queue. */
  lemma {:induction false} PromoteAllDropsExpired(s: State, keys: seq<int>, current: int)
    requires Keyed(s) && StrictlyAscending(keys) && AllQueued(s, keys)
    requires |s.pending| < MaxPendingPredictions
    ensures var r := PromoteAll(s, keys, current);
      forall t | t in keys && t <= current :: t !in r.queued
    decreases |keys|
  {
    if keys != [] && keys[0] <= current {
      var s' := PromoteStep(s, keys[0], current);
      PromoteStepCases(s, keys[0], current);
      PromoteTail(s, keys, current);
      PromoteAllDropsExpired(s', keys[1..], current);
      PromoteAllQueueFrame(s', keys[1..], current);
    } else if keys != [] {
      forall t | t in keys ensures t > current {
        var i :| 0 <= i < |keys| && keys[i] == t;
        assert i == 0 || keys[0] < keys[i];
      }
    }
  }

  /** A target within the window is still queued after the loop only when the active set is full. */
  lemma {:induction false} PromoteAllSaturates(s: State, keys: seq<int>, current: int)
    requires Keyed(s) && StrictlyAscending(keys) && AllQueued(s, keys)
    ensures var r := PromoteAll(s, keys, current);
      forall t | t in keys && t in r.queued && 0 < t - current <= ProximityThreshold ::
        |r.pending| >= MaxPendingPredictions
    decreases |keys|
  {
    if keys != [] {
      var s' := PromoteStep(s, keys[0], current);
      PromoteStepCases(s, keys[0], current);
      PromoteTail(s, keys, current);
      if |s.pending| >= MaxPendingPredictions {
        PromoteAllWhenFull(s, keys, current);
      } else {
        PromoteAllSaturates(s', keys[1..], current);
        PromoteAllQueueFrame(s', keys[1..], current);
      }
    }
  }

  /** Targets are announced in ascending order: when `t` is newly announced, every nearer visited target `u` is active too. */
  lemma {:induction false} PromoteAllInOrder(s: State, keys: seq<int>, current: int, t: int, u: int)
    requires Keyed(s) && StrictlyAscending(keys) && AllQueued(s, keys)
    requires u in keys && current < u < t
    ensures var r := PromoteAll(s, keys, current);
      t in r.pending && t !in s.pending ==> u in r.pending
    decreases |keys|
  {
    var s' := PromoteStep(s, keys[0], current);
    var r := PromoteAll(s, keys, current);
    PromoteStepCases(s, keys[0], current);
    PromoteTail(s, keys, current);
    if t in r.pending && t !in s.pending {
      var i :| 0 <= i < |keys| && keys[i] == u;
      if i > 0 {
        assert keys[0] < u;
        assert u in keys[1..] by { assert keys[1..][i - 1] == u; }
        PromoteAllInOrder(s', keys[1..], current, t, u);
      } else {
        PromoteAllKeepsActive(s', keys[1..], current);
        PromoteAllNewActive(s', keys[1..], current);
        if |s'.pending| >= MaxPendingPredictions {
          PromoteAllWhenFull(s', keys[1..], current);
        }
        assert u - current <= ProximityThreshold;
      }
    }
  }

  /** The keys visited by check_and_send_queued_predictions are the queued targets, ascending. */
  lemma PromotedKeys(s: State, current: int)
    ensures var keys := SortedKeys(s.queued.Keys);
      && StrictlyAscending(keys)
      && AllQueued(s.(currentGameNumber := current), keys)
      && forall t :: t in keys <==> t in s.queued
  {
    var keys := SortedKeys(s.queued.Keys);
    forall i | 0 <= i < |keys| ensures keys[i] in s.queued {
      assert keys[i] in keys;
    }
  }

  /** check_and_send_queued_predictions keeps the invariant and touches only the queue, the active set and the current game. */
  lemma PromotedInvariant(s: State, current: int)
    requires Invariant(s)
    ensures var r := Promoted(s, current);
      && Invariant(r)
      && r == s.(currentGameNumber := current, queued := r.queued, pending := r.pending)
  {
    PromotedKeys(s, current);
    PromoteAllInvariant(s.(currentGameNumber := current), SortedKeys(s.queued.Keys), current);
  }

  /** With a full active set the call changes nothing but the current game: no promotion, no expiry. */
  lemma PromotedWhenFull(s: State, current: int)
    requires |s.pending| >= MaxPendingPredictions
    ensures Promoted(s, current) == s.(currentGameNumber := current)
  {
    PromotedKeys(s, current);
    PromoteAllWhenFull(s.(currentGameNumber := current), SortedKeys(s.queued.Keys), current);
  }

  /** The queue only shrinks, and targets more than three games ahead always stay queued. */
  lemma PromotedQueueShrinks(s: State, current: int)
    requires Keyed(s)
    ensures var r := Promoted(s, current);
      && (forall t | t in r.queued :: t in s.queued && r.queued[t] == s.queued[t])
      && (forall t | t in s.queued && t - current > ProximityThreshold :: t in r.queued && r.queued[t] == s.queued[t])
  {
    PromotedKeys(s, current);
    PromoteAllQueueFrame(s.(currentGameNumber := current), SortedKeys(s.queued.Keys), current);
  }

  /** Below capacity, every target that is not ahead of the current game leaves the queue. */
  lemma PromotedDropsExpired(s: State, current: int)
    requires Keyed(s) && |s.pending| < MaxPendingPredictions
    ensures forall t | t in s.queued && t <= current :: t !in Promoted(s, current).queued
  {
    PromotedKeys(s, current);
    PromoteAllDropsExpired(s.(currentGameNumber := current), SortedKeys(s.queued.Keys), current);
  }

  /** A target within the window stays queued only when the active set ends up full. */
  lemma PromotedSaturates(s: State, current: int)
    requires Keyed(s)
    ensures var r := Promoted(s, current);
      forall t | t in r.queued && 0 < t - current <= ProximityThreshold :: |r.pending| >= MaxPendingPredictions
  {
    PromotedKeys(s, current);
    PromoteAllSaturates(s.(currentGameNumber := current), SortedKeys(s.queued.Keys), current);
    PromoteAllQueueFrame(s.(currentGameNumber := current), SortedKeys(s.queued.Keys), current);
  }

  /** Active records are kept unchanged. */
  lemma PromotedKeepsActive(s: State, current: int)
    requires Keyed(s)
    ensures var r := Promoted(s, current);
      forall t | t in s.pending :: t in r.pending && r.pending[t] == s.pending[t]
  {
    PromotedKeys(s, current);
    PromoteAllKeepsActive(s.(currentGameNumber := current), SortedKeys(s.queued.Keys), current);
  }

  /**
    A new active record comes from the queue, from within the window, with
    status Pending, no check yet, backup six games on and the partner suit.
   */
  lemma PromotedNewActive(s: State, current: int)
    requires Keyed(s)
    ensures var r := Promoted(s, current);
      forall t | t in r.pending && t !in s.pending ::
        && t in s.queued && t !in r.queued
        && 0 < t - current <= ProximityThreshold
        && r.pending[t] == NewActive(t, s.queued[t].predictedSuit, s.queued[t].baseGame)
  {
    var s1 := s.(currentGameNumber := current);
    var keys := SortedKeys(s.queued.Keys);
    PromotedKeys(s, current);
    var r := PromoteAll(s1, keys, current);
    assert r == Promoted(s, current);
    PromoteAllNewActive(s1, keys, current);
    PromoteAllKeyed(s1, keys, current);
    forall t | t in r.pending && t !in s.pending ensures t !in r.queued {
      assert t in r.pending.Keys;
    }
  }

  /** Targets are announced in ascending order: a new record means every nearer queued target was announced too. */
  lemma PromotedInOrder(s: State, current: int)
    requires Keyed(s)
    ensures var r := Promoted(s, current);
      forall t, u | t in r.pending && t !in s.pending && u in s.queued && current < u < t :: u in r.pending
  {
    var s1 := s.(currentGameNumber := current);
    var keys := SortedKeys(s.queued.Keys);
    PromotedKeys(s, current);
    var r := PromoteAll(s1, keys, current);
    assert r == Promoted(s, current);
    forall t, u | t in r.pending && t !in s.pending && u in s.queued && current < u < t
      ensures u in r.pending
    {
      assert u in keys;
      PromoteAllInOrder(s1, keys, current, t, u);
    }
  }

  /** A target still ahead of the current game leaves the queue only by being announced. */
  lemma PromotedRemoved(s: State, current: int)
    requires Keyed(s)
    ensures var r := Promoted(s, current);
      forall t | t in s.queued && t !in r.queued && t > current ::
        t in r.pending && r.pending[t] == NewActive(t, s.queued[t].predictedSuit, s.queued[t].baseGame)
  {
    PromotedKeys(s, current);
    PromoteAllRemoved(s.(currentGameNumber := current), SortedKeys(s.queued.Keys), current);
  }

  /**
    Two queued targets one and two games ahead with an empty active set are
    both announced by the next promotion, and the queue is left empty.
   */
  lemma PromotedBothNear(s: State, current: int)
    requires Keyed(s) && s.pending == map[]
    requires s.queued.Keys == {current + 1, current + 2}
    ensures var r := Promoted(s, current);
      && r.queued == map[]
      && r.pending.Keys == {current + 1, current + 2}
      && (forall t | t in r.pending :: r.pending[t] == NewActive(t, s.queued[t].predictedSuit, s.queued[t].baseGame))
  {
    PromotedNewActive(s, current);
    PromotedQueueShrinks(s, current);
    PromotedSaturates(s, current);
    PromotedRemoved(s, current);
    BothNearOutcome(s, Promoted(s, current), current);
  }

  /** PromotedBothNear, from the facts the promotion lemmas give about the outcome `r`. */
  lemma BothNearOutcome(s: State, r: State, current: int)
    requires s.pending == map[] && s.queued.Keys == {current + 1, current + 2}
    requires forall t | t in r.pending && t !in s.pending ::
      && t in s.queued && t !in r.queued
      && r.pending[t] == NewActive(t, s.queued[t].predictedSuit, s.queued[t].baseGame)
    requires forall t | t in r.queued :: t in s.queued
    requires forall t | t in r.queued && 0 < t - current <= ProximityThreshold :: |r.pending| >= MaxPendingPredictions
    requires forall t | t in s.queued && t !in r.queued && t > current :: t in r.pending
    ensures r.queued == map[]
    ensures r.pending.Keys == {current + 1, current + 2}
    ensures forall t | t in r.pending :: r.pending[t] == NewActive(t, s.queued[t].predictedSuit, s.queued[t].baseGame)
  {
    var before, after, active := s.queued.Keys, r.queued.Keys, r.pending.Keys;
    forall t | t in after ensures t in before && |active| >= 2 {
      assert |active| == |r.pending|;
    }
    BothAnnounced(before, after, active, current + 1, current + 2);
  }

  /** The counting argument behind PromotedBothNear, on key sets alone. */
  lemma BothAnnounced(queuedBefore: set<int>, queuedAfter: set<int>, active: set<int>, a: int, b: int)
    requires queuedBefore == {a, b} && a != b
    requires forall t | t in active :: t in queuedBefore && t !in queuedAfter
    requires forall t | t in queuedAfter :: t in queuedBefore && |active| >= 2
    requires forall t | t in queuedBefore && t !in queuedAfter :: t in active
    ensures queuedAfter == {} && active == {a, b}
  {
    forall t | t in queuedAfter ensures false {
      assert t in queuedBefore;
      var other := if t == a then b else a;
      forall u | u in active ensures u == other {
        assert u in queuedBefore && u != t;
      }
      AtMostOne(active, other);
    }
    assert queuedAfter == {};
    assert a in active && b in active;
    forall u | u in active ensures u == a || u == b {
      assert u in queuedBefore;
    }
  }

  lemma AtMostOne(keys: set<int>, x: int)
    requires keys <= {x}
    ensures |keys| <= 1
  {
    if x in keys {
      assert keys == {x};
    } else {
      assert keys == {};
    }
  }

  // ---------------------------------------------------------------------------
  // update_prediction_status

  /** update_prediction_status: false when the game has no active record; a terminal status deletes the record. */
  function StatusUpdated(s: State, game: int, status: Status): (State, bool) {
    if game !in s.pending then (s, false)
    else
      var pending := s.pending[game := s.pending[game].(status := status)];
      (s.(pending := if IsTerminal(status) then pending - {game} else pending), true)
  }

  /** A terminal status removes exactly that record; any status keeps the invariant. */
  lemma StatusUpdatedSpec(s: State, game: int, status: Status)
    requires Invariant(s)
    ensures var (r, ok) := StatusUpdated(s, game, status);
      && Invariant(r)
      && (ok <==> game in s.pending)
      && r == s.(pending := r.pending)
      && (IsTerminal(status) ==> r.pending == s.pending - {game})
      && (!IsTerminal(status) ==> r.pending == s.pending)
  {
    if game in s.pending {
      var r := StatusUpdated(s, game, status).0;
      if IsTerminal(status) {
        assert r.pending == s.pending - {game};
        RemovedInvariant(s, game);
      } else {
        assert s.pending[game].(status := status) == s.pending[game];
        assert r.pending == s.pending;
      }
    }
  }

  /** Deleting one active record keeps the invariant. */
  lemma RemovedInvariant(s: State, game: int)
    requires Invariant(s)
    ensures Invariant(s.(pending := s.pending - {game}))
  {
    assert |s.pending - {game}| <= |s.pending|;
  }

  // ---------------------------------------------------------------------------
  // check_prediction_result

  /**
    check_prediction_result for game `game` with first group `group`: Some(true) on a
    hit, Some(false) on a miss, None when neither `game` nor `game - 1` was checked.
    The first chance returns at once, so `game - 1` is only looked at when `game`
    itself has no active record.
   */
  function Resolved(s: State, game: int, group: string): (State, Option<bool>) {
    if game in s.pending then
      var p := s.pending[game];
      if SharesSuit(group, p.suit) then (StatusUpdated(s, game, HitImmediate).0, Some(true))
      else (s.(pending := s.pending[game := p.(checkCount := 1)]), Some(false))
    else if game - 1 in s.pending && s.pending[game - 1].checkCount >= 1 then
      var p := s.pending[game - 1];
      if SharesSuit(group, p.suit) then (StatusUpdated(s, game - 1, HitDelayed).0, Some(true))
      else
        var s1 := StatusUpdated(s, game - 1, Miss).0;
        (Enqueued(s1, p.backupGame, p.alternateSuit, p.baseGame).0, Some(false))
    else (s, None)
  }

  lemma ResolvedInvariant(s: State, game: int, group: string)
    requires Invariant(s)
    ensures var r := Resolved(s, game, group).0;
      Invariant(r) && r == s.(queued := r.queued, pending := r.pending)
  {
    if game in s.pending {
      var p := s.pending[game];
      if SharesSuit(group, p.suit) {
        StatusUpdatedSpec(s, game, HitImmediate);
      } else {
        SecondLookInvariant(s, game);
      }
    } else if game - 1 in s.pending && s.pending[game - 1].checkCount >= 1 {
      var p := s.pending[game - 1];
      if SharesSuit(group, p.suit) {
        StatusUpdatedSpec(s, game - 1, HitDelayed);
      } else {
        StatusUpdatedSpec(s, game - 1, Miss);
        var s1 := StatusUpdated(s, game - 1, Miss).0;
        assert IsSuit(p.alternateSuit);
        EnqueuedInvariant(s1, p.backupGame, p.alternateSuit, p.baseGame);
        EnqueuedSpec(s1, p.backupGame, p.alternateSuit, p.baseGame);
      }
    }
  }

  /** Marking an active record for its second look keeps the invariant. */
  lemma SecondLookInvariant(s: State, game: int)
    requires Invariant(s) && game in s.pending
    ensures Invariant(s.(pending := s.pending[game := s.pending[game].(checkCount := 1)]))
  {
    var r := s.(pending := s.pending[game := s.pending[game].(checkCount := 1)]);
    assert r.pending.Keys == s.pending.Keys;
    assert |r.pending| == |r.pending.Keys| == |s.pending.Keys| == |s.pending|;
    forall t | t in r.pending ensures WellFormedActive(t, r.pending[t]) {
      assert t == game || r.pending[t] == s.pending[t];
    }
  }

  /** First chance: the target game's own first group decides a hit; a miss only marks the record for a second look. */
  lemma ResolvedFirstChance(s: State, game: int, group: string)
    requires Invariant(s) && game in s.pending
    ensures var (r, outcome) := Resolved(s, game, group);
      && outcome.Some?
      && (outcome.value <==> s.pending[game].suit in GetSuitsInGroup(group))
      && r.queued == s.queued
      && (outcome.value ==> r.pending == s.pending - {game})
      && (!outcome.value ==> r.pending == s.pending[game := s.pending[game].(checkCount := 1)])
      && r == s.(pending := r.pending)
  {
    SharesSuitIffInGroup(group, s.pending[game].suit);
  }

  /**
    Second chance: a record of `game - 1` that already failed once is settled by
    this game's first group; on a miss its backup (alternate suit, six games
    after the target) is queued unless that game is already taken.
   */
  lemma ResolvedSecondChance(s: State, game: int, group: string)
    requires Invariant(s) && game !in s.pending
    requires game - 1 in s.pending && s.pending[game - 1].checkCount == 1
    ensures var (r, outcome) := Resolved(s, game, group);
      var p := s.pending[game - 1];
      && outcome.Some?
      && (outcome.value <==> p.suit in GetSuitsInGroup(group))
      && r.pending == s.pending - {game - 1}
      && (outcome.value ==> r.queued == s.queued)
      && var backup := game - 1 + PredictionOffset;
      && (!outcome.value ==>
            && p.backupGame == backup
            && r.queued == if backup in s.queued || backup in r.pending then s.queued
                           else s.queued[backup := QueuedPrediction(backup, GetPredictedSuit(p.suit), p.baseGame)])
      && r == s.(pending := r.pending, queued := r.queued)
  {
    var p := s.pending[game - 1];
    SharesSuitIffInGroup(group, p.suit);
    assert WellFormedActive(game - 1, p);
    if SharesSuit(group, p.suit) {
      StatusUpdatedSpec(s, game - 1, HitDelayed);
    } else {
      StatusUpdatedSpec(s, game - 1, Miss);
      var s1 := StatusUpdated(s, game - 1, Miss).0;
      assert s1.pending == s.pending - {game - 1} && s1.queued == s.queued;
      assert Resolved(s, game, group).0 == Enqueued(s1, p.backupGame, p.alternateSuit, p.baseGame).0;
    }
  }

  /** No active record for this game and no second chance due for the previous one: nothing happens. */
  lemma ResolvedNothingDue(s: State, game: int, group: string)
    requires game !in s.pending
    requires game - 1 !in s.pending || s.pending[game - 1].checkCount < 1
    ensures Resolved(s, game, group) == (s, None)
  {
  }

  /** Two consecutive results settle a prediction whose next game has no record of its own. */
  lemma {:induction false} ResolvedWithinTwoGames(s: State, target: int, first: string, second: string)
    requires Invariant(s) && target in s.pending && s.pending[target].checkCount == 0
    requires target + 1 !in s.pending
    ensures var r1 := Resolved(s, target, first).0;
      target !in Resolved(r1, target + 1, second).0.pending
  {
    var r1 := Resolved(s, target, first).0;
    ResolvedFirstChance(s, target, first);
    ResolvedInvariant(s, target, first);
    if target in r1.pending {
      ResolvedSecondChance(r1, target + 1, second);
    }
  }

  /**
    When the next game has a record of its own, the first chance of that record
    returns before the second chance of `target` is examined: a first miss of
    `target` then leaves it active.
   */
  lemma {:induction false} ResolvedSecondChanceShadowed(s: State, target: int, first: string, second: string)
    requires Invariant(s) && target in s.pending && target + 1 in s.pending
    requires s.pending[target].suit !in GetSuitsInGroup(first)
    ensures var r1 := Resolved(s, target, first).0;
      var r2 := Resolved(r1, target + 1, second).0;
      target in r2.pending && r2.pending[target].checkCount == 1
  {
    var r1 := Resolved(s, target, first).0;
    ResolvedFirstChance(s, target, first);
    ResolvedInvariant(s, target, first);
    ResolvedFirstChance(r1, target + 1, second);
  }

  // ---------------------------------------------------------------------------
  // The paired-game rule of process_finalized_message

  /** The entries of `candidates` that are not in `present`, in order. */
  function SuitsAbsent(candidates: seq<string>, present: set<string>): (r: seq<string>)
    ensures |r| <= |candidates|
  {
    if candidates == [] then []
    else (if candidates[0] in present then [] else [candidates[0]]) + SuitsAbsent(candidates[1..], present)
  }

  lemma {:induction false} SuitsAbsentMember(candidates: seq<string>, present: set<string>, x: string)
    ensures x in SuitsAbsent(candidates, present) <==> x in candidates && x !in present
  {
    if candidates != [] {
      SuitsAbsentMember(candidates[1..], present, x);
      assert candidates == [candidates[0]] + candidates[1..];
    }
  }

  /** The suits of ALL_SUITS missing from a set, in the order of ALL_SUITS. */
  function MissingSuits(present: set<string>): (missing: seq<string>)
    ensures forall x :: x in missing <==> x in SuitSet && x !in present
  {
    forall x ensures x in SuitsAbsent(AllSuits, present) <==> x in SuitSet && x !in present {
      SuitsAbsentMember(AllSuits, present, x);
    }
    SuitsAbsent(AllSuits, present)
  }

  lemma SuitSetSize()
    ensures |SuitSet| == 4
  {
    assert SuitSet == {Spade, Heart, Diamond, Club};
  }

  lemma DifferenceSize(a: set<string>, b: set<string>)
    requires b <= a
    ensures |a - b| == |a| - |b|
  {
    assert a == (a - b) + b && (a - b) !! b;
  }

  lemma OnlyElement(d: set<string>)
    requires |d| == 1
    ensures exists x :: d == {x}
  {
    var x := PickElement(d);
    assert |d - {x}| == 0;
    assert d == {x};
  }

  /** When the two games of a pair show exactly three suits, the first missing suit is the fourth one. */
  lemma MissingSuitCompletes(present: set<string>)
    requires present <= SuitSet && |present| == 3
    ensures var missing := MissingSuits(present);
      |missing| > 0 && missing[0] !in present && present + {missing[0]} == SuitSet
  {
    var d := SuitSet - present;
    SuitSetSize();
    DifferenceSize(SuitSet, present);
    OnlyElement(d);
    var x :| d == {x};
    var missing := MissingSuits(present);
    assert x in missing;
    assert missing[0] in d;
  }

  /**
    The paired-game rule, run after resolution and promotion for game `game`
    whose first group shows `suits`. None is the aborted run when the three
    suits seen do not leave a missing one; Some carries the new state.
   */
  function PairRule(s: State, game: int, suits: set<string>): Option<State> {
    if s.lastProcessedGameData.Some? && s.lastProcessedGameData.value.gameNumber == game - 1 then
      var combined := suits + s.lastProcessedGameData.value.suits;
      if |combined| == 3 then
        var missing := MissingSuits(combined);
        if |missing| == 0 then None
        else
          var predicted := GetPredictedSuit(missing[0]);
          var target := game + PairPredictionDelay;
          if target !in s.pending && target !in s.queued then
            Some(Promoted(Enqueued(s, target, predicted, game).0, game))
          else Some(s)
      else Some(s)
    else Some(s)
  }

  /** With suits drawn from the four, the rule never aborts and keeps the invariant. */
  lemma PairRuleInvariant(s: State, game: int, suits: set<string>)
    requires Invariant(s) && suits <= SuitSet
    ensures PairRule(s, game, suits).Some?
    ensures var r := PairRule(s, game, suits).value;
      && Invariant(r)
      && r == s.(queued := r.queued, pending := r.pending, currentGameNumber := r.currentGameNumber)
      && (r.currentGameNumber == s.currentGameNumber || r.currentGameNumber == game)
  {
    if s.lastProcessedGameData.Some? && s.lastProcessedGameData.value.gameNumber == game - 1 {
      var combined := suits + s.lastProcessedGameData.value.suits;
      if |combined| == 3 {
        MissingSuitCompletes(combined);
        var missing := MissingSuits(combined);
        var target := game + PairPredictionDelay;
        EnqueuedInvariant(s, target, GetPredictedSuit(missing[0]), game);
        PromotedInvariant(Enqueued(s, target, GetPredictedSuit(missing[0]), game).0, game);
      }
    }
  }

  /**
    The rule fires when the previous game was game - 1, exactly one suit `absent`
    is missing from the pair, and game + 5 is free: game + 5 is then queued with
    the partner of the missing suit and stays queued through the promotion that
    follows.
   */
  lemma PairRuleFires(s: State, game: int, suits: set<string>, absent: string)
    requires Invariant(s) && suits <= SuitSet
    requires s.lastProcessedGameData.Some? && s.lastProcessedGameData.value.gameNumber == game - 1
    requires var combined := suits + s.lastProcessedGameData.value.suits;
      |combined| == 3 && absent in SuitSet && absent !in combined
    requires game + PairPredictionDelay !in s.pending && game + PairPredictionDelay !in s.queued
    ensures PairRule(s, game, suits).Some?
    ensures var r := PairRule(s, game, suits).value;
      var target := game + PairPredictionDelay;
      && target in r.queued
      && r.queued[target] == QueuedPrediction(target, GetPredictedSuit(absent), game)
      && r == Promoted(s.(queued := s.queued[target := QueuedPrediction(target, GetPredictedSuit(absent), game)]), game)
  {
    var combined := suits + s.lastProcessedGameData.value.suits;
    MissingSuitCompletes(combined);
    var missing := MissingSuits(combined);
    assert missing[0] == absent by {
      assert missing[0] in SuitSet && absent in SuitSet;
      assert missing[0] !in combined && absent !in combined;
    }
    var target := game + PairPredictionDelay;
    EnqueuedInvariant(s, target, GetPredictedSuit(absent), game);
    PromotedQueueShrinks(Enqueued(s, target, GetPredictedSuit(absent), game).0, game);
  }

  /** Without a pair of consecutive games showing exactly three suits, or with game + 5 taken, the rule changes nothing. */
  lemma PairRuleQuiet(s: State, game: int, suits: set<string>)
    requires
      || s.lastProcessedGameData.None?
      || s.lastProcessedGameData.value.gameNumber != game - 1
      || |suits + s.lastProcessedGameData.value.suits| != 3
      || game + PairPredictionDelay in s.pending
      || game + PairPredictionDelay in s.queued
    requires s.lastProcessedGameData.Some? ==> s.lastProcessedGameData.value.suits <= SuitSet
    requires suits <= SuitSet
    ensures PairRule(s, game, suits) == Some(s)
  {
    if s.lastProcessedGameData.Some? && s.lastProcessedGameData.value.gameNumber == game - 1 {
      var combined := suits + s.lastProcessedGameData.value.suits;
      if |combined| == 3 {
        MissingSuitCompletes(combined);
      }
    }
  }

  // ---------------------------------------------------------------------------
  // Bookkeeping of process_finalized_message

  /** recent_games after recording `game`: above 100 entries the smallest game number is evicted. */
  function RecordRecentGame(recent: map<int, string>, game: int, group: string): map<int, string> {
    var grown := recent[game := group];
    if |grown| > MaxRecentGames then grown - {MinOf(grown.Keys)} else grown
  }

  lemma MapRemoveCard(m: map<int, string>, k: int)
    requires k in m
    ensures |m - {k}| == |m| - 1
  {
    assert (m - {k}).Keys == m.Keys - {k};
    assert |m.Keys - {k}| == |m.Keys| - 1;
  }

  /** The record stays within 100 games and holds the recorded group unless that game was evicted. */
  lemma RecordRecentGameBound(recent: map<int, string>, game: int, group: string)
    requires |recent| <= MaxRecentGames
    ensures var r := RecordRecentGame(recent, game, group);
      && |r| <= MaxRecentGames
      && (forall k | k in r :: (k != game && k in recent && r[k] == recent[k]) || (k == game && r[k] == group))
  {
    var grown := recent[game := group];
    if |grown| > MaxRecentGames {
      MapRemoveCard(grown, MinOf(grown.Keys));
    }
  }

  /** Only the smallest game number is ever evicted: every game dropped lies below every game kept. */
  lemma RecordRecentGameEvictsOldest(recent: map<int, string>, game: int, group: string)
    requires |recent| <= MaxRecentGames
    ensures var r := RecordRecentGame(recent, game, group);
      && (forall k, j | k in recent[game := group] && k !in r && j in r :: k < j)
      && (game !in r ==> |recent| == MaxRecentGames && game !in recent)
  {
    var grown := recent[game := group];
    if |grown| > MaxRecentGames {
      var m := MinOf(grown.Keys);
      var r := grown - {m};
      assert RecordRecentGame(recent, game, group) == r;
      forall k, j | k in grown && k !in r && j in r
        ensures k < j
      {
        assert k == m && j != m;
      }
      if game !in recent {
        assert |grown| == |recent| + 1;
      }
    } else {
      assert RecordRecentGame(recent, game, group) == grown;
    }
  }

  /** While the grown record has room nothing is evicted; on overflow exactly one game is. */
  lemma RecordRecentGameRoom(recent: map<int, string>, game: int, group: string)
    requires |recent| <= MaxRecentGames
    ensures var r := RecordRecentGame(recent, game, group);
      && (|recent[game := group]| <= MaxRecentGames ==> r == recent[game := group])
      && (|recent[game := group]| > MaxRecentGames ==> |r| == MaxRecentGames)
  {
    var grown := recent[game := group];
    if |grown| > MaxRecentGames {
      assert grown.Keys <= recent.Keys + {game};
      MapRemoveCard(grown, MinOf(grown.Keys));
    }
  }

  /** The dedupe key: the game number with the first 50 characters of the message. */
  function MessageKey(game: nat, text: string): (int, string) {
    (game, if |text| <= MessageKeyLength then text else text[..MessageKeyLength])
  }

  /** Two messages of one game share a key exactly when their first 50 characters agree. */
  lemma MessageKeySpec(game: nat, text: string, other: string)
    ensures |MessageKey(game, text).1| <= MessageKeyLength
    ensures MessageKey(game, text) == MessageKey(game, other) <==>
      (|text| <= MessageKeyLength && |other| <= MessageKeyLength && text == other) ||
      (|text| >= MessageKeyLength && |other| >= MessageKeyLength && text[..MessageKeyLength] == other[..MessageKeyLength])
  {
    var a := MessageKey(game, text).1;
    var b := MessageKey(game, other).1;
    if |text| < MessageKeyLength && |other| >= MessageKeyLength {
      assert |a| != |b|;
    } else if |text| >= MessageKeyLength && |other| < MessageKeyLength {
      assert |a| != |b| && |text| != |other|;
    } else if |text| >= MessageKeyLength {
      assert a == text[..MessageKeyLength] && b == other[..MessageKeyLength];
    }
  }

  /** processed_messages after adding a key: emptied once it grows beyond 200. */
  function Remember(processed: set<(int, string)>, key: (int, string)): (r: set<(int, string)>)
    ensures |processed| <= MaxProcessedMessages ==> |r| <= MaxProcessedMessages
    ensures key in r <==> |processed + {key}| <= MaxProcessedMessages
    ensures key in r ==> r == processed + {key}
    ensures key !in r ==> r == {}
  {
    var added := processed + {key};
    if |added| > MaxProcessedMessages then {} else added
  }

  /**
    The part of process_finalized_message after deduplication, for game `game`
    whose first group is `group`: the copy to the administrator (`forwarded` says
    forwarding is enabled and the copy was delivered), resolution, promotion,
    the paired rule, and the records of the game.
   */
  function HandleGame(s: State, game: int, group: string, forwarded: bool): State {
    var suits := set x | x in GetSuitsInGroup(group);
    var s1 := if forwarded && s.lastTransferredGame != Some(game) then s.(lastTransferredGame := Some(game)) else s;
    var s2 := Resolved(s1, game, group).0;
    var s3 := Promoted(s2, game);
    match PairRule(s3, game, suits)
    case None => s3
    case Some(s4) =>
      s4.(lastProcessedGameData := Some(PairData(game, group, suits)),
          recentGames := RecordRecentGame(s4.recentGames, game, group))
  }

  /** process_finalized_message: the state after one message of the source channel. */
  function Processed(s: State, text: string, forwarded: bool): State {
    if !IsMessageFinalized(text) then s
    else
      match ExtractGameNumber(text)
      case None => s
      case Some(game) =>
        var s1 := s.(currentGameNumber := game);
        var key := MessageKey(game, text);
        if key in s1.processedMessages then s1
        else
          var s2 := s1.(processedMessages := Remember(s1.processedMessages, key));
          var groups := ExtractParenthesesGroups(text);
          if |groups| < 1 then s2
          else HandleGame(s2, game, groups[0], forwarded)
  }

  lemma SuitsOfGroup(group: string)
    ensures (set x | x in GetSuitsInGroup(group)) <= SuitSet
  {
  }

  /** Handling a game keeps the invariant and records the game as the previous one of the next pair. */
  lemma HandleGameSpec(s: State, game: int, group: string, forwarded: bool)
    requires Invariant(s)
    ensures var r := HandleGame(s, game, group, forwarded);
      && Invariant(r)
      && r.currentGameNumber == game
      && r.lastProcessedGameData == Some(PairData(game, group, set x | x in GetSuitsInGroup(group)))
      && r.recentGames == RecordRecentGame(s.recentGames, game, group)
      && r.processedMessages == s.processedMessages
      && r.lastTransferredGame == if forwarded then Some(game) else s.lastTransferredGame
  {
    var suits := set x | x in GetSuitsInGroup(group);
    SuitsOfGroup(group);
    var s1 := if forwarded && s.lastTransferredGame != Some(game) then s.(lastTransferredGame := Some(game)) else s;
    SettledInvariant(s1, game, group, suits);
    var s4 := PairRule(Promoted(Resolved(s1, game, group).0, game), game, suits).value;
    RecordedInvariant(s4, game, group, suits);
  }

  /**
    Resolution, promotion and the paired rule, run in that order on a valid state,
    complete and keep the invariant; they set the current game and leave the
    caches and the transfer marker alone.
   */
  lemma SettledInvariant(s: State, game: int, group: string, suits: set<string>)
    requires Invariant(s) && suits <= SuitSet
    ensures var r := PairRule(Promoted(Resolved(s, game, group).0, game), game, suits);
      && r.Some? && Invariant(r.value)
      && r.value.currentGameNumber == game
      && r.value.recentGames == s.recentGames && r.value.processedMessages == s.processedMessages
      && r.value.lastTransferredGame == s.lastTransferredGame
  {
    ResolvedInvariant(s, game, group);
    var s2 := Resolved(s, game, group).0;
    PromotedInvariant(s2, game);
    var s3 := Promoted(s2, game);
    PairRuleInvariant(s3, game, suits);
  }

  /** Storing the pairing data and the recent game keeps the invariant. */
  lemma RecordedInvariant(s: State, game: int, group: string, suits: set<string>)
    requires Invariant(s) && suits <= SuitSet
    ensures Invariant(s.(lastProcessedGameData := Some(PairData(game, group, suits)),
                         recentGames := RecordRecentGame(s.recentGames, game, group)))
  {
    RecordRecentGameBound(s.recentGames, game, group);
  }

  /** A message that is still running (alarm clock) or carries neither outcome mark changes nothing. */
  lemma ProcessedIgnoresUnfinished(s: State, text: string, forwarded: bool)
    requires InProgressMark in text || (SuccessMark !in text && FinalMark !in text)
    ensures Processed(s, text, forwarded) == s
  {
  }

  /** A finalized message without a game number changes nothing. */
  lemma ProcessedIgnoresUnnumbered(s: State, text: string, forwarded: bool)
    requires ExtractGameNumber(text).None?
    ensures Processed(s, text, forwarded) == s
  {
  }

  /** A repeated message only moves current_game_number. */
  lemma ProcessedDuplicate(s: State, text: string, forwarded: bool, game: nat)
    requires IsMessageFinalized(text) && ExtractGameNumber(text) == Some(game)
    requires MessageKey(game, text) in s.processedMessages
    ensures Processed(s, text, forwarded) == s.(currentGameNumber := game)
  {
  }

  /** A new finalized message without a parenthesised group is remembered and otherwise ignored. */
  lemma ProcessedWithoutGroup(s: State, text: string, forwarded: bool, game: nat)
    requires IsMessageFinalized(text) && ExtractGameNumber(text) == Some(game)
    requires MessageKey(game, text) !in s.processedMessages
    requires ExtractParenthesesGroups(text) == []
    ensures Processed(s, text, forwarded) ==
      s.(currentGameNumber := game, processedMessages := Remember(s.processedMessages, MessageKey(game, text)))
  {
  }

  /** Every message keeps the invariant. */
  lemma ProcessedInvariant(s: State, text: string, forwarded: bool)
    requires Invariant(s)
    ensures Invariant(Processed(s, text, forwarded))
  {
    if IsMessageFinalized(text) && ExtractGameNumber(text).Some? {
      var game := ExtractGameNumber(text).value;
      var key := MessageKey(game, text);
      var s1 := s.(currentGameNumber := game);
      if key !in s1.processedMessages {
        var s2 := s1.(processedMessages := Remember(s1.processedMessages, key));
        var groups := ExtractParenthesesGroups(text);
        if |groups| >= 1 {
          HandleGameSpec(s2, game, groups[0], forwarded);
        }
      }
    }
  }

  /** A new finalized game with a group is handled in full and becomes the previous game of the next pair. */
  lemma ProcessedNewGame(s: State, text: string, forwarded: bool, game: nat)
    requires Invariant(s)
    requires IsMessageFinalized(text) && ExtractGameNumber(text) == Some(game)
    requires MessageKey(game, text) !in s.processedMessages
    requires |ExtractParenthesesGroups(text)| >= 1
    ensures var r := Processed(s, text, forwarded);
      var group := ExtractParenthesesGroups(text)[0];
      && r.currentGameNumber == game
      && r.lastProcessedGameData == Some(PairData(game, group, set x | x in GetSuitsInGroup(group)))
      && r.processedMessages == Remember(s.processedMessages, MessageKey(game, text))
      && (game in r.recentGames ==> r.recentGames[game] == group)
  {
    var key := MessageKey(game, text);
    var s2 := s.(currentGameNumber := game, processedMessages := Remember(s.processedMessages, key));
    var group := ExtractParenthesesGroups(text)[0];
    HandleGameSpec(s2, game, group, forwarded);
  }

  // ---------------------------------------------------------------------------
  // The scheduled resets

  /** The hourly reset: queue, active set, dedupe set, forward marker and pair memory are cleared. */
  function AfterHourlyReset(s: State): (r: State)
    ensures Invariant(s) ==> Invariant(r)
    ensures r.recentGames == s.recentGames && r.currentGameNumber == s.currentGameNumber
    ensures r.queued == map[] && r.pending == map[] && r.processedMessages == {}
    ensures r.lastTransferredGame.None? && r.lastProcessedGameData.None?
  {
    s.(queued := map[], pending := map[], processedMessages := {}, lastTransferredGame := None, lastProcessedGameData := None)
  }

  /** The daily reset at 00:59 WAT: everything returns to the start-up state. */
  function AfterDailyReset(s: State): (r: State)
    ensures Invariant(r)
    ensures r == InitialState()
  {
    InitialState()
  }

  /** Resetting twice is resetting once, and a daily reset subsumes an hourly one. */
  lemma ResetsIdempotent(s: State)
    ensures AfterHourlyReset(AfterHourlyReset(s)) == AfterHourlyReset(s)
    ensures AfterDailyReset(AfterHourlyReset(s)) == AfterDailyReset(s)
    ensures AfterHourlyReset(AfterDailyReset(s)) == AfterDailyReset(s)
  {
  }
}
