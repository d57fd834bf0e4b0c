/** GracefulDegradation: health indicators, their weighted score, and the automatic level changes. */
module Degradation {
  import opened Folds
  import opened Windows

  datatype Level = Normal | Reduced | Minimal | Emergency {
    function Rank(): nat { match this case Normal => 0 case Reduced => 1 case Minimal => 2 case Emergency => 3 }
  }

  datatype Trend = Stable | Improving | Degrading | Critical

  datatype Indicator = Indicator(value: real, threshold: real, critical: bool, trend: Trend)

  type Board = map<string, Indicator>

  function Updated(i: Indicator, value: real): Indicator {
    var trend := if value > i.value * 1.1 then Degrading else if value < i.value * 0.9 then Improving else Stable;
    if value >= i.threshold then Indicator(value, i.threshold, true, Critical)
    else Indicator(value, i.threshold, false, trend)
  }

  function Update(board: Board, name: string, value: real): Board {
    if name in board then board[name := Updated(board[name], value)] else board
  }

  /** What an update tells: the flag and the trend from the new value, the threshold and the old value. */
  lemma UpdatedIs(i: Indicator, value: real)
    ensures Updated(i, value).value == value && Updated(i, value).threshold == i.threshold
    ensures Updated(i, value).critical <==> value >= i.threshold
    ensures Updated(i, value).trend == Critical <==> value >= i.threshold
    ensures i.value > 0.0 && value < i.threshold ==>
              && (Updated(i, value).trend == Degrading <==> 10.0 * value > 11.0 * i.value)
              && (Updated(i, value).trend == Improving <==> 10.0 * value < 9.0 * i.value)
  {
  }

  /** The critical flag tells whether the threshold is reached. */
  ghost predicate Flagged(board: Board) {
    forall k :: k in board ==> (board[k].critical <==> board[k].value >= board[k].threshold)
  }

  /** The five registered indicators; no others are ever added. */
  function InitialBoard(): Board {
    map["error_rate" := Indicator(0.0, 0.10, false, Stable),
        "response_time" := Indicator(0.0, 5.0, false, Stable),
        "docker_connectivity" := Indicator(0.0, 0.5, false, Stable),
        "resource_usage" := Indicator(0.0, 0.8, false, Stable),
        "circuit_breaker_health" := Indicator(0.0, 0.5, false, Stable)]
  }

  // The weighted score. The map is visited in an unspecified order.

  function Score(i: Indicator): real {
    if i.value <= i.threshold then 1.0
    else if i.threshold * 2.0 <= 0.0 then 0.0
    else
      var degradation := (i.value - i.threshold) / (i.threshold * 2.0);
      1.0 - if degradation > 1.0 then 1.0 else degradation
  }

  function Weight(i: Indicator): real { if i.critical then 2.0 else 1.0 }

  ghost predicate Visits(board: Board, order: seq<string>) {
    (forall k :: k in order <==> k in board) && Distinct(order)
  }

  ghost function Weighted(board: Board): string -> real {
    (k: string) => if k in board then Score(board[k]) * Weight(board[k]) else 0.0
  }

  ghost function Weighing(board: Board): string -> real {
    (k: string) => if k in board then Weight(board[k]) else 1.0
  }

  /** The weighted mean of the indicator scores. */
  ghost function Health(board: Board, order: seq<string>): real {
    if order == [] || Sum(Weighing(board), order) == 0.0 then 1.0
    else Sum(Weighted(board), order) / Sum(Weighing(board), order)
  }

  lemma ScoreRange(i: Indicator)
    ensures 0.0 <= Score(i) <= 1.0
  {
    if i.value > i.threshold && i.threshold * 2.0 > 0.0 {
      Positive(i.value - i.threshold, i.threshold * 2.0);
    }
  }

  lemma Positive(x: real, y: real)
    requires x >= 0.0 && y > 0.0
    ensures x / y >= 0.0
  {
  }

  lemma {:induction false} SumsRange(board: Board, order: seq<string>)
    ensures 0.0 <= Sum(Weighted(board), order) <= Sum(Weighing(board), order)
    ensures order != [] ==> Sum(Weighing(board), order) >= 1.0
  {
    if order != [] {
      SumsRange(board, order[1..]);
      if order[0] in board {
        ScoreRange(board[order[0]]);
      }
    }
  }

  /** The score lies in [0, 1] and is the same for every order the map is visited in. */
  lemma HealthInRange(board: Board, p: seq<string>, q: seq<string>)
    requires Visits(board, p) && Visits(board, q)
    ensures 0.0 <= Health(board, p) <= 1.0 && Health(board, p) == Health(board, q)
  {
    ListingsPermute(p, q);
    SumPermute(Weighted(board), p, q);
    SumPermute(Weighing(board), p, q);
    SumsRange(board, p);
    assert p == [] <==> q == [] by { assert |multiset(p)| == |multiset(q)|; }
    if p != [] {
      Ratio(Sum(Weighted(board), p), Sum(Weighing(board), p));
    }
  }

  lemma Ratio(x: real, y: real)
    requires 0.0 <= x <= y && y > 0.0
    ensures 0.0 <= x / y <= 1.0
  {
  }

  // The level.

  predicate Healthy(i: Indicator) { !i.critical && i.value < i.threshold }

  predicate AllHealthy(board: Board) { forall k :: k in board ==> Healthy(board[k]) }

  predicate EssentialsHealthy(board: Board) {
    forall k :: k in {"docker_connectivity", "error_rate"} && k in board ==> Healthy(board[k])
  }

  function LevelAt(score: real, board: Board): Level {
    if score >= 0.8 && AllHealthy(board) then Normal
    else if score >= 0.6 && EssentialsHealthy(board) then Reduced
    else if score >= 0.3 then Minimal
    else Emergency
  }

  /** The level is NORMAL exactly when every indicator is below its threshold. */
  lemma NormalExactly(board: Board, order: seq<string>)
    requires Flagged(board) && Visits(board, order)
    ensures LevelAt(Health(board, order), board) == Normal <==>
            forall k :: k in board ==> board[k].value < board[k].threshold
  {
    if forall k :: k in board ==> board[k].value < board[k].threshold {
      SumEqual(Weighted(board), Weighing(board), order);
      SumsRange(board, order);
    }
  }

  /** The two mild levels need both essential indicators below their thresholds, and a better score never gives
      a worse level. */
  lemma LevelOrder(board: Board, score: real, better: real)
    requires score <= better
    ensures LevelAt(better, board).Rank() <= LevelAt(score, board).Rank()
    ensures LevelAt(score, board).Rank() <= 1 ==>
              && ("docker_connectivity" in board ==> Healthy(board["docker_connectivity"]))
              && ("error_rate" in board ==> Healthy(board["error_rate"]))
    ensures LevelAt(score, board) == Emergency <==> score < 0.3
  {
  }

  /** REDUCED is called for exactly when some indicator has reached its threshold, the essential ones have not, and the
      score is at least 0.6; MINIMAL for any other score of at least 0.3. */
  lemma ReducedExactly(board: Board, order: seq<string>)
    requires Flagged(board) && Visits(board, order)
    ensures var score := Health(board, order);
            var level := LevelAt(score, board);
            var reached := exists k :: k in board && board[k].value >= board[k].threshold;
            var essential :=
              || ("docker_connectivity" in board
                  && board["docker_connectivity"].value >= board["docker_connectivity"].threshold)
              || ("error_rate" in board && board["error_rate"].value >= board["error_rate"].threshold);
            && (level == Reduced <==> score >= 0.6 && reached && !essential)
            && (level == Minimal <==> score >= 0.3 && reached && (score < 0.6 || essential))
  {
    NormalExactly(board, order);
    LevelOrder(board, Health(board, order), Health(board, order));
    if !(exists k :: k in board && board[k].value >= board[k].threshold) {
      assert forall k :: k in board ==> board[k].value < board[k].threshold;
    }
  }

  lemma ScoreAntitone(i: Indicator, j: Indicator)
    requires i.threshold == j.threshold && i.value <= j.value
    ensures Score(j) <= Score(i)
  {
    ScoreRange(i);
    ScoreRange(j);
    if i.threshold * 2.0 > 0.0 && i.value > i.threshold {
      var d := i.threshold * 2.0;
      Positive(j.value - i.value, d);
      assert (j.value - i.threshold) / d == (i.value - i.threshold) / d + (j.value - i.value) / d;
    }
  }

  /** A worse value of one indicator lowers the score, as long as it does not cross the threshold. */
  lemma WorseWithoutCrossing(board: Board, order: seq<string>, name: string, value: real)
    requires Flagged(board) && Visits(board, order) && name in board && board[name].value <= value
    requires board[name].value >= board[name].threshold <==> value >= board[name].threshold
    ensures Visits(Update(board, name, value), order)
    ensures Health(Update(board, name, value), order) <= Health(board, order)
  {
    var next := Update(board, name, value);
    assert next.Keys == board.Keys;
    ScoreAntitone(board[name], next[name]);
    SumOrdered(Weighted(next), Weighted(board), order);
    SumEqual(Weighing(next), Weighing(board), order);
    SumsRange(board, order);
    if order != [] {
      Smaller(Sum(Weighted(next), order), Sum(Weighted(board), order), Sum(Weighing(board), order));
    }
  }

  lemma Smaller(x: real, y: real, w: real)
    requires x <= y && w > 0.0
    ensures x / w <= y / w
  {
  }

  /** What the score of an indicator with a positive threshold measures: full up to the threshold, nil from three
      times the threshold on, and between them equal steps of the value cost equal amounts. Without a positive
      threshold every value above it scores nil. */
  lemma ScoreIsLinear(i: Indicator, j: Indicator)
    requires i.threshold == j.threshold
    ensures i.value <= i.threshold ==> Score(i) == 1.0
    ensures i.threshold <= 0.0 && i.value > i.threshold ==> Score(i) == 0.0
    ensures i.threshold > 0.0 ==>
              && (Score(i) == 1.0 <==> i.value <= i.threshold)
              && (Score(i) == 0.0 <==> i.value >= 3.0 * i.threshold)
              && (i.threshold <= i.value <= 3.0 * i.threshold && i.threshold <= j.value <= 3.0 * i.threshold ==>
                    (Score(i) - Score(j)) * (2.0 * i.threshold) == j.value - i.value)
  {
    if i.threshold > 0.0 {
      LossIs(i);
      LossIs(j);
    }
  }

  lemma LossIs(i: Indicator)
    requires i.threshold > 0.0
    ensures i.threshold <= i.value <= 3.0 * i.threshold ==>
              (1.0 - Score(i)) * (2.0 * i.threshold) == i.value - i.threshold
    ensures i.value >= 3.0 * i.threshold ==> Score(i) == 0.0
    ensures i.threshold < i.value < 3.0 * i.threshold ==> 0.0 < Score(i) < 1.0
  {
    if i.value > i.threshold {
      var d := (i.value - i.threshold) / (i.threshold * 2.0);
      assert d * (i.threshold * 2.0) == i.value - i.threshold;
      Against(d, i.threshold * 2.0);
    }
  }

  /** A quotient against one, by its product. */
  lemma Against(d: real, w: real)
    requires w > 0.0
    ensures d > 1.0 <==> d * w > w
    ensures d < 1.0 <==> d * w < w
    ensures d > 0.0 <==> d * w > 0.0
  {
    Scaled(d, 1.0, w);
    Scaled(1.0, d, w);
    Scaled(d, 0.0, w);
  }

  // Crossing the threshold can raise the score, because reaching it doubles the weight of an indicator.

  /** The other indicators' weighted scores and weights. */
  ghost function OtherScores(board: Board, order: seq<string>, i: nat): real
    requires i < |order|
  {
    Sum(Weighted(board), order[..i] + order[i + 1..])
  }

  ghost function OtherWeights(board: Board, order: seq<string>, i: nat): real
    requires i < |order|
  {
    Sum(Weighing(board), order[..i] + order[i + 1..])
  }

  lemma OthersKept(board: Board, order: seq<string>, i: nat, value: real)
    requires Visits(board, order) && i < |order|
    ensures OtherScores(Update(board, order[i], value), order, i) == OtherScores(board, order, i)
    ensures OtherWeights(Update(board, order[i], value), order, i) == OtherWeights(board, order, i)
  {
    var next, rest := Update(board, order[i], value), order[..i] + order[i + 1..];
    forall j | 0 <= j < |rest| ensures rest[j] != order[i] {
      assert rest[j] == if j < i then order[j] else order[j + 1];
    }
    SumEqual(Weighted(next), Weighted(board), rest);
    SumEqual(Weighing(next), Weighing(board), rest);
  }

  lemma HealthSplit(board: Board, order: seq<string>, i: nat)
    requires Visits(board, order) && i < |order|
    ensures board.Keys != {} && order[i] in board && OtherWeights(board, order, i) >= 0.0
    ensures Weight(board[order[i]]) > 0.0
    ensures Health(board, order) ==
              Mean(OtherScores(board, order, i), OtherWeights(board, order, i),
                   Score(board[order[i]]), Weight(board[order[i]]))
  {
    assert order[i] in order;
    SumDrop(Weighted(board), order, i);
    SumDrop(Weighing(board), order, i);
    SumsRange(board, order[..i] + order[i + 1..]);
  }

  /** The mean of the others, at a over b, and one more score s of weight w. */
  ghost function Mean(a: real, b: real, s: real, w: real): real
    requires b >= 0.0 && w > 0.0
  {
    (a + s * w) / (b + w)
  }

  /** A score s of double weight against a full score of single weight, without the divisions. */
  lemma HeavierMean(a: real, b: real, s: real)
    requires b >= 0.0
    ensures Mean(a, b, s, 2.0) > Mean(a, b, 1.0, 1.0) <==> 2.0 * s * (b + 1.0) > a + b + 2.0
  {
    var p, q := (a + s * 2.0) / (b + 2.0), (a + 1.0) / (b + 1.0);
    assert p * (b + 2.0) == a + s * 2.0 && q * (b + 1.0) == a + 1.0;
    var d := (b + 2.0) * (b + 1.0);
    assert d > 0.0;
    assert p * d == (p * (b + 2.0)) * (b + 1.0) && q * d == (q * (b + 1.0)) * (b + 2.0);
    assert p * d - q * d == 2.0 * s * (b + 1.0) - (a + b + 2.0);
    Scaled(p, q, d);
  }

  lemma Scaled(p: real, q: real, d: real)
    requires d > 0.0
    ensures p > q <==> p * d > q * d
  {
    if p > q {
      assert (p - q) * d > 0.0;
    } else {
      assert (q - p) * d >= 0.0;
    }
  }

  /** A worse value of one indicator raises the score exactly when it crosses the threshold from below and its own
      new score s satisfies 2 s (W + 1) > S + W + 2, for S and W the other indicators' scores and weights. */
  lemma WorseningRaisesExactly(board: Board, order: seq<string>, i: nat, value: real)
    requires Flagged(board) && Visits(board, order) && i < |order| && board[order[i]].value <= value
    ensures var name, next := order[i], Update(board, order[i], value);
            var a, b := OtherScores(board, order, i), OtherWeights(board, order, i);
            Health(next, order) > Health(board, order) <==>
              && board[name].value < board[name].threshold <= value
              && 2.0 * Score(next[name]) * (b + 1.0) > a + b + 2.0
  {
    if board[order[i]].value < board[order[i]].threshold <= value {
      CrossingRaisesExactly(board, order, i, value);
    } else {
      WorseWithoutCrossing(board, order, order[i], value);
    }
  }

  /** The score while indicator i is below its threshold... */
  lemma HealthBelow(board: Board, order: seq<string>, i: nat)
    requires Flagged(board) && Visits(board, order) && i < |order| && board[order[i]].value < board[order[i]].threshold
    ensures OtherWeights(board, order, i) >= 0.0
    ensures Health(board, order) == Mean(OtherScores(board, order, i), OtherWeights(board, order, i), 1.0, 1.0)
  {
    HealthSplit(board, order, i);
  }

  /** ... and when it has reached it. */
  lemma HealthReached(board: Board, order: seq<string>, i: nat, value: real)
    requires Flagged(board) && Visits(board, order) && i < |order| && board[order[i]].threshold <= value
    ensures OtherWeights(board, order, i) >= 0.0
    ensures var next := Update(board, order[i], value);
            Health(next, order)
              == Mean(OtherScores(board, order, i), OtherWeights(board, order, i), Score(next[order[i]]), 2.0)
  {
    var next := Update(board, order[i], value);
    assert next.Keys == board.Keys;
    HealthSplit(next, order, i);
    OthersKept(board, order, i, value);
  }

  lemma CrossingRaisesExactly(board: Board, order: seq<string>, i: nat, value: real)
    requires Flagged(board) && Visits(board, order) && i < |order|
    requires board[order[i]].value < board[order[i]].threshold <= value
    ensures var next := Update(board, order[i], value);
            var a, b := OtherScores(board, order, i), OtherWeights(board, order, i);
            Health(next, order) > Health(board, order) <==> 2.0 * Score(next[order[i]]) * (b + 1.0) > a + b + 2.0
  {
    HealthBelow(board, order, i);
    HealthReached(board, order, i, value);
    HeavierMean(OtherScores(board, order, i), OtherWeights(board, order, i),
                Score(Update(board, order[i], value)[order[i]]));
  }

  lemma ScoreFull(i: Indicator)
    ensures Score(i) < 1.0 <==> i.value > i.threshold
  {
    if i.value > i.threshold && i.threshold * 2.0 > 0.0 {
      var d := (i.value - i.threshold) / (i.threshold * 2.0);
      assert d * (i.threshold * 2.0) == i.value - i.threshold;
      assert d > 0.0;
    }
  }

  lemma {:induction false} FullExactly(board: Board, names: seq<string>)
    requires forall k :: k in names ==> k in board
    ensures Sum(Weighted(board), names) < Sum(Weighing(board), names)
            <==> exists k :: k in names && board[k].value > board[k].threshold
  {
    if names != [] {
      assert forall k :: k in names <==> k == names[0] || k in names[1..];
      FullExactly(board, names[1..]);
      SumsRange(board, names[1..]);
      ScoreFull(board[names[0]]);
      ScoreRange(board[names[0]]);
    }
  }

  /** An indicator that only just reaches its threshold raises the score exactly when another one is above its
      own. */
  lemma ReachingRaisesExactly(board: Board, order: seq<string>, i: nat)
    requires Flagged(board) && Visits(board, order) && i < |order|
    requires board[order[i]].value < board[order[i]].threshold
    ensures Health(Update(board, order[i], board[order[i]].threshold), order) > Health(board, order) <==>
              exists k :: k in board && k != order[i] && board[k].value > board[k].threshold
  {
    var name, rest := order[i], order[..i] + order[i + 1..];
    WorseningRaisesExactly(board, order, i, board[name].threshold);
    RestOfListing(order, i);
    FullExactly(board, rest);
    assert (exists k :: k in rest && board[k].value > board[k].threshold) <==>
           exists k :: k in board && k != name && board[k].value > board[k].threshold;
  }

  lemma RestOfListing(order: seq<string>, i: nat)
    requires i < |order| && Distinct(order)
    ensures forall k :: k in order[..i] + order[i + 1..] <==> k in order && k != order[i]
  {
    var rest := order[..i] + order[i + 1..];
    forall k ensures k in rest <==> k in order && k != order[i] {
      if k in rest {
        var j :| 0 <= j < |rest| && rest[j] == k;
        assert rest[j] == if j < i then order[j] else order[j + 1];
      }
      if k in order && k != order[i] {
        var j :| 0 <= j < |order| && order[j] == k;
        assert rest[if j < i then j else j - 1] == k;
      }
    }
  }

  /** The registered indicators after three of them went to three times their thresholds. */
  ghost function Failing(): Board {
    Update(Update(Update(InitialBoard(), "response_time", 15.0), "resource_usage", 2.4), "circuit_breaker_health", 1.5)
  }

  /** There, an indicator that gets worse lifts the level from EMERGENCY to MINIMAL. */
  lemma WorseningLifts(order: seq<string>)
    requires Visits(Failing(), order)
    ensures var board := Failing();
            var worse := Update(board, "docker_connectivity", 0.5);
            && Visits(worse, order)
            && LevelAt(Health(board, order), board) == Emergency
            && LevelAt(Health(worse, order), worse) == Minimal
  {
    var board := Failing();
    var worse := Update(board, "docker_connectivity", 0.5);
    assert board.Keys == worse.Keys == InitialBoard().Keys;
    HealthOfFive(board, order, 2.0, 8.0);
    HealthOfFive(worse, order, 3.0, 9.0);
  }

  const NAMES: seq<string> :=
    ["error_rate", "docker_connectivity", "response_time", "resource_usage", "circuit_breaker_health"]

  lemma HealthOfFive(board: Board, order: seq<string>, scores: real, weights: real)
    requires Visits(board, order) && board.Keys == InitialBoard().Keys && weights > 0.0
    requires var f := Weighted(board); scores == f(NAMES[0]) + f(NAMES[1]) + f(NAMES[2]) + f(NAMES[3]) + f(NAMES[4])
    requires var g := Weighing(board); weights == g(NAMES[0]) + g(NAMES[1]) + g(NAMES[2]) + g(NAMES[3]) + g(NAMES[4])
    ensures Health(board, order) == scores / weights
  {
    NamesListed(board);
    HealthInRange(board, order, NAMES);
    SumFive(Weighted(board), NAMES);
    SumFive(Weighing(board), NAMES);
  }

  lemma NamesListed(board: Board)
    requires board.Keys == InitialBoard().Keys
    ensures Visits(board, NAMES)
  {
    assert |NAMES[0]| == 10 && |NAMES[1]| == 19 && |NAMES[2]| == 13 && |NAMES[3]| == 14 && |NAMES[4]| == 22;
    assert NAMES[0] in NAMES && NAMES[1] in NAMES && NAMES[2] in NAMES && NAMES[3] in NAMES && NAMES[4] in NAMES;
  }

  lemma SumFive(f: string -> real, xs: seq<string>)
    requires |xs| == 5
    ensures Sum(f, xs) == f(xs[0]) + f(xs[1]) + f(xs[2]) + f(xs[3]) + f(xs[4])
  {
    assert Sum(f, xs[5..]) == 0.0;
    assert xs[4..][1..] == xs[5..] && xs[3..][1..] == xs[4..] && xs[2..][1..] == xs[3..] && xs[1..][1..] == xs[2..];
    assert Sum(f, xs[4..]) == f(xs[4]);
    assert Sum(f, xs[3..]) == f(xs[3]) + Sum(f, xs[4..]);
    assert Sum(f, xs[2..]) == f(xs[2]) + Sum(f, xs[3..]);
    assert Sum(f, xs[1..]) == f(xs[1]) + Sum(f, xs[2..]);
  }

  // Level changes over a run.

  const MAX_HISTORY: nat := 100

  datatype Transition = Transition(from: Level, to: Level, at: int)

  /** Any two changes are at least `gap` apart, and each starts where the one before ended. */
  ghost predicate Spaced(changes: seq<Transition>, gap: int) {
    forall i, j :: 0 <= i < j < |changes| ==>
      changes[i].at + gap <= changes[j].at && (j == i + 1 ==> changes[i].to == changes[j].from)
  }

  /** Changes for the worse. */
  ghost function Worsenings(changes: seq<Transition>): nat {
    if changes == [] then 0
    else Worsenings(changes[..|changes| - 1]) + Worse(changes[|changes| - 1].from, changes[|changes| - 1].to)
  }

  /** Level changes are at least `gap` apart, counted from creation, and lead to the current level. */
  ghost predicate Chronicle(changes: seq<Transition>, gap: int, created: int, last: int, level: Level) {
    && gap > 0 && Spaced(changes, gap)
    && (changes == [] ==> last == created)
    && (changes != [] ==>
          && changes[0].at >= created + gap
          && changes[|changes| - 1].at == last && changes[|changes| - 1].to == level)
  }

  ghost function Between(from: Level, to: Level): Transition -> int {
    (t: Transition) => if t.from == from && t.to == to then 1 else 0
  }

  function Count(counts: map<(Level, Level), nat>, from: Level, to: Level): nat {
    if (from, to) in counts then counts[(from, to)] else 0
  }

  /** The history keeps the last hundred changes, AutoRecoveries counts the changes for the worse, and the counts
      per pair of levels are those of all changes. */
  ghost predicate Recorded(changes: seq<Transition>, history: seq<Transition>, recoveries: nat,
                           counts: map<(Level, Level), nat>) {
    && history == Last(changes, MAX_HISTORY) && recoveries == Worsenings(changes)
    && forall from, to :: Count(counts, from, to) == Total(Between(from, to), changes)
  }

  ghost function Worse(from: Level, to: Level): nat { if to.Rank() > from.Rank() then 1 else 0 }

  lemma ChangeKeepsSpacing(changes: seq<Transition>, gap: int, created: int, last: int, level: Level, next: Level,
                           now: int)
    requires Chronicle(changes, gap, created, last, level) && now - last >= gap
    ensures Chronicle(changes + [Transition(level, next, now)], gap, created, now, next)
  {
  }

  function Counted(counts: map<(Level, Level), nat>, t: Transition): map<(Level, Level), nat> {
    counts[(t.from, t.to) := Count(counts, t.from, t.to) + 1]
  }

  lemma ChangeKeepsRecord(changes: seq<Transition>, history: seq<Transition>, recoveries: nat,
                          counts: map<(Level, Level), nat>, t: Transition)
    requires Recorded(changes, history, recoveries, counts)
    ensures Recorded(changes + [t], Last(history + [t], MAX_HISTORY), recoveries + Worse(t.from, t.to),
                     Counted(counts, t))
  {
    assert (changes + [t])[..|changes|] == changes;
    LastTrims(changes, MAX_HISTORY, t);
    forall from, to ensures Count(Counted(counts, t), from, to) == Total(Between(from, to), changes + [t]) {
      TotalSnoc(Between(from, to), changes, t);
    }
  }

  class GracefulDegradation {
    const stabilityPeriod: int
    var currentLevel: Level
    var lastLevelChange: int
    var healthIndicators: Board
    var levelHistory: seq<Transition>
    var autoRecoveries: nat
    var transitionsCount: map<(Level, Level), nat>
    ghost const created: int
    ghost var changes: seq<Transition>

    ghost predicate Valid()
      reads this
    {
      && Flagged(healthIndicators)
      && Chronicle(changes, stabilityPeriod, created, lastLevelChange, currentLevel)
      && Recorded(changes, levelHistory, autoRecoveries, transitionsCount)
    }

    /** No override is set: SetManualLevel is not part of this model. */
    constructor (period: int, level: Level, now: int)
      ensures Valid() && currentLevel == level && healthIndicators == InitialBoard() && changes == [] && created == now
      ensures stabilityPeriod == if period > 0 then period else 300_000_000_000
      ensures forall k :: k in healthIndicators <==> k in NAMES
      ensures forall k :: k in healthIndicators ==> healthIndicators[k].value == 0.0 && !healthIndicators[k].critical
      ensures healthIndicators["error_rate"].threshold == 0.1 && healthIndicators["response_time"].threshold == 5.0
      ensures healthIndicators["docker_connectivity"].threshold == 0.5
      ensures healthIndicators["resource_usage"].threshold == 0.8
      ensures healthIndicators["circuit_breaker_health"].threshold == 0.5
    {
      stabilityPeriod := if period <= 0 then 300_000_000_000 else period;
      currentLevel, lastLevelChange, healthIndicators := level, now, InitialBoard();
      levelHistory, autoRecoveries, transitionsCount, created, changes := [], 0, map[], now, [];
    }

    method UpdateHealthIndicator(name: string, value: real)
      requires Valid()
      modifies `healthIndicators
      ensures Valid() && healthIndicators == Update(old(healthIndicators), name, value)
    {
      if name !in healthIndicators { return; }
      var indicator := healthIndicators[name];
      var trend := Stable;
      if value > indicator.value * 1.1 {
        trend := Degrading;
      } else if value < indicator.value * 0.9 {
        trend := Improving;
      }
      var critical := value >= indicator.threshold;
      if critical { trend := Critical; }
      healthIndicators := healthIndicators[name := Indicator(value, indicator.threshold, critical, trend)];
    }

    method CalculateHealthScore(order: seq<string>) returns (score: real)
      requires Visits(healthIndicators, order)
      ensures score == Health(healthIndicators, order) && 0.0 <= score <= 1.0
    {
      HealthInRange(healthIndicators, order, order);
      if |order| == 0 { return 1.0; }
      var totalScore, totalWeight := 0.0, 0.0;
      for i := 0 to |order|
        invariant totalScore + Sum(Weighted(healthIndicators), order[i..]) == Sum(Weighted(healthIndicators), order)
        invariant totalWeight + Sum(Weighing(healthIndicators), order[i..]) == Sum(Weighing(healthIndicators), order)
      {
        var indicator := healthIndicators[order[i]];
        assert order[i..][1..] == order[i + 1..];
        totalScore := totalScore + Score(indicator) * Weight(indicator);
        totalWeight := totalWeight + Weight(indicator);
      }
      SumsRange(healthIndicators, order);
      score := totalScore / totalWeight;
    }

    /** The level changes exactly when another one is called for and StabilityPeriod has passed since the last
        change; then it becomes the one called for. */
    method PerformHealthCheck(now: int, order: seq<string>)
      requires Valid() && Visits(healthIndicators, order)
      modifies this
      ensures Valid() && healthIndicators == old(healthIndicators)
      ensures var wanted := LevelAt(Health(healthIndicators, order), healthIndicators);
              if wanted != old(currentLevel) && now - old(lastLevelChange) >= stabilityPeriod
              then currentLevel == wanted && changes == old(changes) + [Transition(old(currentLevel), wanted, now)]
              else currentLevel == old(currentLevel) && changes == old(changes)
    {
      var score := CalculateHealthScore(order);
      var appropriate := LevelAt(score, healthIndicators);
      if appropriate != currentLevel {
        if now - lastLevelChange < stabilityPeriod { return; }
        ChangeKeepsSpacing(changes, stabilityPeriod, created, lastLevelChange, currentLevel, appropriate, now);
        var t := Transition(currentLevel, appropriate, now);
        ChangeKeepsRecord(changes, levelHistory, autoRecoveries, transitionsCount, t);
        ChangeDegradationLevel(appropriate, now);
      }
    }

    method ChangeDegradationLevel(level: Level, now: int)
      modifies `currentLevel, `lastLevelChange, `levelHistory, `autoRecoveries, `transitionsCount, `changes
      ensures currentLevel == level && lastLevelChange == now
      ensures autoRecoveries == old(autoRecoveries) + Worse(old(currentLevel), level)
      ensures autoRecoveries > old(autoRecoveries) <==>
                (old(currentLevel), level) in {(Normal, Reduced), (Normal, Minimal), (Normal, Emergency),
                                               (Reduced, Minimal), (Reduced, Emergency), (Minimal, Emergency)}
      ensures levelHistory == Last(old(levelHistory) + [Transition(old(currentLevel), level, now)], MAX_HISTORY)
      ensures transitionsCount == Counted(old(transitionsCount), Transition(old(currentLevel), level, now))
      ensures changes == old(changes) + [Transition(old(currentLevel), level, now)]
    {
      var oldLevel := currentLevel;
      currentLevel := level;
      lastLevelChange := now;
      RecordTransition(Transition(oldLevel, level, now));
      changes := changes + [Transition(oldLevel, level, now)];
      if level.Rank() > oldLevel.Rank() {
        autoRecoveries := autoRecoveries + 1;
      }
    }

    method RecordTransition(t: Transition)
      modifies `levelHistory, `transitionsCount
      ensures levelHistory == Last(old(levelHistory) + [t], 100)
      ensures transitionsCount == Counted(old(transitionsCount), t)
    {
      levelHistory := levelHistory + [t];
      if |levelHistory| > MAX_HISTORY {
        levelHistory := levelHistory[|levelHistory| - MAX_HISTORY..];
      }
      transitionsCount := Counted(transitionsCount, t);
    }
  }
}
