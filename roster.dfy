/** The player roster of the score tracker: the `Player` and `HistoryEntry` records and the
    operations that compute a new roster from the old one (`addScore`, `updatePlayerName`,
    `resetGame`, the custom-score check, and the rebuild that runs when the player count changes). */
module Roster {
  import opened Wrappers
  import opened Numbers

  /** The `type` of a history entry: the direction the user asked for. */
  datatype Kind = Add | Subtract

  /** One score change; `timestamp` is the locale time string taken when it was made. */
  datatype HistoryEntry = HistoryEntry(points: int, timestamp: string, kind: Kind)

  datatype Player = Player(id: int, name: string, score: int, history: seq<HistoryEntry>)

  /** The label a player gets when its name is empty: `Joueur ${id}`. */
  function DefaultName(id: int): (s: string)
    ensures |s| > 7 && s[..7] == "Joueur " && s[7..] == IntToString(id)
  {
    "Joueur " + IntToString(id)
  }

  /** The label's numeral is the id itself: `parseInt` reads it back from what follows `Joueur `. */
  lemma DefaultNameNumeral(id: int)
    ensures ParseInt(DefaultName(id)[7..]) == Some(id)
  {
    ParseIntRoundTrip(id);
  }

  predicate AllNonNegative(players: seq<Player>) {
    forall k :: 0 <= k < |players| ==> players[k].score >= 0
  }

  /** The roster the setup screen keeps: ids 1..n in order, no empty name. */
  predicate WellFormed(players: seq<Player>) {
    forall k :: 0 <= k < |players| ==> players[k].id == k + 1 && players[k].name != ""
  }

  /** Players with the same ids in the same order. */
  predicate SameIds(a: seq<Player>, b: seq<Player>) {
    |a| == |b| && forall k :: 0 <= k < |a| ==> a[k].id == b[k].id
  }

  // ---------------------------------------------------------------- addScore

  /** `actualPoints`: the magnitude of `points`, negated for a subtraction. */
  function SignedPoints(points: int, isSubtraction: bool): (d: int)
    ensures d == points || d == -points
    ensures if isSubtraction then d <= 0 else d >= 0
  {
    var magnitude := if points < 0 then -points else points;
    if isSubtraction then -magnitude else magnitude
  }

  /** `Math.max(0, score + delta)`: the least non-negative integer not below `score + delta`. */
  function ClampedSum(score: int, delta: int): (r: int)
    ensures r >= 0 && r >= score + delta
    ensures r == score + delta || r == 0
  {
    if score + delta < 0 then 0 else score + delta
  }

  function EntryFor(points: int, isSubtraction: bool, timestamp: string): HistoryEntry {
    HistoryEntry(SignedPoints(points, isSubtraction), timestamp, if isSubtraction then Subtract else Add)
  }

  /** `addScore(playerId, points, isSubtraction)`: every player with that id gets the clamped
      score and one more history entry holding the unclamped delta; the others are untouched. */
  function AddScore(players: seq<Player>, id: int, points: int, isSubtraction: bool, timestamp: string): (r: seq<Player>)
    ensures SameIds(players, r)
    ensures forall k :: 0 <= k < |r| && players[k].id != id ==> r[k] == players[k]
    ensures forall k :: 0 <= k < |r| && players[k].id == id ==>
      && r[k].name == players[k].name
      && r[k].score == ClampedSum(players[k].score, SignedPoints(points, isSubtraction))
      && r[k].history == players[k].history + [EntryFor(points, isSubtraction, timestamp)]
  {
    seq(|players|, k requires 0 <= k < |players| =>
      var p := players[k];
      if p.id == id then
        p.(score := ClampedSum(p.score, SignedPoints(points, isSubtraction)),
           history := p.history + [EntryFor(points, isSubtraction, timestamp)])
      else p)
  }

  /** After `addScore` the target's score is non-negative whatever it was, the entry records the
      requested direction, and the clamp never moves the score against that direction. */
  lemma AddScoreTarget(players: seq<Player>, id: int, points: int, isSubtraction: bool, timestamp: string, k: int)
    requires 0 <= k < |players| && players[k].id == id
    requires players[k].score >= 0
    ensures var r := AddScore(players, id, points, isSubtraction, timestamp);
      && r[k].score >= 0
      && (isSubtraction ==> r[k].score <= players[k].score)
      && (!isSubtraction ==> r[k].score == players[k].score + (if points < 0 then -points else points))
      && r[k].history[|players[k].history|].kind == (if isSubtraction then Subtract else Add)
      && r[k].history[|players[k].history|].points == (if isSubtraction then -1 else 1) * (if points < 0 then -points else points)
  {
  }

  /** One score button or custom entry, as the roster sees it. */
  datatype ScoreAction = ScoreAction(id: int, points: int, isSubtraction: bool, timestamp: string)

  function ApplyActions(players: seq<Player>, actions: seq<ScoreAction>): seq<Player>
    decreases |actions|
  {
    if |actions| == 0 then players
    else
      var a := actions[0];
      ApplyActions(AddScore(players, a.id, a.points, a.isSubtraction, a.timestamp), actions[1..])
  }

  /** The clamp invariant: no sequence of `addScore` calls makes a score negative, and none
      changes the ids or the number of players. */
  lemma {:induction false} ApplyActionsKeepsScoresNonNegative(players: seq<Player>, actions: seq<ScoreAction>)
    requires AllNonNegative(players)
    ensures AllNonNegative(ApplyActions(players, actions))
    ensures SameIds(players, ApplyActions(players, actions))
    decreases |actions|
  {
    if |actions| > 0 {
      var a := actions[0];
      var next := AddScore(players, a.id, a.points, a.isSubtraction, a.timestamp);
      ApplyActionsKeepsScoresNonNegative(next, actions[1..]);
    }
  }

  /** Every `addScore` on a player adds exactly one history entry, so the history of a player
      is as long as the number of actions addressed to its id. */
  function CountFor(actions: seq<ScoreAction>, id: int): nat
    decreases |actions|
  {
    if |actions| == 0 then 0 else (if actions[0].id == id then 1 else 0) + CountFor(actions[1..], id)
  }

  lemma {:induction false} ApplyActionsHistoryLength(players: seq<Player>, actions: seq<ScoreAction>, k: int)
    requires 0 <= k < |players|
    ensures SameIds(players, ApplyActions(players, actions))
    ensures |ApplyActions(players, actions)[k].history| == |players[k].history| + CountFor(actions, players[k].id)
    ensures ApplyActions(players, actions)[k].history[..|players[k].history|] == players[k].history
    decreases |actions|
  {
    if |actions| > 0 {
      var a := actions[0];
      var next := AddScore(players, a.id, a.points, a.isSubtraction, a.timestamp);
      ApplyActionsHistoryLength(next, actions[1..], k);
      var r := ApplyActions(next, actions[1..]);
      assert r[k].history[..|next[k].history|] == next[k].history;
      assert next[k].history[..|players[k].history|] == players[k].history;
      assert r[k].history[..|players[k].history|] == r[k].history[..|next[k].history|][..|players[k].history|];
    }
  }

  // ---------------------------------------------------- handleCustomScore / handleCustomSubtract

  /** The custom-score guard: `parseInt(customScore)` must be a number and greater than zero. */
  function CustomPoints(text: string): (r: Option<int>)
    ensures r.Some? ==> r.value > 0 && ParseInt(text) == r
    ensures r.None? ==> ParseInt(text).None? || ParseInt(text).value <= 0
  {
    match ParseInt(text)
    case Some(p) => if p > 0 then Some(p) else None
    case None => None
  }

  /** A typed numeral is accepted exactly when it is positive, and then with its own value. */
  lemma CustomPointsOfNumeral(n: int)
    ensures CustomPoints(IntToString(n)) == if n > 0 then Some(n) else None
  {
    ParseIntRoundTrip(n);
  }

  /** The roster after a custom entry: `addScore` with the parsed value, or no change at all. */
  function CustomEntry(players: seq<Player>, text: string, id: int, isSubtraction: bool, timestamp: string): (r: seq<Player>)
    ensures CustomPoints(text).None? ==> r == players
    ensures CustomPoints(text).Some? ==> (SameIds(players, r) &&
      forall k :: 0 <= k < |r| && players[k].id == id ==>
        |r[k].history| == |players[k].history| + 1 && r[k].history[|players[k].history|].points != 0)
  {
    match CustomPoints(text)
    case Some(p) => AddScore(players, id, p, isSubtraction, timestamp)
    case None => players
  }

  lemma ExampleNumerals()
    ensures IntToString(-3) == "-3" && IntToString(12) == "12"
  {
    assert NatToString(3) == [DigitChar(3)] == "3";
    assert NatToString(1) == [DigitChar(1)] == "1";
    assert NatToString(12) == NatToString(1) + [DigitChar(2)] == "12";
  }

  /** Entering "-3" changes nothing, neither score nor history; entering "12" adds 12. */
  lemma CustomEntryExamples(players: seq<Player>, id: int, timestamp: string)
    ensures CustomEntry(players, "-3", id, false, timestamp) == players
    ensures CustomEntry(players, "12", id, false, timestamp) == AddScore(players, id, 12, false, timestamp)
  {
    CustomPointsOfNumeral(-3);
    CustomPointsOfNumeral(12);
    ExampleNumerals();
  }

  // ---------------------------------------------------------- updatePlayerName

  /** `updatePlayerName(playerId, newName)`: the players with that id take the new name, or the
      default label when it is empty (no trimming); nothing else changes. */
  function Rename(players: seq<Player>, id: int, newName: string): (r: seq<Player>)
    ensures SameIds(players, r)
    ensures forall k :: 0 <= k < |r| ==>
      r[k].score == players[k].score && r[k].history == players[k].history
    ensures forall k :: 0 <= k < |r| && players[k].id != id ==> r[k] == players[k]
    ensures forall k :: 0 <= k < |r| && players[k].id == id ==>
      r[k].name != "" && r[k].name == (if newName == "" then DefaultName(id) else newName)
  {
    seq(|players|, k requires 0 <= k < |players| =>
      var p := players[k];
      if p.id == id then p.(name := if newName == "" then DefaultName(id) else newName) else p)
  }

  /** An unknown id leaves the roster as it was. */
  lemma RenameUnknownId(players: seq<Player>, id: int, newName: string)
    requires forall k :: 0 <= k < |players| ==> players[k].id != id
    ensures Rename(players, id, newName) == players
  {
  }

  /** Renaming, to any name or to the empty one, keeps a well-formed roster well formed. */
  lemma RenameKeepsWellFormed(players: seq<Player>, id: int, newName: string)
    requires WellFormed(players)
    ensures WellFormed(Rename(players, id, newName))
  {
  }

  // ------------------------------------------------------------------ resetGame

  /** `resetGame`: every score 0, every history empty; ids and names kept. */
  function ResetScores(players: seq<Player>): (r: seq<Player>)
    ensures SameIds(players, r)
    ensures forall k :: 0 <= k < |r| ==>
      r[k].name == players[k].name && r[k].score == 0 && r[k].history == []
  {
    seq(|players|, k requires 0 <= k < |players| => players[k].(score := 0, history := []))
  }

  lemma ResetIdempotent(players: seq<Player>)
    ensures ResetScores(ResetScores(players)) == ResetScores(players)
  {
  }

  // ---------------------------------------------------------- roster rebuild

  /** The position of the first player with that id, or -1 when there is none. */
  function FirstIndex(players: seq<Player>, id: int): (k: int)
    ensures -1 <= k < |players|
    ensures k >= 0 ==> players[k].id == id
    ensures forall j :: 0 <= j < |players| && (k < 0 || j < k) ==> players[j].id != id
  {
    if |players| == 0 then -1
    else if players[0].id == id then 0
    else
      var k := FirstIndex(players[1..], id);
      if k < 0 then -1 else k + 1
  }

  /** `players.find(p => p.id === id)`: the first player with that id. */
  function FindById(players: seq<Player>, id: int): (r: Option<Player>)
    ensures r.Some? ==> r.value.id == id && r.value in players
    ensures r.Some? ==> r.value == players[FirstIndex(players, id)]
    ensures r.None? <==> forall k :: 0 <= k < |players| ==> players[k].id != id
  {
    var k := FirstIndex(players, id);
    if k < 0 then None else Some(players[k])
  }

  /** The player the rebuild puts in slot `id`: the existing one with its name (or the default
      label when that name is empty), score and history, else a fresh default player. */
  function Slot(players: seq<Player>, id: int): (p: Player)
    ensures p.id == id && p.name != ""
    ensures FindById(players, id).Some? ==>
      var q := FindById(players, id).value;
      p.score == q.score && p.history == q.history && p.name == (if q.name == "" then DefaultName(id) else q.name)
    ensures FindById(players, id).None? ==> p.score == 0 && p.history == [] && p.name == DefaultName(id)
  {
    match FindById(players, id)
    case Some(p) => Player(id, if p.name == "" then DefaultName(id) else p.name, p.score, p.history)
    case None => Player(id, DefaultName(id), 0, [])
  }

  /** The roster the setup effect builds for `playerCount` players. */
  function Rebuilt(players: seq<Player>, count: int): (r: seq<Player>)
    ensures |r| == if count < 0 then 0 else count
    ensures forall k :: 0 <= k < |r| ==> r[k] == Slot(players, k + 1)
  {
    seq(if count < 0 then 0 else count, k => Slot(players, k + 1))
  }

  /** The setup effect's `for` loop, pushing one slot per id `1..playerCount`. */
  method RebuildRoster(players: seq<Player>, playerCount: int) returns (newPlayers: seq<Player>)
    ensures newPlayers == Rebuilt(players, playerCount)
  {
    newPlayers := [];
    var i := 0;
    while i < playerCount
      invariant 0 <= i <= (if playerCount < 0 then 0 else playerCount)
      invariant |newPlayers| == i
      invariant forall k :: 0 <= k < i ==> newPlayers[k] == Slot(players, k + 1)
    {
      var existing := FindById(players, i + 1);
      var player := match existing
        case Some(p) => Player(i + 1, if p.name == "" then DefaultName(i + 1) else p.name, p.score, p.history)
        case None => Player(i + 1, DefaultName(i + 1), 0, []);
      newPlayers := newPlayers + [player];
      i := i + 1;
    }
  }

  lemma FindByIdWellFormed(players: seq<Player>, k: int)
    requires WellFormed(players) && 0 <= k < |players|
    ensures FindById(players, k + 1) == Some(players[k])
  {
    var j := FirstIndex(players, k + 1);
    assert j >= 0 by {
      assert players[k].id == k + 1;
    }
  }

  /** The rebuilt roster has ids 1..playerCount in order and no empty name; it keeps scores
      non-negative when they were. */
  lemma RebuiltWellFormed(players: seq<Player>, count: int)
    ensures WellFormed(Rebuilt(players, count))
    ensures AllNonNegative(players) ==> AllNonNegative(Rebuilt(players, count))
  {
    var r := Rebuilt(players, count);
    forall k | 0 <= k < |r| ensures r[k].id == k + 1 && r[k].name != "" && (AllNonNegative(players) ==> r[k].score >= 0) {
      var j := FirstIndex(players, k + 1);
    }
  }

  /** An id in range keeps its name, score and history; a new id gets a default player. */
  lemma RebuiltRetains(players: seq<Player>, count: int, k: int)
    requires 0 <= k < count
    ensures FindById(players, k + 1).Some? && FindById(players, k + 1).value.name != "" ==>
      Rebuilt(players, count)[k] == FindById(players, k + 1).value
    ensures FindById(players, k + 1).None? ==>
      Rebuilt(players, count)[k] == Player(k + 1, DefaultName(k + 1), 0, [])
    ensures FindById(players, k + 1).Some? ==>
      var p := FindById(players, k + 1).value;
      && Rebuilt(players, count)[k].score == p.score
      && Rebuilt(players, count)[k].history == p.history
      && Rebuilt(players, count)[k].name == (if p.name == "" then DefaultName(k + 1) else p.name)
  {
    var j := FirstIndex(players, k + 1);
  }

  /** A well-formed roster rebuilt at its own size is unchanged. */
  lemma RebuiltIdentity(players: seq<Player>)
    requires WellFormed(players)
    ensures Rebuilt(players, |players|) == players
  {
    var r := Rebuilt(players, |players|);
    forall k | 0 <= k < |players| ensures r[k] == players[k] {
      FindByIdWellFormed(players, k);
    }
  }

  /** Growing then shrinking is the same as shrinking directly: the slots that survive were
      never touched by the intermediate size. */
  lemma RebuiltShrink(players: seq<Player>, m: int, n: int)
    requires 0 <= n <= m
    ensures Rebuilt(Rebuilt(players, m), n) == Rebuilt(players, n)
  {
    var mid := Rebuilt(players, m);
    RebuiltWellFormed(players, m);
    forall k | 0 <= k < n ensures Rebuilt(mid, n)[k] == Rebuilt(players, n)[k] {
      FindByIdWellFormed(mid, k);
    }
  }

  /** Resizing a well-formed two-player roster to 4 and back to 2 gives the same two players. */
  lemma ResizeTwoFourTwo(players: seq<Player>)
    requires WellFormed(players) && |players| == 2
    ensures Rebuilt(Rebuilt(players, 4), 2) == players
  {
    RebuiltShrink(players, 4, 2);
    RebuiltIdentity(players);
  }

  /** The example of a new two-player session: +2 then -5 on player 1 leaves score 0 and two entries. */
  lemma NewSessionScenario(t1: string, t2: string)
    ensures var start := Rebuilt([], 2);
            var afterAdd := AddScore(start, 1, 2, false, t1);
            var afterSub := AddScore(afterAdd, 1, 5, true, t2);
            && afterAdd[0].score == 2 && afterAdd[0].history == [HistoryEntry(2, t1, Add)]
            && afterSub[0].score == 0
            && afterSub[0].history == [HistoryEntry(2, t1, Add), HistoryEntry(-5, t2, Subtract)]
            && afterSub[1] == start[1]
  {
    var start := Rebuilt([], 2);
    RebuiltRetains([], 2, 0);
    RebuiltRetains([], 2, 1);
    assert start[0].id == 1 && start[0].score == 0 && start[0].history == [];
    assert start[1].id == 2;
  }
}
