/** The leaderboard: `[...players].sort((a, b) => b.score - a.score)` under the stable sort
    ECMAScript 2019 requires, numbered by position (`index + 1`). */
module Ranking {
  import opened Roster

  predicate SortedByScore(s: seq<Player>) {
    forall i, j :: 0 <= i < j < |s| ==> s[i].score >= s[j].score
  }

  /** The players of `s` whose score is `v`, in their order in `s`. */
  function WithScore(s: seq<Player>, v: int): seq<Player>
    decreases |s|
  {
    if |s| == 0 then [] else (if s[0].score == v then [s[0]] else []) + WithScore(s[1..], v)
  }

  /** Put `x` in front of the first player that does not beat it, so that it stays ahead of the
      players it ties with: the tie-break of a stable sort. */
  function Insert(x: Player, s: seq<Player>): seq<Player>
    decreases |s|
  {
    if |s| == 0 || x.score >= s[0].score then [x] + s else [s[0]] + Insert(x, s[1..])
  }

  /** The sorted copy; the roster itself is a value and is never changed. */
  function SortByScore(players: seq<Player>): seq<Player>
    decreases |players|
  {
    if |players| == 0 then [] else Insert(players[0], SortByScore(players[1..]))
  }

  lemma {:induction false} InsertPermutes(x: Player, s: seq<Player>)
    ensures multiset(Insert(x, s)) == multiset([x] + s)
    decreases |s|
  {
    if |s| > 0 && x.score < s[0].score {
      InsertPermutes(x, s[1..]);
      assert s == [s[0]] + s[1..];
    }
  }

  lemma {:induction false} InsertSorted(x: Player, s: seq<Player>)
    requires SortedByScore(s)
    ensures SortedByScore(Insert(x, s))
    ensures |Insert(x, s)| == |s| + 1
    ensures Insert(x, s)[0] == x || (|s| > 0 && Insert(x, s)[0] == s[0])
    decreases |s|
  {
    if |s| > 0 && x.score < s[0].score {
      InsertSorted(x, s[1..]);
      var rest := Insert(x, s[1..]);
      var r := Insert(x, s);
      assert r == [s[0]] + rest;
      assert rest[0].score <= s[0].score;
      forall j | 1 <= j < |r| ensures r[0].score >= r[j].score {
        assert r[j] == rest[j - 1];
      }
    }
  }

  lemma {:induction false} InsertStable(x: Player, s: seq<Player>, v: int)
    requires SortedByScore(s)
    ensures WithScore(Insert(x, s), v) == WithScore([x] + s, v)
    decreases |s|
  {
    if |s| > 0 && x.score < s[0].score {
      InsertStable(x, s[1..], v);
      var rest := Insert(x, s[1..]);
      assert Insert(x, s) == [s[0]] + rest;
      assert ([s[0]] + rest)[1..] == rest;
      assert ([x] + s)[1..] == s;
      assert ([x] + s[1..])[1..] == s[1..];
      if x.score == v {
        assert WithScore([s[0]] + rest, v) == WithScore(rest, v);
      } else {
        assert WithScore([x] + s, v) == WithScore(s, v);
      }
    }
  }

  /** The leaderboard order is a permutation of the roster, sorted by score from high to low,
      and players with equal scores keep their roster order. */
  lemma {:induction false} SortByScoreCorrect(players: seq<Player>)
    ensures multiset(SortByScore(players)) == multiset(players)
    ensures SortedByScore(SortByScore(players))
    ensures forall v :: WithScore(SortByScore(players), v) == WithScore(players, v)
    decreases |players|
  {
    if |players| > 0 {
      var tail := SortByScore(players[1..]);
      SortByScoreCorrect(players[1..]);
      InsertPermutes(players[0], tail);
      InsertSorted(players[0], tail);
      assert players == [players[0]] + players[1..];
      forall v ensures WithScore(SortByScore(players), v) == WithScore(players, v) {
        InsertStable(players[0], tail, v);
        assert ([players[0]] + tail)[1..] == tail;
      }
    }
  }

  /** An already ordered roster is left as it is: in particular, after `resetGame` every
      player is tied at 0 and the leaderboard lists them in id order. */
  lemma {:induction false} SortByScoreOfSorted(players: seq<Player>)
    requires SortedByScore(players)
    ensures SortByScore(players) == players
    decreases |players|
  {
    if |players| > 0 {
      SortByScoreOfSorted(players[1..]);
    }
  }

  lemma LeaderboardAfterReset(players: seq<Player>)
    ensures SortByScore(ResetScores(players)) == ResetScores(players)
  {
    SortByScoreOfSorted(ResetScores(players));
  }

  /** One row of the leaderboard: the position-based rank and the player. */
  datatype Standing = Standing(rank: nat, player: Player)

  /** `sortedPlayers.map((player, index) => ...)` with rank `index + 1`: ranks run 1..n with no
      gaps and no sharing, even between tied players. */
  function Standings(players: seq<Player>): (r: seq<Standing>)
    ensures |r| == |players|
    ensures forall i :: 0 <= i < |r| ==> r[i].rank == i + 1
    ensures forall i, j :: 0 <= i < j < |r| ==> r[i].player.score >= r[j].player.score
    ensures multiset(seq(|r|, i requires 0 <= i < |r| => r[i].player)) == multiset(players)
    ensures seq(|r|, i requires 0 <= i < |r| => r[i].player) == SortByScore(players)
  {
    SortByScoreCorrect(players);
    var sorted := SortByScore(players);
    assert |sorted| == |players| by {
      assert |multiset(sorted)| == |multiset(players)|;
    }
    var r := seq(|sorted|, i requires 0 <= i < |sorted| => Standing(i + 1, sorted[i]));
    assert seq(|r|, i requires 0 <= i < |r| => r[i].player) == sorted;
    r
  }

  /** Two players tied at 5 ahead of one at 1: order 1, 2, 3 and ranks 1, 2, 3 (not 1, 1, 3). */
  lemma TieExample(a: string, b: string, c: string)
    ensures var players := [Player(1, a, 5, []), Player(2, b, 5, []), Player(3, c, 1, [])];
            var r := Standings(players);
            && |r| == 3
            && r[0] == Standing(1, players[0])
            && r[1] == Standing(2, players[1])
            && r[2] == Standing(3, players[2])
  {
    var players := [Player(1, a, 5, []), Player(2, b, 5, []), Player(3, c, 1, [])];
    assert SortedByScore(players);
    SortByScoreOfSorted(players);
  }
}
