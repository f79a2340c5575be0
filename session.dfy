/** The `ScoreTracker` component's state machine: its state fields, the handlers that replace
    them, and the effects that load, save and rebuild the roster. Each handler and each effect is
    one atomic step; the order in which React runs them is left to the caller, except for the
    mount sequence, which is modelled on its own at the end of this module. */
module ScoreTracker {
  import opened Wrappers
  import opened Roster
  import opened Cookies
  import opened Numbers

  /** `gameState`. */
  datatype Phase = Setup | Playing

  /** What the save effect hands to `setCookie`, before JSON encoding. */
  datatype Snapshot = Snapshot(players: seq<Player>, gameState: Phase, timestamp: int)

  /** The decoded cookie as the load effect inspects it: either field may be missing (or falsy). */
  datatype SavedData = SavedData(players: Option<seq<Player>>, gameState: Option<Phase>)

  /** The three state fields the score engine works on. */
  datatype SessionState = SessionState(players: seq<Player>, phase: Phase, playerCount: int)

  const CookieName: string := "scoreTrackerData"

  /** `getCookie('scoreTrackerData')`: the raw value, then the JSON decoding given as `parse`
      (a value that does not parse is `None`, like the `catch` that returns `null`). */
  function Decode(jar: string, parse: string -> Option<SavedData>): (r: Option<SavedData>)
    ensures CookieValue(jar, CookieName).None? ==> r.None?
  {
    match CookieValue(jar, CookieName)
    case Some(raw) => parse(raw)
    case None => None
  }

  /** `savedData && savedData.players`. */
  predicate Restores(saved: Option<SavedData>) {
    saved.Some? && saved.value.players.Some?
  }

  /** The load effect: a saved roster replaces the players, fixes the count to its length and
      brings back the phase, `setup` when none was saved; anything else changes nothing. */
  function Restore(s: SessionState, saved: Option<SavedData>): (r: SessionState)
    ensures Restores(saved) ==>
      && r.players == saved.value.players.value
      && r.playerCount == |r.players|
      && r.phase == (if saved.value.gameState.Some? then saved.value.gameState.value else Setup)
    ensures !Restores(saved) ==> r == s
  {
    if Restores(saved) then
      var players := saved.value.players.value;
      SessionState(players, saved.value.gameState.GetOr(Setup), |players|)
    else s
  }

  class Session {
    var players: seq<Player>
    var phase: Phase
    var playerCount: int
    /** The text of the custom-score input. */
    var customScore: string
    /** The player whose custom-score input is open, if any. */
    var activeCustomPlayer: Option<int>
    /** What the cookie holds as far as this session's writes go (`setCookie`, `deleteCookie`). */
    var saved: Option<Snapshot>

    function State(): SessionState
      reads this
    {
      SessionState(players, phase, playerCount)
    }

    /** The first render: no players yet, two players chosen, in setup. */
    constructor (stored: Option<Snapshot>)
      ensures State() == SessionState([], Setup, 2)
      ensures customScore == "" && activeCustomPlayer == None && saved == stored
    {
      players, phase, playerCount := [], Setup, 2;
      customScore, activeCustomPlayer := "", None;
      saved := stored;
    }

    /** The load effect, reading the cookie jar. */
    method Load(jar: string, parse: string -> Option<SavedData>)
      modifies this`players, this`phase, this`playerCount
      ensures SessionState(players, phase, playerCount) == Restore(SessionState(old(players), old(phase), old(playerCount)), Decode(jar, parse))
    {
      var raw := GetCookie(jar, CookieName);
      var savedData: Option<SavedData> := None;
      if raw.Some? {
        savedData := parse(raw.value);
      }
      assert savedData == Decode(jar, parse);
      if Restores(savedData) {
        var restored := savedData.value.players.value;
        players, playerCount, phase := restored, |restored|, savedData.value.gameState.GetOr(Setup);
      }
    }

    /** The save effect: the snapshot is written only when there is at least one player. */
    method SaveEffect(now: int)
      modifies this`saved
      ensures |players| > 0 ==> saved == Some(Snapshot(players, phase, now))
      ensures |players| == 0 ==> saved == old(saved)
    {
      if |players| > 0 {
        saved := Some(Snapshot(players, phase, now));
      }
    }

    /** The rebuild effect: in setup, the roster becomes ids 1..playerCount, keeping the players
        it can; while playing, nothing happens. */
    method RebuildEffect()
      modifies this`players
      ensures old(phase) == Setup ==> players == Rebuilt(old(players), playerCount)
      ensures old(phase) == Setup ==> WellFormed(players) && |players| == (if playerCount < 0 then 0 else playerCount)
      ensures old(phase) == Playing ==> players == old(players)
      ensures AllNonNegative(old(players)) ==> AllNonNegative(players)
    {
      if phase == Setup {
        players := RebuildRoster(players, playerCount);
        RebuiltWellFormed(old(players), playerCount);
      }
    }

    /** The player-count buttons of the setup screen. */
    method SetPlayerCount(count: int)
      modifies this`playerCount
      ensures playerCount == count
    {
      playerCount := count;
    }

    method UpdatePlayerName(playerId: int, newName: string)
      modifies this`players
      ensures players == Rename(old(players), playerId, newName)
      ensures AllNonNegative(old(players)) ==> AllNonNegative(players)
      ensures WellFormed(old(players)) ==> WellFormed(players)
    {
      players := Rename(players, playerId, newName);
    }

    method AddScore(playerId: int, points: int, isSubtraction: bool, timestamp: string)
      modifies this`players
      ensures players == Roster.AddScore(old(players), playerId, points, isSubtraction, timestamp)
      ensures AllNonNegative(old(players)) ==> AllNonNegative(players)
      ensures WellFormed(old(players)) ==> WellFormed(players)
    {
      players := Roster.AddScore(players, playerId, points, isSubtraction, timestamp);
    }

    /** Typing in the custom-score input. */
    method EditCustomScore(text: string)
      modifies this`customScore
      ensures customScore == text
    {
      customScore := text;
    }

    method OpenCustomEntry(playerId: int)
      modifies this`activeCustomPlayer
      ensures activeCustomPlayer == Some(playerId)
    {
      activeCustomPlayer := Some(playerId);
    }

    method CancelCustomEntry()
      modifies this`activeCustomPlayer
      ensures activeCustomPlayer == None
    {
      activeCustomPlayer := None;
    }

    /** `handleCustomScore` (`isSubtraction` false) and `handleCustomSubtract` (true): when the
        input parses to a positive number the score changes and the input is cleared and closed;
        otherwise nothing at all changes. */
    method HandleCustom(playerId: int, isSubtraction: bool, timestamp: string)
      modifies this`players, this`customScore, this`activeCustomPlayer
      ensures CustomPoints(old(customScore)).Some? ==>
        && players == Roster.AddScore(old(players), playerId, CustomPoints(old(customScore)).value, isSubtraction, timestamp)
        && customScore == "" && activeCustomPlayer == None
      ensures CustomPoints(old(customScore)).None? ==>
        players == old(players) && customScore == old(customScore) && activeCustomPlayer == old(activeCustomPlayer)
      ensures players == CustomEntry(old(players), old(customScore), playerId, isSubtraction, timestamp)
    {
      var points := ParseInt(customScore);
      if points.Some? && points.value > 0 {
        assert CustomPoints(customScore) == points;
        ghost var entry := CustomEntry(players, customScore, playerId, isSubtraction, timestamp);
        assert entry == Roster.AddScore(players, playerId, points.value, isSubtraction, timestamp);
        AddScore(playerId, points.value, isSubtraction, timestamp);
        customScore := "";
        activeCustomPlayer := None;
      } else {
        assert CustomPoints(customScore).None?;
      }
    }

    /** `resetGame`: scores and histories cleared, ids and names kept, and the cookie deleted. */
    method ResetGame()
      modifies this`players, this`saved
      ensures players == ResetScores(old(players))
      ensures WellFormed(old(players)) ==> WellFormed(players)
      ensures saved == None
    {
      players := ResetScores(players);
      saved := None;
    }

    method StartGame()
      modifies this`phase
      ensures phase == Playing
    {
      phase := Playing;
    }

    method BackToSetup()
      modifies this`phase
      ensures phase == Setup
    {
      phase := Setup;
    }
  }

  /** What writing a snapshot and reading it back needs of the JSON layer: the encoded text holds
      no `;` and decodes to the saved players and phase. */
  predicate Encodes(encode: Snapshot -> string, parse: string -> Option<SavedData>, s: Snapshot) {
    ';' !in encode(s) && parse(encode(s)) == Some(SavedData(Some(s.players), Some(s.gameState)))
  }

  /** Save then load: a jar whose `scoreTrackerData` pair holds the encoded snapshot gives back
      its players, their count and its phase. */
  lemma SaveThenLoad(s: Snapshot, encode: Snapshot -> string, parse: string -> Option<SavedData>,
                     cookies: seq<Cookie>, before: SessionState)
    requires Encodes(encode, parse, s)
    requires forall i :: 0 <= i < |cookies| ==> ValidCookie(cookies[i])
    requires Lookup(cookies, CookieName) == Some(encode(s))
    ensures Restore(before, Decode(RenderJar(cookies), parse)) == SessionState(s.players, s.gameState, |s.players|)
  {
    CookieValueOfJar(cookies, CookieName);
  }

  // ------------------------------------------------------------------ mount

  /** The first render's state. */
  const Initial: SessionState := SessionState([], Setup, 2)

  /** The mount as the effects are written. On the first commit the load effect queues the saved
      roster, but the rebuild effect of the same commit still sees the first render's state
      (no players, two of them, setup) and queues a default roster after it, which wins. On the
      next commit the rebuild effect runs again if its dependencies changed and the phase is setup. */
  function MountAsWritten(saved: Option<SavedData>): (r: SessionState)
    ensures r.phase == Restore(Initial, saved).phase
    ensures r.playerCount == Restore(Initial, saved).playerCount
  {
    var loaded := Restore(Initial, saved);
    var first := loaded.(players := Rebuilt(Initial.players, Initial.playerCount));
    if (first.playerCount != Initial.playerCount || first.phase != Initial.phase) && first.phase == Setup
    then first.(players := Rebuilt(first.players, first.playerCount))
    else first
  }

  /** As written, the mounted roster never holds a saved score or history. */
  lemma MountAsWrittenDiscardsScores(saved: Option<SavedData>)
    ensures forall k :: 0 <= k < |MountAsWritten(saved).players| ==>
      MountAsWritten(saved).players[k] == Player(k + 1, DefaultName(k + 1), 0, [])
  {
    var first := Rebuilt([], 2);
    forall k | 0 <= k < 2 ensures first[k] == Player(k + 1, DefaultName(k + 1), 0, []) {
      RebuiltRetains([], 2, k);
    }
    var r := MountAsWritten(saved).players;
    forall k | 0 <= k < |r| ensures r[k] == Player(k + 1, DefaultName(k + 1), 0, []) {
      if r != first {
        var n := Restore(Initial, saved).playerCount;
        RebuiltShrink([], 2, 0);
        assert r == Rebuilt(first, n);
        var j := FirstIndex(first, k + 1);
        if j >= 0 {
          assert first[j].id == k + 1 && j == k;
        }
      }
    }
  }

  /** A saved game in progress with three scored players comes back as two blank players,
      while the player count says three. */
  lemma MountAsWrittenLosesGame()
    ensures var players := [Player(1, "Ana", 7, []), Player(2, "Bo", 3, []), Player(3, "Cy", 4, [])];
            var mounted := MountAsWritten(Some(SavedData(Some(players), Some(Playing))));
            && mounted.phase == Playing
            && mounted.playerCount == 3 && |mounted.players| == 2
            && mounted.players[0] == Player(1, DefaultName(1), 0, [])
  {
    RebuiltRetains([], 2, 0);
  }

  /** The mount as intended: the load effect's values are the ones the rebuild effect sees. */
  function Mount(saved: Option<SavedData>): (r: SessionState)
    ensures r.phase == Restore(Initial, saved).phase
    ensures r.playerCount == Restore(Initial, saved).playerCount
    ensures r.phase == Playing ==> r.players == Restore(Initial, saved).players
  {
    var loaded := Restore(Initial, saved);
    if loaded.phase == Setup then loaded.(players := Rebuilt(loaded.players, loaded.playerCount)) else loaded
  }

  /** A saved roster with ids 1..n and names comes back unchanged, with its count and phase;
      with nothing saved the session starts with two default players in setup. */
  lemma MountRestoresSaved(saved: Option<SavedData>)
    requires Restores(saved) ==> WellFormed(saved.value.players.value)
    ensures Restores(saved) ==>
      Mount(saved) == SessionState(saved.value.players.value, saved.value.gameState.GetOr(Setup), |saved.value.players.value|)
    ensures !Restores(saved) ==>
      Mount(saved).phase == Setup && Mount(saved).players == Rebuilt([], 2) && WellFormed(Mount(saved).players)
  {
    if Restores(saved) {
      RebuiltIdentity(saved.value.players.value);
    } else {
      RebuiltWellFormed([], 2);
    }
  }
}
