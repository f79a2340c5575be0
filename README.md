# Score tracker engine, modelled in Dafny

This project models the score engine inside the `ScoreTracker` component of the
"Compteur de Points" web app (`src/App.tsx`). The app keeps running scores for two to four
players at one table, keeps the session in a browser cookie, and shows a live leaderboard.

The model covers:

- **Roster**: `Player` and `HistoryEntry` records, and the list operations the handlers
  perform. These are `addScore` with its clamp at zero and its history entry, the custom-score
  check built on `parseInt`, `updatePlayerName`, `resetGame`, and the rebuild that the setup
  screen runs when the player count changes.
- **Numbers**: `parseInt` with no radix (white space, sign, `0x` prefix, longest digit run)
  and the decimal rendering used by the label `Joueur ${id}`.
- **Ranking**: the stable sort by descending score and the positional ranks `index + 1`.
- **Cookies**: `getCookie`'s scan of `document.cookie` (split on `;`, drop leading spaces,
  first segment that starts with `name=`).
- **ScoreTracker**: a `Session` class whose fields are the component's state (`players`,
  `gameState`, `playerCount`, the custom-score input, and the cookie as written). Its methods are
  the handlers and effects. Each one runs as a single step. The mount sequence is modelled
  separately (see Findings).

Modules: `Wrappers` (Option), `Numbers`, `Roster`, `Ranking`, `Cookies`, `ScoreTracker`.

## Model

| member | source | states |
|---|---|---|
| `Numbers.NatToString` | src/App.tsx:86 | the rendered numeral is non-empty, does not start with `-`, and has a leading `0` only for zero |
| `Numbers.NatToStringDigits` | src/App.tsx:86 | every character of a rendered natural number is a decimal digit |
| `Numbers.IntToString` | src/App.tsx:86 | the template literal's numeral is non-empty and starts with `-` exactly for a negative number; ParseIntRoundTrip proves `parseInt` reads it back |
| `Numbers.IntToStringNegative` | src/App.tsx:86 | a negative integer renders as `-` followed by the numeral of its magnitude |
| `Numbers.TrimStart` | src/App.tsx:134 | parseInt's leading-space skip leaves a suffix that does not start with white space, and everything dropped was white space |
| `Numbers.DigitPrefix` | src/App.tsx:134 | parseInt reads the longest prefix of digits of the radix: every character taken is a digit and the next one is not |
| `Numbers.ParseUnsigned` | src/App.tsx:134 | the unsigned part of `parseInt` yields a number only when the text starts with a decimal digit; see ParseUnsignedOfNatToString and ParseIntDefined |
| `Numbers.ParseSigned` | src/App.tsx:134 | a number is read only from non-empty text, and a negative one only after a `-` sign; see ParseSignedOfIntToString |
| `Numbers.ParseInt` | src/App.tsx:134 | `parseInt` yields a number only when something is left after the white space, and a negative one only when that starts with `-`; see ParseIntDefined, ParseIntRoundTrip |
| `Numbers.DigitsValueOfNatToString` | src/App.tsx:134 | a rendered numeral has the value it was rendered from |
| `Numbers.ParseUnsignedOfNatToString` | src/App.tsx:134 | the unsigned part of parseInt reads back a rendered natural, whatever non-digit follows it |
| `Numbers.ParseSignedMinus` | src/App.tsx:134 | after a `-` sign, parseInt returns the negation of what the unsigned part reads |
| `Numbers.ParseSignedOfNegative` | src/App.tsx:134 | parseInt reads a rendered negative integer back through its `-` sign |
| `Numbers.ParseSignedOfNatural` | src/App.tsx:134 | parseInt reads a rendered natural number back when no sign precedes it |
| `Numbers.ParseSignedOfIntToString` | src/App.tsx:134 | after the white space, parseInt reads back any rendered integer, whichever its sign |
| `Numbers.ParseIntOfIntToString` | src/App.tsx:134 | `parseInt` returns the integer a rendered numeral came from, even when text that cannot continue the numeral follows it |
| `Numbers.ParseIntRoundTrip` | src/App.tsx:134 | `parseInt(String(i)) == i` for every integer |
| `Numbers.ParseUnsignedDefined` | src/App.tsx:134 | the unsigned part reads a number exactly when the text starts with a decimal digit, and a `0x` prefix needs a hex digit after it |
| `Numbers.ParseIntDefined` | src/App.tsx:134-135 | parseInt is a number (not NaN) exactly when a decimal digit follows the white space and sign, and a `0x` prefix needs a hex digit |
| `Roster.DefaultName` | src/App.tsx:107 | the default label is exactly `Joueur ` followed by the id's numeral |
| `Roster.DefaultNameNumeral` | src/App.tsx:107 | `parseInt` reads the id back from what follows `Joueur ` in the label |
| `Roster.SignedPoints` | src/App.tsx:113 | `actualPoints` has the magnitude of `points` and is ≤ 0 for a subtraction, ≥ 0 for an addition |
| `Roster.ClampedSum` | src/App.tsx:119 | the new score is non-negative, at least `score + delta`, and equal to it unless it is 0 |
| `Roster.AddScore` | src/App.tsx:112-131 | same ids in the same order. Players with another id are unchanged. A matching player keeps its name, gets the clamped score, and has exactly one entry appended (unclamped delta, `subtract` iff subtraction) with earlier entries unchanged |
| `Roster.AddScoreTarget` | src/App.tsx:113-126 | after `addScore` the target's score is ≥ 0. An addition adds the full magnitude, a subtraction never raises the score, and the new entry's kind and signed points follow the direction |
| `Roster.ApplyActionsKeepsScoresNonNegative` | src/App.tsx:112-131 | after any sequence of `addScore` calls no score is negative and the ids are unchanged |
| `Roster.ApplyActionsHistoryLength` | src/App.tsx:120-127 | history only grows: its old entries stay, and one entry is added per action on the player's id |
| `Roster.NewSessionScenario` | src/App.tsx:112-131 | in a new two-player session, +2 then −5 on player 1 gives score 0 and history `[+2 add, −5 subtract]`, and player 2 is unchanged |
| `Roster.CustomPoints` | src/App.tsx:134-135 | the custom value is accepted only when parseInt gives a number > 0, and then it is that number |
| `Roster.CustomPointsOfNumeral` | src/App.tsx:134-135 | a typed numeral is accepted exactly when it is positive, with its own value |
| `Roster.CustomEntry` | src/App.tsx:133-149 | a rejected custom value leaves the roster as it was. An accepted one adds exactly one non-zero entry to the target |
| `Roster.CustomEntryExamples` | src/App.tsx:133-149 | `"-3"` changes nothing, and `"12"` is `addScore(id, 12)` |
| `Roster.Rename` | src/App.tsx:104-110 | ids, scores and histories are unchanged, and so is every player with another id. The target's name is the new text, or exactly `Joueur {id}` when the new text is empty |
| `Roster.RenameUnknownId` | src/App.tsx:104-110 | an id no player has leaves the roster unchanged |
| `Roster.RenameKeepsWellFormed` | src/App.tsx:104-110 | renaming, to any name or to the empty one, keeps ids 1..n and every name non-empty |
| `Roster.ResetScores` | src/App.tsx:151-156 | same length, ids and names, every score 0 and every history empty |
| `Roster.ResetIdempotent` | src/App.tsx:151-156 | resetting twice is the same as resetting once |
| `Roster.FirstIndex` | src/App.tsx:83 | `find` returns the first player with the id: that player has it and none before it does, or no player has it |
| `Roster.FindById` | src/App.tsx:83 | `find` returns the FIRST player of the roster with that id, and nothing exactly when no player has it |
| `Roster.Slot` | src/App.tsx:84-89 | the pushed player has the slot's id. A found player keeps its score and history and its name, or gets `Joueur i` when that name is empty (the `||` fallback). Otherwise the player is `Joueur i` with score 0 and no history |
| `Roster.Rebuilt` | src/App.tsx:81-90 | the rebuilt roster has `max(playerCount, 0)` players, and slot k is built for id k+1 |
| `Roster.RebuildRoster` | src/App.tsx:81-91 | the `for`/`push` loop builds exactly the specified rebuilt roster |
| `Roster.FindByIdWellFormed` | src/App.tsx:83 | in a roster with ids 1..n, finding id k+1 returns the player at position k |
| `Roster.RebuiltWellFormed` | src/App.tsx:81-90 | the rebuilt roster has ids 1..playerCount in order and no empty name, and keeps scores non-negative |
| `Roster.RebuiltRetains` | src/App.tsx:83-89 | a retained id keeps its score and history, and its name or `Joueur i` when that name is empty. A new id gets `Joueur i`, score 0 and an empty history |
| `Roster.RebuiltIdentity` | src/App.tsx:79-93 | rebuilding a well-formed roster at its own size changes nothing |
| `Roster.RebuiltShrink` | src/App.tsx:79-93 | growing to m and then shrinking to n ≤ m equals shrinking straight to n |
| `Roster.ResizeTwoFourTwo` | src/App.tsx:79-93 | resizing 2 → 4 → 2 gives back the original two players |
| `Ranking.SortByScore` | src/App.tsx:172 | the stable descending sort; see SortByScoreCorrect for permutation, order and stability |
| `Ranking.InsertPermutes` | src/App.tsx:172 | inserting into the sorted prefix loses and duplicates nothing |
| `Ranking.InsertSorted` | src/App.tsx:172 | inserting into a list sorted by descending score keeps it sorted |
| `Ranking.InsertStable` | src/App.tsx:172 | insertion keeps the relative order of equal-score players |
| `Ranking.SortByScoreCorrect` | src/App.tsx:172 | the sort is a permutation of the roster, non-increasing by score, and keeps tied players in roster order |
| `Ranking.SortByScoreOfSorted` | src/App.tsx:172 | a roster already in order is returned as it is |
| `Ranking.LeaderboardAfterReset` | src/App.tsx:151-156 | after `resetGame` the leaderboard lists players in roster (id) order |
| `Ranking.Standings` | src/App.tsx:304-310 | ranks are 1..n by position. The rows list exactly `SortByScore` of the roster, so scores do not increase down the list, the rows hold a permutation of the roster, and tied players keep roster order (SortByScoreCorrect) |
| `Ranking.TieExample` | src/App.tsx:304-310 | scores 5, 5, 1 for ids 1, 2, 3 give order 1, 2, 3 with ranks 1, 2, 3, not 1, 1, 3 |
| `Cookies.Split` | src/App.tsx:38 | `split(';')` gives at least one piece, and no piece holds a `;` |
| `Cookies.JoinSplit` | src/App.tsx:38 | joining the pieces with `;` gives the original string back |
| `Cookies.SplitPrefix` | src/App.tsx:38 | splitting text that starts with a `;`-free piece puts that piece at the front of the first segment |
| `Cookies.SplitJoin` | src/App.tsx:38 | splitting a join of `;`-free pieces gives those pieces |
| `Cookies.StripLeadingSpaces` | src/App.tsx:41 | the space loop drops exactly the leading spaces (and no other character) |
| `Cookies.MatchIndex` | src/App.tsx:39-42 | the scan stops at the first segment that starts with `name=` after its spaces are dropped, or finds none |
| `Cookies.CookieValue` | src/App.tsx:36-50 | the text after `name=` in the first matching segment; see CookieValueFound, CookieValueIsRest and CookieValueOfJar |
| `Cookies.CookieValueFound` | src/App.tsx:36-50 | a value is found iff some segment starts with `name=` after its leading spaces are dropped |
| `Cookies.CookieValueIsRest` | src/App.tsx:36-50 | the value found is the text after `name=` in the first matching segment |
| `Cookies.GetCookie` | src/App.tsx:36-50 | the loop scan returns the value text of the first matching segment, or null when there is none |
| `Cookies.KeyIndex` | src/App.tsx:39-42 | the first cookie whose key is the name, or none |
| `Cookies.KeyPrefix` | src/App.tsx:42 | `key=value` starts with `name=` iff key and name are equal, when neither holds `=` |
| `Cookies.PairMatches` | src/App.tsx:41-42 | a listed pair loses only its separating space and matches exactly its own name |
| `Cookies.CookieValueOfJar` | src/App.tsx:36-50 | reading a `document.cookie` listing of well-formed pairs returns the value of the first pair with that name, or nothing |
| `ScoreTracker.Decode` | src/App.tsx:59 | nothing is decoded when the cookie is absent; otherwise the JSON layer decides; see SaveThenLoad |
| `ScoreTracker.Restore` | src/App.tsx:58-65 | a saved roster replaces the players. The count becomes its length and the phase becomes the saved one, defaulting to setup. Without a saved roster nothing changes |
| `ScoreTracker.SaveThenLoad` | src/App.tsx:58-76 | when the JSON layer decodes what it encoded, loading a jar that holds a saved snapshot restores its players, count and phase |
| `ScoreTracker.Session.constructor` | src/App.tsx:18-24 | the first render has no players, a count of 2, setup, an empty input and no open entry |
| `ScoreTracker.Session.Load` | src/App.tsx:58-65 | the load effect (cookie scan, decoding, restore) leaves the state equal to `Restore` of the decoded cookie |
| `ScoreTracker.Session.SaveEffect` | src/App.tsx:68-76 | the snapshot is written only when there is at least one player, and otherwise the cookie is untouched |
| `ScoreTracker.Session.RebuildEffect` | src/App.tsx:79-93 | in setup, the roster is rebuilt to ids 1..playerCount and is well formed. While playing it is unchanged. Non-negative scores stay non-negative |
| `ScoreTracker.Session.SetPlayerCount` | src/App.tsx:213 | the count buttons set `playerCount` and nothing else |
| `ScoreTracker.Session.UpdatePlayerName` | src/App.tsx:104-110 | the roster becomes the renamed roster, keeping non-negative scores and well-formedness |
| `ScoreTracker.Session.AddScore` | src/App.tsx:112-131 | the roster becomes the `addScore` roster, keeping non-negative scores and ids |
| `ScoreTracker.Session.EditCustomScore` | src/App.tsx:360 | typing sets the custom-score text |
| `ScoreTracker.Session.OpenCustomEntry` | src/App.tsx:397 | opening the custom entry selects that player |
| `ScoreTracker.Session.CancelCustomEntry` | src/App.tsx:387 | cancelling closes the custom entry |
| `ScoreTracker.Session.HandleCustom` | src/App.tsx:133-149 | on a positive parsed value the score changes and the input is cleared and closed. Otherwise nothing changes, not even the input |
| `ScoreTracker.Session.ResetGame` | src/App.tsx:151-159 | scores and histories are cleared, ids and names kept, and the cookie deleted |
| `ScoreTracker.Session.StartGame` | src/App.tsx:161-164 | only the phase changes, to playing |
| `ScoreTracker.Session.BackToSetup` | src/App.tsx:166-169 | only the phase changes, to setup, and the roster and count are kept |
| `ScoreTracker.MountAsWritten` | src/App.tsx:58-93 | as written, mounting keeps the loaded count and phase; see MountAsWrittenDiscardsScores and MountAsWrittenLosesGame for the roster |
| `ScoreTracker.Mount` | src/App.tsx:58-93 | as intended, mounting keeps the loaded count and phase, and a game in progress keeps its loaded roster; see MountRestoresSaved |
| `ScoreTracker.MountAsWrittenDiscardsScores` | src/App.tsx:58-93 | as the effects are written, the roster after mounting holds only default players: saved scores and histories never survive |
| `ScoreTracker.MountAsWrittenLosesGame` | src/App.tsx:58-93 | as written, a saved game of three scored players comes back as two blank players with `playerCount` 3 |
| `ScoreTracker.MountRestoresSaved` | src/App.tsx:58-93 | as intended, a saved well-formed roster comes back unchanged with its count and phase. With nothing saved, the session starts with two default players in setup |

## Left out

- Rendering (the JSX tree, `getRankIcon`, `getRankColor`), the menu and reset-confirmation
  flags, and the delayed focus of the custom input: these are presentation only.
- `setCookie` and `deleteCookie` are modelled only through the `saved` field, which records
  the last snapshot this session wrote, or `None` after a delete. The cookie's 2-hour expiry,
  its attributes, and the browser's cookie store are not modelled.
- `JSON.stringify` and `JSON.parse` are parameters (`encode`, `parse`). A player name
  containing `;` would cut the stored cookie short. `SaveThenLoad` assumes the encoded text
  has no `;`.
- Timestamps (`toLocaleTimeString`, `Date.now`) are parameters.
- JavaScript numbers are modelled as unbounded integers. Not modelled: a numeral too long
  for a double (parseInt then gives a rounded value or `Infinity`), `-0`, and a `NaN` score
  in a decoded cookie.
- A decoded `gameState` that is neither `'setup'` nor `'playing'` cannot occur here, because
  the decoded phase is an `Option<Phase>`. The app would keep such a string, and it would show
  the playing screen.
- React's scheduling is not modelled: each handler and effect is one step, and a caller
  composes them. Only the mount sequence is modelled as React runs it (see Findings).
- `ScoreTracker.Session.HandleCustom` stands for both `handleCustomScore` and
  `handleCustomSubtract`, which differ only in the subtraction flag.

The model follows the code as written on these points:

- The default label is `Joueur {id}`, not `Player {id}`.
- A name is not trimmed, so a name of spaces is kept as typed.
- `addScore` has no guard on the value; it takes `Math.abs(points)`. Only the custom-score
  handlers reject values that are not positive.
- The count is not clamped to {2, 3, 4}.
- `resetGame` deletes the cookie, but the save effect writes the reset roster again on the
  next commit, because `players` changed.

## Findings

| source | as written | input that shows it | evidently intended | confidence | as-written member | corrected member |
|---|---|---|---|---|---|---|
| src/App.tsx:58-93 | On mount, the load effect queues `setPlayers(saved.players)`. The rebuild effect of the same commit still sees the first render's state (no players, count 2, setup), so it queues `setPlayers` with two default players after that. The default roster wins. The next commit then saves that default roster over the cookie. | A cookie holding a game in progress with three players scored 7, 3 and 4 | The saved players come back with their scores, histories, count and phase | medium: depends on React running both effects in one commit and applying their updates in order; not executed | `ScoreTracker.MountAsWrittenLosesGame` | `ScoreTracker.MountRestoresSaved` |
