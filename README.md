# Portfolio leaderboard, side-scroller rules and projects admin, in Dafny

This project models the parts of the personal-website repository that carry
logic, and proves properties of them:

- **save_score.php**: a JSON body `{name, score, mode}` is checked, normalised
  and stored as one row of the `leaderboard` table. A body that is empty or
  falsy fails with "No input", and a body that decodes to a falsy value fails
  with "Invalid JSON". Both give status 400. Normalisation is
  `trim(substr($data['name'] ?? 'Anon', 0, 64))`, `intval($data['score'] ?? 0)`
  and `trim(substr($data['mode'] ?? 'unknown', 0, 32))`. A text field holding
  an array makes substr raise a `TypeError` (PHP 8). Nothing catches it, so
  the request ends in a fatal error without a JSON reply. The status the
  client sees depends on `display_errors`: 500 when it is off, and 200 with
  the error text when it is on.
- **get_leaderboard.php**: `ORDER BY score DESC, created_at ASC LIMIT :limit`
  returns the projected columns without the id. The limit defaults to 20, or
  is `intval` of the parameter. A negative LIMIT means "all rows" to SQLite
  and is an error (status 500) to MySQL.
- **game.js**: the rules of the side-scroller:
  - `escapeHtml`;
  - the two overlap tests;
  - the difficulty table;
  - pause and resume;
  - the jump and double jump, and landing;
  - the orb buffer capped at 100 and the orb sweep;
  - `saveIfHigh` with the body it posts.

  The mutable game state is the class `SideScroller.Game`. Its methods are
  proved against pure step functions (`Jumped`, `Landed`, `Spawned`,
  `SweptOrbs`, `Toggled`), and the properties are proved about those
  functions.
- **projects_admin.php**: the passphrase login, the logout and the "add a
  project" form. The form covers:
  - trimmed fields;
  - tags from `explode`/`trim`/`array_filter`;
  - the two required-field errors;
  - the image rule (upload status, 2 MiB limit, JPEG/PNG/GIF whitelist,
    sanitised stored name, move);
  - appending to the decoded list.

  The request state is the class `ProjectsAdmin.AdminPage`.
- **round_trip.dfy** connects the parts. A post the game sends is stored as
  sent, up to trimming. After a successful save, a leaderboard read whose
  limit covers the table lists the new row.

The PHP runtime behaviour the scripts rely on is modelled once, in
`php_runtime.dfy`:
- `trim` with its default character list;
- `substr($s, 0, $n)`;
- `intval` of a string, with 64-bit saturation;
- `(string)$n`;
- the `json_decode($raw, true)` value, PHP truthiness and `??`.

Strings are sequences of characters. PHP's substr counts bytes and
JavaScript's slice counts UTF-16 units, so the cuts to 64, 32 and 40 agree
with the model on ASCII text only (`PhpRuntime.IsAscii`). The lemmas that
depend on a length cut say so; see "## Left out".

Where the code behaves differently from what a reader would expect, the
model follows the code:

- The name and mode are cut first and trimmed second. A default replaces only
  a missing or `null` field, not an empty or blank one. So the body
  `{"name":"  Bob  ","score":"42","mode":""}` stores the mode `""`, not
  `"unknown"` (`SaveScore.PresentEmptyModeExample`). A present but blank name
  is stored as `""` (`SaveScore.BlankNameStaysBlank`).
- The raw body `"0"` is falsy in PHP and is rejected with "No input".
- A name longer than 64 characters is stored as its first 64 characters only
  when its first and 64th characters are not blanks. Otherwise the trim after
  the cut shortens it further (`SaveScore.LongNameTruncated`).
- The admin passphrase is read from an environment variable literally named
  `Lv2!23256789` (projects_admin.php line 7), not from
  `PROJECTS_ADMIN_PASSPHRASE` as the comment at lines 4-6 says. The value `"0"`,
  like a missing variable, disables the page (`ConfiguredPassphrase`).
- The image is moved into `images/projects` before the page decides whether
  to save the entry. A request with an empty title and a valid image
  therefore writes an image file that no entry refers to
  (`ProjectsAdmin.OrphanImagePossible`, `AdminPage.AddProject`).
- The add branch checks only the session flag. A session that signed in
  earlier can still add after the passphrase is removed from the
  environment (`AdminPage.HandleRequest`).
- `reset()` leaves `player.onGround` as it was. A game restarted while the
  player was in the air has a falling player who cannot jump until landing
  (`SideScroller.NoJumpWhileFallingUnjumped`).
- `circleRectOverlap` tests only the orb's centre; the radius plays no part
  (`SideScroller.CircleRectOverlapIsCentreTest`).

In the model, a read of the leaderboard is the function
`GetLeaderboard.Handle` of the table, with rows that tie on both score and
created_at kept in table order. Two reads with no write between them then
give the same answer. The program only guarantees the same rows in an order
consistent with the two keys, because SQL leaves the order of full ties open.

## Model

All source paths are under `personal-website/`.

| member | source | states |
|---|---|---|
| PhpRuntime.Trim | personal-website/Main/save_score.php:10 | trim() returns a string with no trim character at either end; it is the infix of the input after a margin of trim characters on the left and before one on the right |
| PhpRuntime.TrimFixesTrimmed | personal-website/Main/save_score.php:10 | trim() leaves a string unchanged exactly when neither end is a trim character |
| PhpRuntime.TrimIdempotent | personal-website/Main/save_score.php:12 | trimming twice is trimming once |
| PhpRuntime.TrimOfBlankMargins | personal-website/Main/save_score.php:10 | a non-empty trimmed core between two runs of trim characters comes back as that core |
| PhpRuntime.TrimEmptyIff | personal-website/Main/projects_admin.php:37-43 | trim() gives "" exactly for strings made of trim characters only, which is when a required field counts as empty |
| PhpRuntime.Prefix | personal-website/Main/save_score.php:10 | substr($s, 0, $n) is the first n characters, or all of s when shorter |
| PhpRuntime.Saturate | personal-website/Main/save_score.php:11 | intval clamps an out-of-range value to the 64-bit minimum or maximum and keeps an in-range one |
| PhpRuntime.NatToString | personal-website/Main/projects_admin.php:65 | the decimal rendering of n is a non-empty digit string whose value is n, with no leading zero unless n is 0 |
| PhpRuntime.IntToString | personal-website/Main/projects_admin.php:65 | (string)$n is non-empty and starts with '-' exactly when n is negative |
| PhpRuntime.StringToInt | personal-website/Main/save_score.php:11 | intval of a string is negative only when its first non-blank character is '-', and non-zero only when that character is a sign or a digit; StringToIntOfDigits, StringToIntOfNegated, StringToIntOfIntToString and StringToIntNonNumeric give its value |
| PhpRuntime.StringToIntOfDigits | personal-website/Main/save_score.php:11 | intval of a digit string is its value, saturated |
| PhpRuntime.StringToIntOfNegated | personal-website/Main/save_score.php:11 | intval of '-' followed by digits is the negated value, saturated |
| PhpRuntime.StringToIntOfIntToString | personal-website/Main/save_score.php:11 | intval((string)$n) == $n for every 64-bit int |
| PhpRuntime.StringToIntNonNumeric | personal-website/Main/save_score.php:11 | a string whose first non-space character is neither a digit nor a sign has intval 0 |
| PhpRuntime.Field | personal-website/Main/save_score.php:10-12 | `$data[$key] ?? d` takes a value exactly when $data is an array holding the key with a non-null value, and the value taken is the one stored under the key |
| PhpRuntime.ToStringArg | personal-website/Main/save_score.php:10 | passing a decoded value to substr fails (TypeError) exactly for arrays; a string passes unchanged |
| PhpRuntime.ToInt | personal-website/Main/save_score.php:11 | intval of an int is itself, of null 0, of a string the StringToInt of its text, and of a bool or array 1 or 0 according to its truthiness |
| ScoreStore.EmptyTable | personal-website/Main/db_config.php:23-29 | a fresh table has no rows and valid ids |
| ScoreStore.Insert | personal-website/Main/save_score.php:17-24 | an insert appends exactly one row with the given fields and time, keeps every earlier row, gives it an id no earlier row has, and keeps ids increasing |
| SaveScore.NormaliseText | personal-website/Main/save_score.php:10 | a normalised text field is trimmed and within its cap; normalisation fails exactly when the field holds an array |
| SaveScore.NormaliseScore | personal-website/Main/save_score.php:11 | the score is 0 when missing or null and intval of the value otherwise |
| SaveScore.Normalise | personal-website/Main/save_score.php:10-12 | a normalised entry has a trimmed name of at most 64 and a trimmed mode of at most 32 characters; it fails exactly when name or mode is an array |
| SaveScore.Submit | personal-website/Main/save_score.php:5-31 | the request saves exactly when the body is truthy, decodes to a truthy value, normalises and the store works; then one normalised row is inserted; otherwise the table is unchanged. A falsy body gives "No input", a falsy decoded value "Invalid JSON", an array-valued name or mode the uncaught TypeError (Fatal), and a database failure the caught exception; each of those holds exactly under its condition, and every rejection has status 400 |
| SaveScore.EmptyBodyRejected | personal-website/Main/save_score.php:6-7 | an empty body or the body "0" gives "No input" and leaves the table alone |
| SaveScore.FalsyJsonRejected | personal-website/Main/save_score.php:8-9 | a body decoding to null, false, 0, "", "0" or an empty array gives "Invalid JSON" and leaves the table alone |
| SaveScore.SavedRowIsNormalised | personal-website/Main/save_score.php:10-24 | after a save the table is valid and has one more row, the old rows first, and the new row has a normalised name and mode and the insert time |
| SaveScore.DefaultsForMissingFields | personal-website/Main/save_score.php:10-12 | with all three fields missing, the entry is ("Anon", 0, "unknown") |
| SaveScore.MissingNameIsAnon | personal-website/Main/save_score.php:10 | a missing or null name is stored as "Anon", whatever the other fields hold |
| SaveScore.MissingModeIsUnknown | personal-website/Main/save_score.php:12 | a missing or null mode is stored as "unknown", whatever the other fields hold |
| SaveScore.DefaultWhenMissing | personal-website/Main/save_score.php:10-12 | for any field, a missing or null value is replaced by its default, unchanged when the default is already trimmed and within the cap |
| SaveScore.DefaultsAreNormal | personal-website/Main/save_score.php:10-12 | "Anon" and "unknown" are trimmed and within 64 and 32 characters |
| SaveScore.ShortTrimmedIsKept | personal-website/Main/save_score.php:10 | a trimmed text within the cap is stored unchanged |
| SaveScore.BlankNameStaysBlank | personal-website/Main/save_score.php:10 | a name of blanks only is stored as "", not replaced by "Anon" |
| SaveScore.BlankModeStaysBlank | personal-website/Main/save_score.php:12 | a mode of blanks only is stored as "", not replaced by "unknown" |
| SaveScore.LongNameTruncated | personal-website/Main/save_score.php:10 | a name of 64 or more characters, non-blank at positions 1 and 64, is stored as its first 64 characters |
| SaveScore.NormaliseFixesNormalEntry | personal-website/Main/save_score.php:10-12 | normalising the JSON of an already normal entry gives that entry back |
| SaveScore.TrimBob | personal-website/Main/save_score.php:10 | trim("  Bob  ") is "Bob" |
| SaveScore.FortyTwo | personal-website/Main/save_score.php:11 | intval("42") is 42 |
| SaveScore.PresentEmptyModeExample | personal-website/Main/save_score.php:10-12 | {"name":"  Bob  ","score":"42","mode":""} normalises to ("Bob", 42, "") |
| GetLeaderboard.LimitOf | personal-website/Main/get_leaderboard.php:7 | the limit is 20 without a parameter and intval of the parameter otherwise |
| GetLeaderboard.Select | personal-website/Main/get_leaderboard.php:8-11 | the statement yields rows exactly when the limit is non-negative or the backend is SQLite; then min(limit, table size) rows, or the whole table for a negative limit on SQLite, all taken from the table; SelectIsTopSlice adds that they are the top of the ranking |
| GetLeaderboard.Handle | personal-website/Main/get_leaderboard.php:5-16 | the endpoint answers with rows exactly when the database is reachable and the statement is accepted, otherwise with status 500, and never with more rows than the table holds; ResultLength, NegativeLimit and EmptyTableIsNotAnError give the exact counts |
| GetLeaderboard.InsertRanked | personal-website/Main/get_leaderboard.php:8 | inserting a row into a ranking adds exactly that row |
| GetLeaderboard.Rank | personal-website/Main/get_leaderboard.php:8 | ORDER BY yields a permutation of the table |
| GetLeaderboard.InsertRankedKeepsRanked | personal-website/Main/get_leaderboard.php:8 | inserting into a sequence ranked by (score desc, created_at asc) keeps it ranked |
| GetLeaderboard.RankIsRanked | personal-website/Main/get_leaderboard.php:8 | the ordered table is ranked by score descending, then created_at ascending |
| GetLeaderboard.HigherScoreListedFirst | personal-website/Main/get_leaderboard.php:8 | a row with a strictly higher score is listed before one with a lower score |
| GetLeaderboard.ResultLength | personal-website/Main/get_leaderboard.php:7-12 | a non-negative limit n yields exactly min(n, table size) rows |
| GetLeaderboard.DefaultLimitBound | personal-website/Main/get_leaderboard.php:7 | without a parameter, min(20, table size) rows come back |
| GetLeaderboard.NegativeLimit | personal-website/Main/get_leaderboard.php:8-10 | a negative limit returns the whole table on SQLite and an error on MySQL |
| GetLeaderboard.ResultSorted | personal-website/Main/get_leaderboard.php:8-13 | the rows returned are sorted by score descending and, at equal score, by created_at ascending |
| GetLeaderboard.SelectIsTopSlice | personal-website/Main/get_leaderboard.php:8 | the rows selected are rows of the table, and every row left out ranks at or below every row selected |
| GetLeaderboard.RankedSplit | personal-website/Main/get_leaderboard.php:8 | cutting a ranking leaves every row of the front at or above every row of the back |
| GetLeaderboard.ResultRowsComeFromTable | personal-website/Main/get_leaderboard.php:8-13 | every row returned is the projection (no id) of a row of the table |
| GetLeaderboard.EmptyTableIsNotAnError | personal-website/Main/get_leaderboard.php:12-16 | an empty table answers with an empty array (on SQLite, or with a non-negative limit); an unreachable database answers with status 500 |
| GetLeaderboard.TieBreakExample | personal-website/Main/get_leaderboard.php:8 | A (100), B (300) and C (300, created before B) are listed C, B, A |
| SideScroller.EscapeHtml | personal-website/games/side_scroller/game.js:276 | escaping never shortens a string |
| SideScroller.EscapeCharIsEscaped | personal-website/games/side_scroller/game.js:276 | each replacement is markup-free text |
| SideScroller.EscapedAppend | personal-website/games/side_scroller/game.js:276 | joining two escaped strings gives an escaped string |
| SideScroller.EscapeHtmlIsEscaped | personal-website/games/side_scroller/game.js:276 | the output holds none of < > " ' and every & in it starts one of the five entities |
| SideScroller.EscapeHtmlAppend | personal-website/games/side_scroller/game.js:276 | escapeHtml distributes over concatenation |
| SideScroller.EscapeHtmlIdentity | personal-website/games/side_scroller/game.js:276 | a string without & < > " ' is unchanged |
| SideScroller.UnescapeEscapeChar | personal-website/games/side_scroller/game.js:276 | decoding a replacement followed by any text gives back the character followed by the decoded text |
| SideScroller.UnescapeEscapeHtml | personal-website/games/side_scroller/game.js:276 | decoding the five entities inverts escapeHtml |
| SideScroller.EscapeHtmlInjective | personal-website/games/side_scroller/game.js:276 | two names that display the same are the same name |
| SideScroller.RectsOverlap | personal-website/games/side_scroller/game.js:207 | for boxes of non-negative size, an overlap has a common point at the larger of the two left edges and the larger of the two top edges; RectsOverlapIffCommonPoint gives the converse |
| SideScroller.CircleRectOverlap | personal-website/games/side_scroller/game.js:208-211 | the orb overlaps the box exactly when its centre lies in the closed box; CircleRectOverlapIsCentreTest adds that the radius plays no part |
| SideScroller.RectsOverlapSymmetric | personal-website/games/side_scroller/game.js:207 | rectsOverlap(a, b) == rectsOverlap(b, a) |
| SideScroller.RectOverlapsItself | personal-website/games/side_scroller/game.js:207 | a box overlaps itself exactly when its width and height are non-negative |
| SideScroller.RectsOverlapIffCommonPoint | personal-website/games/side_scroller/game.js:207 | for boxes of non-negative size, rectsOverlap holds exactly when the closed boxes share a point |
| SideScroller.CircleRectOverlapIsCentreTest | personal-website/games/side_scroller/game.js:208-211 | circleRectOverlap is "centre in the closed box" and does not depend on the radius |
| SideScroller.DifficultyMultiplier | personal-website/games/side_scroller/game.js:148-152 | the multiplier lies in [0.8, 1.5]; it is 0.8 for easy, 1 for medium or an empty select, 1.25 for hard, 1.5 for harder, and 1 for every other value |
| SideScroller.DifficultyIncreases | personal-website/games/side_scroller/game.js:150 | easy < medium < hard < harder |
| SideScroller.Toggled | personal-website/games/side_scroller/game.js:242 | togglePause swaps play and pause and leaves start and gameover alone |
| SideScroller.Resumed | personal-website/games/side_scroller/game.js:243 | resume never leaves the game paused and changes the state exactly when it was paused |
| SideScroller.ToggleTwice | personal-website/games/side_scroller/game.js:242 | toggling twice returns to the same state |
| SideScroller.Jumped | personal-website/games/side_scroller/game.js:121-129 | jump from the ground gives one jump at -14, in the air after one jump a second at -12, otherwise nothing; the invariant "at most two jumps, none while standing" is kept |
| SideScroller.Landed | personal-website/games/side_scroller/game.js:171 | reaching the ground line puts the player on it, at rest, with no jumps; the invariant is kept |
| SideScroller.AtMostTwoJumps | personal-website/games/side_scroller/game.js:121-129 | from the ground, n jump requests give min(n, 2) jumps and requests after the second change nothing |
| SideScroller.NoJumpWhileFallingUnjumped | personal-website/games/side_scroller/game.js:112-129 | a player in the air with no jump counted (after reset) cannot jump |
| SideScroller.NewOrb | personal-website/games/side_scroller/game.js:159 | a new orb has radius 10 and starts 60 px right of the view |
| SideScroller.Spawned | personal-website/games/side_scroller/game.js:158-161 | after spawnOrb the new orb is last, the buffer never exceeds 100, below capacity it is a push and at capacity the oldest orb is dropped |
| SideScroller.OffScreenNotCollected | personal-website/games/side_scroller/game.js:192-193 | an orb of radius 10 that is off screen cannot be collected by the player at x = 80 |
| SideScroller.SweptOrbs | personal-website/games/side_scroller/game.js:190-197 | the sweep never adds orbs and keeps all orbs of spawned size |
| SideScroller.CollectedCount | personal-website/games/side_scroller/game.js:190-197 | orbs collected plus orbs kept never exceed the orbs before the sweep |
| SideScroller.SweepStep | personal-website/games/side_scroller/game.js:190-197 | one backward step (move, splice if off screen or collected) extends the swept suffix by one orb |
| SideScroller.PostFor | personal-website/games/side_scroller/game.js:256-257 | the posted name is the name field, or "Anon" when it is empty; a name longer than 40 is cut to its first 40 characters; the score is passed through; the mode is the difficulty or "medium" |
| SideScroller.Game.constructor | personal-website/games/side_scroller/game.js:98-105 | the game starts on the start screen, score 0, no orbs, the player at rest not standing, and the stored high score |
| SideScroller.Game.StartGame | personal-website/games/side_scroller/game.js:241 | reset then play: score 0, no orbs, the player half-way down at rest with no jumps, standing flag unchanged |
| SideScroller.Game.Jump | personal-website/games/side_scroller/game.js:121-129 | the player becomes Jumped(old player), keeping the game invariant |
| SideScroller.Game.Land | personal-website/games/side_scroller/game.js:171 | the player becomes Landed(old player, ground) |
| SideScroller.Game.TogglePause | personal-website/games/side_scroller/game.js:242 | the state becomes Toggled(old state), and the game invariant is kept |
| SideScroller.Game.Resume | personal-website/games/side_scroller/game.js:243 | the state becomes Resumed(old state), and the game invariant is kept |
| SideScroller.Game.SpawnOrb | personal-website/games/side_scroller/game.js:158-161 | the buffer becomes Spawned(old buffer, new orb), at most 100 orbs |
| SideScroller.Game.SweepOrbs | personal-website/games/side_scroller/game.js:190-197 | the backward in-place loop leaves exactly SweptOrbs of the old orbs and adds 10 points per collected orb |
| SideScroller.Game.SaveIfHigh | personal-website/games/side_scroller/game.js:254-258 | the high score becomes the larger of itself and the floored score, never decreasing; one post with the floored score is sent whether or not it is a record |
| SideScroller.Game.HitObstacle | personal-website/games/side_scroller/game.js:183-188 | a hit ends the game and runs saveIfHigh |
| ProjectsAdmin.Explode | personal-website/Main/projects_admin.php:41 | explode(',') gives one more field than there are commas |
| ProjectsAdmin.ExplodeFieldsHaveNoComma | personal-website/Main/projects_admin.php:41 | no field holds a comma |
| ProjectsAdmin.ImplodeExplode | personal-website/Main/projects_admin.php:41 | joining the fields with commas gives back the text |
| ProjectsAdmin.ExplodeNoCommaPrefix | personal-website/Main/projects_admin.php:41 | a comma-free prefix joins the first field |
| ProjectsAdmin.ExplodeImplode | personal-website/Main/projects_admin.php:41 | splitting comma-joined, comma-free fields gives back the fields |
| ProjectsAdmin.ExplodeAtComma | personal-website/Main/projects_admin.php:41 | the fields of x,y are the fields of x followed by those of y |
| ProjectsAdmin.KeepTruthy | personal-website/Main/projects_admin.php:41 | array_filter never adds values |
| ProjectsAdmin.KeepTruthyMembers | personal-website/Main/projects_admin.php:41 | array_filter keeps exactly the values other than "" and "0" |
| ProjectsAdmin.KeepTruthyAppend | personal-website/Main/projects_admin.php:41 | filtering preserves order across a concatenation |
| ProjectsAdmin.ParseTags | personal-website/Main/projects_admin.php:40-41 | there are at most as many tags as comma-separated fields of the trimmed text |
| ProjectsAdmin.ParseTagsClean | personal-website/Main/projects_admin.php:40-41 | every tag is trimmed, non-empty and not "0" |
| ProjectsAdmin.TrimAllMembers | personal-website/Main/projects_admin.php:41 | array_map('trim') yields exactly the trimmed fields |
| ProjectsAdmin.ParseTagsMembers | personal-website/Main/projects_admin.php:40-41 | a value is a tag exactly when it is truthy and is some field, trimmed |
| ProjectsAdmin.ParseTagsHaveNoComma | personal-website/Main/projects_admin.php:40-41 | no tag holds a comma |
| ProjectsAdmin.NoCommaAfterTrim | personal-website/Main/projects_admin.php:41 | trimming a comma-free field adds no comma |
| ProjectsAdmin.TrimAllAppend | personal-website/Main/projects_admin.php:41 | trimming fields distributes over concatenation |
| ProjectsAdmin.TagsKeepFieldOrder | personal-website/Main/projects_admin.php:41 | the tags of x,y are the tags of x followed by those of y |
| ProjectsAdmin.DropRun | personal-website/Main/projects_admin.php:64 | dropping a leading run of other characters shortens a string that starts with one and leaves it starting with a kept character or empty |
| ProjectsAdmin.Sanitize | personal-website/Main/projects_admin.php:64 | the sanitised stem holds only letters, digits, '_' and '-', and is no longer than the input |
| ProjectsAdmin.SanitizeIdentityIff | personal-website/Main/projects_admin.php:64 | the sanitiser changes a string exactly when it holds another character |
| ProjectsAdmin.SanitizeIdempotent | personal-website/Main/projects_admin.php:64 | sanitising twice is sanitising once |
| ProjectsAdmin.SanitizeRun | personal-website/Main/projects_admin.php:64 | a non-empty run of other characters becomes one '-' |
| ProjectsAdmin.DropRunOfRun | personal-website/Main/projects_admin.php:64 | a string of other characters is dropped whole |
| ProjectsAdmin.SanitizeCons | personal-website/Main/projects_admin.php:64 | a kept leading character is kept |
| ProjectsAdmin.SanitizeSplits | personal-website/Main/projects_admin.php:64 | a run never reaches across a kept character |
| ProjectsAdmin.SanitizeSplitsAtRun | personal-website/Main/projects_admin.php:64 | the same when the text starts with a run |
| ProjectsAdmin.DropRunSplits | personal-website/Main/projects_admin.php:64 | dropping a run stops at the first kept character |
| ProjectsAdmin.LettersDropRun | personal-website/Main/projects_admin.php:64 | a dropped run holds no letters, digits or '_' |
| ProjectsAdmin.SanitizeKeepsLetters | personal-website/Main/projects_admin.php:64 | every letter, digit and '_' of the stem survives, in order |
| ProjectsAdmin.AfterLastSlash | personal-website/Main/projects_admin.php:64 | the part after the last '/' is a slash-free suffix |
| ProjectsAdmin.StripTrailingSlashes | personal-website/Main/projects_admin.php:64 | the result is a prefix that does not end in '/' |
| ProjectsAdmin.BaseName | personal-website/Main/projects_admin.php:64 | the base name holds no '/' |
| ProjectsAdmin.BeforeLastDot | personal-website/Main/projects_admin.php:64 | there is a part before the last '.' exactly when there is a '.'; it is the prefix ending at a dot after which no dot follows |
| ProjectsAdmin.FileStem | personal-website/Main/projects_admin.php:64 | pathinfo FILENAME holds no '/' and is the base name when that has no '.' |
| ProjectsAdmin.AfterLastSlashNoSlash | personal-website/Main/projects_admin.php:64 | a slash-free name is its own last component |
| ProjectsAdmin.BeforeLastDotOf | personal-website/Main/projects_admin.php:64 | the part before the last dot of stem.ext is stem when ext has no dot |
| ProjectsAdmin.FileStemOf | personal-website/Main/projects_admin.php:64 | the filename of stem.ext is stem |
| ProjectsAdmin.AllowedExtIsWhitelist | personal-website/Main/projects_admin.php:59-63 | exactly image/jpeg, image/png and image/gif are accepted, stored as jpg, png and gif |
| ProjectsAdmin.ImageDecision | personal-website/Main/projects_admin.php:46-75 | the image step yields no image exactly when no file was uploaded, and stores an image only when it arrived whole, is at most 2 MiB, has an accepted type and was moved; ImageDecisionRule gives the full rule and the error order |
| ProjectsAdmin.ImageDecisionRule | personal-website/Main/projects_admin.php:46-75 | an image is stored exactly when it arrived whole, is at most 2 MiB, has an accepted type and could be moved; no upload means no image and no error; the size check comes before the type check |
| ProjectsAdmin.ImageErrors | personal-website/Main/projects_admin.php:49-68 | the image step records at most one error, and one exactly when it failed |
| ProjectsAdmin.StoredFiles | personal-website/Main/projects_admin.php:67-70 | at most one file is written, and one exactly when the image was stored |
| ProjectsAdmin.SavedImage | personal-website/Main/projects_admin.php:46-70 | the entry's image path is non-empty exactly when an image was stored |
| ProjectsAdmin.StoredName | personal-website/Main/projects_admin.php:64-66 | with a hexadecimal random part and a plain extension, the stored name holds no '/' and its last '.' comes right after the stored stem; StoredNameIsSafe adds that the stem is plain |
| ProjectsAdmin.StoredStemIsName | personal-website/Main/projects_admin.php:65 | with a hexadecimal random part, time-random-sanitisedstem holds only letters, digits, '_' and '-' |
| ProjectsAdmin.AllNameCharsAppend | personal-website/Main/projects_admin.php:65 | joining two plain names gives a plain name |
| ProjectsAdmin.IntToStringIsName | personal-website/Main/projects_admin.php:65 | the time() part of the stored name is a plain name |
| ProjectsAdmin.HexPrefixIsName | personal-website/Main/projects_admin.php:65 | the first 8 hex digits are a plain name |
| ProjectsAdmin.StoredNameIsSafe | personal-website/Main/projects_admin.php:64-66 | the stored name is one path component (no '/'), its stem is plain, and its last '.' separates stem and extension |
| ProjectsAdmin.NameStemWithExt | personal-website/Main/projects_admin.php:65 | stem.ext with plain parts has no '/' and splits at its last dot into stem |
| ProjectsAdmin.FieldErrors | personal-website/Main/projects_admin.php:43-44 | there is no field error exactly when title and description are both non-empty; each error appears exactly when its field is empty |
| ProjectsAdmin.ReadForm | personal-website/Main/projects_admin.php:37-41 | the title, description and link read from the form are trimmed, and every tag is trimmed and neither "" nor "0"; ParseTagsMembers gives exactly which tags appear |
| ProjectsAdmin.NewProjectIsClean | personal-website/Main/projects_admin.php:37-41 | a stored entry has trimmed title, description and link, trimmed truthy tags, and an image path exactly when an image was stored |
| ProjectsAdmin.ConfiguredPassphrase | personal-website/Main/projects_admin.php:7 | the page is enabled exactly when the variable is set to a value other than "" and "0", and then that value is the passphrase |
| ProjectsAdmin.LoginNeedsExactPassphrase | personal-website/Main/projects_admin.php:19-22 | a login succeeds only with the exact passphrase and only while the page is enabled |
| ProjectsAdmin.OrphanImagePossible | personal-website/Main/projects_admin.php:43-71 | an empty title and an acceptable image in one request give a field error and a stored file together |
| ProjectsAdmin.ActionOf | personal-website/Main/projects_admin.php:18-36 | a request takes neither branch exactly when it is not a POST, has no action field, or has an action other than "login" and "add"; ActionOfIff gives the two branches |
| ProjectsAdmin.ActionOfIff | personal-website/Main/projects_admin.php:19 | a request is the login branch exactly for a POST with action "login", and the add branch exactly for a POST with action "add" |
| ProjectsAdmin.AdminPage.constructor | personal-website/Main/projects_admin.php:7-16 | a request starts with the configured passphrase, the session flag, no errors, no success message, the decoded list and the stored images |
| ProjectsAdmin.AdminPage.Login | personal-website/Main/projects_admin.php:19-26 | the session is signed in after a correct passphrase; a wrong one adds "Incorrect passphrase." |
| ProjectsAdmin.AdminPage.Logout | personal-website/Main/projects_admin.php:29-33 | the session flag is removed |
| ProjectsAdmin.AdminPage.StoreImage | personal-website/Main/projects_admin.php:46-75 | the image step adds ImageErrors and StoredFiles of the image rule and returns the entry's image path |
| ProjectsAdmin.AdminPage.ValidateFields | personal-website/Main/projects_admin.php:43-44 | the field errors are appended, title first |
| ProjectsAdmin.AdminPage.SaveEntry | personal-website/Main/projects_admin.php:77-98 | with no error the entry is appended to the decoded list (or to an empty one) and the success message is set; otherwise nothing changes |
| ProjectsAdmin.AdminPage.AddProject | personal-website/Main/projects_admin.php:36-99 | the errors are the field errors then the image error; files are written per the image rule; the entry is appended exactly when there is no error; the session is untouched |
| ProjectsAdmin.AdminPage.HandleRequest | personal-website/Main/projects_admin.php:18-99 | the page redirects exactly on logout, which signs out and writes nothing. A login POST adds "Incorrect passphrase." exactly when the page is enabled and the passphrase is wrong, and otherwise the session is signed in exactly when it was or the login succeeded. An add POST by a session signed in before the request, whether or not a passphrase is configured, records the field errors then the image error, writes the files of the image rule, and appends the entry exactly when there is no error. Every other request leaves errors, list, images and message unchanged |
| ScoreRoundTrip.GamePostNormalised | personal-website/games/side_scroller/game.js:256-262 | for an ASCII name and difficulty, the server stores a game post with name and mode trimmed (the mode cut to 32 first) and the score as sent; the name of at most 40 characters is never cut by the limit of 64 |
| ScoreRoundTrip.GamePostStoredVerbatim | personal-website/games/side_scroller/game.js:256-257 | a trimmed non-empty ASCII name of at most 40 and a trimmed non-empty ASCII mode of at most 32 are stored exactly as sent |
| ScoreRoundTrip.KnownDifficultiesAreModes | personal-website/games/side_scroller/game.js:150 | the four difficulties are such modes, and ASCII |
| ScoreRoundTrip.InRanking | personal-website/Main/get_leaderboard.php:8 | every row of the table appears in the ranking |
| ScoreRoundTrip.SelectAll | personal-website/Main/get_leaderboard.php:8 | a limit covering the table selects the whole ranking |
| ScoreRoundTrip.ProjectAllLists | personal-website/Main/get_leaderboard.php:12-13 | every selected row is returned, projected |
| ScoreRoundTrip.ListedWhenLimitCovers | personal-website/Main/get_leaderboard.php:7-13 | with a limit covering the table, every row is listed |
| ScoreRoundTrip.SavedScoreIsListed | personal-website/Main/save_score.php:17-27 | after a successful save, a read whose limit exceeds the old table size lists the new row, normalised and with the insert time |

## Left out

- The HTTP layer: headers, JSON encoding of replies, and the HTML and redirect of the admin page. A request is a function of its decoded inputs, and a reply is a datatype.
- The database driver. PDO, the DSN choice in db_config.php, and the MySQL retry without `created_at` are not modelled: an insert either succeeds or fails (the `storeUp` input), and the insert time is an input. Full ties on score and created_at keep table order, although SQL leaves that order unspecified.
- Time, randomness and the file system are inputs: `time()`, `bin2hex(random_bytes(6))`, the MIME type finfo detects (finfo failing is not modelled), whether `move_uploaded_file` succeeds, and the decoded projects file.
- PhpRuntime.StringToInt: decimal points, exponents (`"1e3"`) and JSON floats are not modelled; the decoded value has no float case.
- Array-valued POST fields on the admin page (a TypeError in trim) are not modelled. The same goes for a projects.json that decodes to an object or to a non-list array.
- PhpRuntime.Prefix: counts characters, whereas PHP's substr counts bytes. The two agree on ASCII text only. On other text PHP can cut inside a character, and the invalid UTF-8 that results makes json_encode in get_leaderboard.php fail. preg_replace without the u flag also works on bytes, and `ProjectsAdmin.Sanitize` treats each non-ASCII character as one character, not as several bytes.
- SideScroller.PostFor: the cut counts characters, whereas `slice(0, 40)` counts UTF-16 units, so the two agree on text without astral-plane characters only. A name of 40 emoji posts 20 of them in the game and 40 in the model, and a cut between the halves of a surrogate pair is not modelled.
- ScoreRoundTrip.GamePostNormalised: stated for ASCII names and difficulties only. The game cuts the name to 40 UTF-16 units and the server cuts it to 64 bytes. A 40-character name of 'é' is 80 bytes, and PHP keeps 32 characters of it. A CJK name can be cut inside a character. A slice that splits a surrogate pair posts a lone surrogate escape, which json_decode rejects, so the reply is "Invalid JSON".
- ScoreRoundTrip.GamePostStoredVerbatim: stated for ASCII names and modes only, for the same reasons.
- GetLeaderboard.LimitOf: takes the parameter as a string. An array parameter (`?limit[]=5`) makes intval return 1, and the model does not cover that case.
- The game's frame loop, drawing, sound, DOM wiring, `localStorage` and fetch are not modelled. So are the obstacles (apart from a hit ending the game), gravity, and the time-based score increase; `dt` and the view size are parameters.
- SideScroller.Game.SweepOrbs: real numbers stand in for JavaScript doubles, so the move by `speed * dt / 1000` is exact.
- SideScroller.Game.HitObstacle: several obstacle hits in one frame run saveIfHigh several times; the model covers one hit.
- SideScroller.Game.SaveIfHigh: a stored high score that is not a number (NaN from `Number(...)`) is not modelled; `high` is an integer.
- The unused `playerNameInput.value.trim() || 'Anon'` in the start button handler (game.js line 245) has no effect and is not modelled.
