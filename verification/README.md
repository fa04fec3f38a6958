# Camcookie maze rooms, maintenance redirect and app store, in Dafny

This project models four parts of the Camcookie site and proves properties of them.

- **The multiplayer maze.**
  - The server's room registry, `game/maze/server.js`: one method per socket handler of `Registry`, over a table from room code to room.
  - The randomized depth-first maze generator. The same code appears in `game/maze/server.js` and `game/maze/script.js`.
  - The browser's mirror of the game state, `game/maze/script.js`: `resetPositions`, the `gameStarted` and `nextLevel` handlers, and the set-up `startPlay` does for a solo game.
- **The maintenance redirect**, `redirect.js`. It decides whether a page does nothing, closes its doors and goes to the error page, shows a maintenance message, or returns the visitor to the page they came from.
- **The app store**, `camcookie-appstore.py`:
  - `$HOME` expansion in commands;
  - the install decision that compares the recorded and the catalog versions;
  - recording a version after an install;
  - the self-update decision.

Modules:

- **`Maze`.** The generator, as a `Carver` class over the two flag grids, with each `carve` call walking its own shuffle. `Generate` is proved to produce a wall list that:
  - is in row-major order and inside the grid;
  - leaves every even-even ("lattice") cell open, so every lattice cell is carved;
  - walls every odd-odd cell.
- **`SharedDirs`.** The generator exactly as written, with one `dirs` array shared by every nested `carve`. It includes a concrete run in which a lattice cell stays walled (see Findings).
- **`Players`.** A player table as a JavaScript object:
  - insertion-ordered keys, and `players[id]`, assignment and `delete`;
  - the reset loops;
  - the leaderboard, a stable sort by score, best first.
- **`RoomServer`.** The `rooms` table and its handlers: `createRoom`, `joinRoom`, `setView`, `startGame`, `playerMove`, `kick` and `disconnect`.
- **`ClientMirror`.** The page's copy of `players`, `currentLv` and `layouts`.
- **`Redirect`.** The routing decision, and the loop that picks the maintenance message.
- **`AppStore`.** `expand_home` and `expand_list`, the command loop, `install_app`'s version recording, `handle_install` and `check_self_update`.

Inputs the code takes from outside are parameters of the model:

- **Random values.**
  - `genCode` is modelled by the room code passed to `CreateRoom`.
  - `Math.random`'s shuffles are an `order` function from cell to permutation.
- **The app store's outside world.**
  - The user's yes/no answer.
  - Whether each install command exits with status 0, as a function from command index to success.
  - The home directory.

What the code does not check, and the model therefore does not promise:

- **Room codes.** `genCode` has no collision check, so two rooms can draw the same code; `createRoom` then overwrites the room stored under it.
- **Joining.** `joinRoom` checks only that the room exists: it accepts duplicate names and rooms whose game has started.
- **Moving.** `playerMove` stores the position as sent: moves into walls or out of the grid are accepted.
- **Room lookups.** `rooms[code]` also finds the names every JavaScript object inherits (`toString`, `__proto__`, ...). For such a code `joinRoom` and `playerMove` throw a TypeError before changing anything, and `setView` and `startGame` do nothing. `kick` enters its branch for such a target but deletes nobody.
- **Maze guarantee.** Every lattice cell is carved by the generator with one shuffle per call (`Maze.Generate`), but not by the code as written (Findings).

## Model

| member | source | states |
|---|---|---|
| Maze.Generate | game/maze/script.js:129-149 | For any positive grid size and any shuffles, the wall list is in strict row-major order (so no wall is listed twice) and lies inside the grid. The start cell is open, every lattice cell is open (the carve reaches all of them), and every odd-odd cell is a wall. |
| Maze.Carver.constructor | game/maze/script.js:130-131 | Both flag grids start all zero: nothing opened, nothing visited. |
| Maze.Carver.Carve | game/maze/script.js:134-143 | `carve(x, y)` visits its cell and only ever adds opened and visited cells. Every cell it newly visits ends with all its in-grid neighbours two steps away visited. |
| Maze.Carver.Visit | game/maze/script.js:135 | The cell is marked both visited and opened; nothing else changes. |
| Maze.Carver.OpenBetweenCell | game/maze/script.js:140 | Exactly the cell between the current cell and the neighbour is opened. That cell is never a lattice cell. |
| Maze.Carver.TryDirection | game/maze/script.js:137-142 | After direction k of the shuffle, the neighbour in that direction is outside the grid or visited. Directions already tried stay tried. |
| Maze.Carver.ListWalls | game/maze/script.js:145-147 | The double loop produces `WallsOf` of the opened set. |
| Maze.WallsListUnopened | game/maze/script.js:145-147 | A position is in the wall list exactly when it lies in the grid and its cell was never opened. |
| Maze.WallsInRowMajorOrder | game/maze/script.js:146-147 | The wall list is strictly increasing by row, then by column. |
| Maze.LatticeReached | game/maze/script.js:134-144 | If the origin is visited and every visited cell has all its two-step neighbours visited, every lattice cell of the grid is visited. |
| Maze.CarvedLayout | game/maze/script.js:144-148 | A carve that visited the whole lattice yields a wall list that is ordered, in bounds, open on the lattice and walled on odd-odd cells. |
| SharedDirs.CarveShared | game/maze/script.js:134-143 | `carve` over the shared array marks its cell, and the opened and visited sets only grow. |
| SharedDirs.Tries | game/maze/script.js:137-142 | The `forEach` walk reads the shared array at each index and only adds opened and visited cells. |
| SharedDirs.CarveOpensNoPillar | game/maze/script.js:134-143 | `carve` over the shared array, started on a lattice cell, never opens an odd-odd cell. |
| SharedDirs.TriesOpenNoPillar | game/maze/script.js:137-142 | The `forEach` walk from a lattice cell, over whatever the shared array holds, opens no odd-odd cell. |
| SharedDirs.GenerateShared | game/maze/script.js:129-149 | The generator as written lists its walls in strict row-major order and inside the grid. The origin is open, and every odd-odd cell is a wall. |
| SharedDirs.WalkFindsNothing | game/maze/script.js:137-142 | A walk whose remaining directions all lead out of the grid or to visited cells changes nothing. |
| SharedDirs.CarveAtOrigin | game/maze/script.js:136-142 | With the shuffles of `Drawn`, the carve from the origin on a 3-by-5 grid ends without opening cell (2, 0). |
| SharedDirs.SharedDirsLeavesCellWalled | game/maze/script.js:132-147 | With those shuffles, the generator as written lists lattice cell Pos(0, 2) as a wall. |
| Players.Lookup | game/maze/server.js:104 | `players[id]` finds a player exactly when `id` is one of the keys. |
| Players.Put | game/maze/server.js:74 | After `players[id] = p`, `id` maps to `p` and every other key maps as before. An existing key keeps its place; a new key goes last. |
| Players.Remove | game/maze/server.js:132 | After `delete players[id]`, `id` maps to nothing, every other key maps as before, and the keys are the old ones minus `id`. |
| Players.LookupAtIndex | game/maze/server.js:104-121 | In a table with distinct keys, `players[id]` for the key at index k is the player at index k, so the key view of the handlers and the enumeration view of `Object.values` agree. |
| Players.PutKeepsUnique | game/maze/server.js:74 | Assignment keeps the keys distinct. |
| Players.RemoveKeepsUnique | game/maze/server.js:142 | Deletion keeps the keys distinct. |
| Players.RemoveKeepsOrder | game/maze/server.js:142-146 | Deleting the k-th key leaves the other entries in their order. |
| Players.AllAtOrigin | game/maze/script.js:274-276 | Same keys in the same order; every player is at the start cell with name and score unchanged. |
| Players.ResetPositions | game/maze/script.js:274-276 | The reset loop yields `AllAtOrigin` of the table. |
| Players.AllRestarted | game/maze/server.js:94-97 | Same keys in the same order; every player is at the start cell with score 0 and the same name. |
| Players.ResetForRun | game/maze/server.js:94-97 | The `startGame` loop yields `AllRestarted` of the table. |
| Players.ResetIsIdempotent | game/maze/script.js:274-276 | Resetting positions twice is resetting once. A freshly restarted table is already reset. |
| Players.Standings | game/maze/server.js:119-121 | One `{name, score}` per player, in key order. |
| Players.Insert | game/maze/server.js:120 | Inserting into the sorted prefix adds exactly one entry (as a multiset). |
| Players.InsertBounded | game/maze/server.js:120 | Insertion adds no entry better than a bound that the inserted entry and the list respect. |
| Players.InsertKeepsOrder | game/maze/server.js:120 | Inserting into a list sorted best-first keeps it sorted. |
| Players.Ranked | game/maze/server.js:119-120 | The sort yields a best-first list that is a permutation of its input. |
| Players.InsertKeepsTies | game/maze/server.js:120 | Insertion puts the new entry ahead of the entries with its own score. |
| Players.RankedIsStable | game/maze/server.js:120 | Players with equal scores keep their join order in the leaderboard. |
| Players.Leaderboard | game/maze/server.js:119-121 | The leaderboard is sorted best-first and is a permutation of the players' names and scores. |
| RoomServer.AfterMove | game/maze/server.js:105-118 | The room after a member's move: keys and their order, host, level count, layouts and view stay, and the level stays or goes up by one. |
| RoomServer.MoveReport | game/maze/server.js:106-123 | The announcement is a plain move exactly when the position is off the goal; it is never a throw or an ignored move. |
| RoomServer.MoveTouchesOnlyMover | game/maze/server.js:102-106 | Off the goal, a move changes only the mover's position. Keys, level and every other player stay. |
| RoomServer.GoalScoresMoverOnly | game/maze/server.js:109-110 | On the goal cell (or beyond it), the mover's score rises by exactly one. Other scores and all names stay. |
| RoomServer.GoalOpensNextLevel | game/maze/server.js:112-116 | Reaching the goal before the last level advances the level, sends everyone back to the start and reports `nextLevel`. |
| RoomServer.GoalOnLastLevelRanks | game/maze/server.js:117-123 | Reaching the goal on the last level keeps the level and the other positions. It reports a leaderboard sorted best-first that is a permutation of the players' standings. |
| RoomServer.AfterMoveKeepsUnique | game/maze/server.js:105-115 | A move keeps the room's keys distinct. |
| RoomServer.Departed | game/maze/server.js:141-149 | After the connection leaves a room, no player is stored under its id and every other id finds what it found before. Level, level count and layouts stay, and the host changes only if it was the one leaving. |
| RoomServer.Disconnected | game/maze/server.js:138-156 | The table after a disconnect holds only codes that were there before, and no room in it lists the connection. |
| RoomServer.DisconnectLeavesNoTrace | game/maze/server.js:138-156 | Afterwards no room lists the connection, and exactly the rooms it was the last player of are deleted. Rooms it was not in are unchanged; surviving rooms it was in still have players. |
| RoomServer.HostPassesToFirstRemaining | game/maze/server.js:145-149 | When the host leaves a room that keeps players, the others stay in order and the first of them becomes host. |
| RoomServer.SweepStep | game/maze/server.js:139-155 | One iteration of the `for (code in rooms)` loop: rooms without the player are skipped; a room left empty is deleted; otherwise the room is replaced by its departed form. |
| RoomServer.DisconnectedKeepsUnique | game/maze/server.js:138-156 | A disconnect keeps every room's keys distinct. |
| RoomServer.LayoutCount | game/maze/server.js:93 | `Array.from` builds a list of `maxLevels` layouts for a non-negative length and none for a negative one. The count is below 2^32 exactly when `maxLevels` is, which is when `Array.from` does not throw. |
| RoomServer.Registry.constructor | game/maze/server.js:18 | The table starts empty. |
| RoomServer.GeneratedCodeIsOwnKey | game/maze/server.js:21-23 | A code `genCode` can return (at most four digits or capital letters) is never an inherited object member. |
| RoomServer.Registry.CreateRoom | game/maze/server.js:56-68 | The room under the generated code is the creator's: host, only player at the start with 0 points, one level, no layouts, level 0. Any earlier room under that code is replaced, and other rooms stay. |
| RoomServer.Registry.JoinRoom | game/maze/server.js:71-77 | The join succeeds exactly when a room is stored under the code. It throws exactly when no room is stored and the code is an inherited object member; otherwise an unknown code is reported. On failure nothing changes. On success the joiner is stored fresh at the start, with no name or started check, and other rooms stay. |
| RoomServer.Registry.SetView | game/maze/server.js:80-85 | Only the host of an existing room changes its view; otherwise nothing changes. |
| RoomServer.Registry.StartGame | game/maze/server.js:88-99 | Only the host starts a game; otherwise nothing changes. With `maxLevels` of 2^32 or more the handler throws after writing `maxLevels` and level 0, leaving players and layouts as they were. Otherwise the room gets `maxLevels` as sent, level 0, one 25-by-25 maze per level from the corrected generator (none if `maxLevels` is negative) and every player restarted. Other rooms stay. |
| RoomServer.Registry.PlayerMove | game/maze/server.js:102-125 | A move naming an inherited object member throws, and one to another unknown room or from a non-member is ignored; none of these changes anything. Otherwise the room becomes `AfterMove` and the announcement is `MoveReport`, whose properties are the lemmas above. |
| RoomServer.Registry.MoveInRoom | game/maze/server.js:105-123 | The imperative handler body computes exactly its specification, `AfterMove` and `MoveReport`. |
| RoomServer.Registry.Kick | game/maze/server.js:128-135 | The branch runs exactly when the sender hosts the room and the target is a player or an inherited object member. Then the target is deleted, which changes nothing for a target that is not a player. Otherwise nothing changes. |
| RoomServer.Registry.Disconnect | game/maze/server.js:138-156 | The loop over all rooms ends in `Disconnected` of the old table and keeps every room's keys distinct. |
| ClientMirror.Client.constructor | game/maze/script.js:7-14 | The page starts with no players, level 0 and no layouts. |
| ClientMirror.Client.ResetPositions | game/maze/script.js:274-276 | Every player goes to the start cell; nothing else changes. |
| ClientMirror.Client.OnGameStarted | game/maze/script.js:253-259 | The page takes the server's table with positions reset and goes to level 0; layouts stay. |
| ClientMirror.Client.OnNextLevel | game/maze/script.js:260-265 | The level goes up by one and positions are reset; layouts stay. |
| ClientMirror.Client.StartPlay | game/maze/script.js:237-245 | A solo game gets one 25-by-25 layout from the corrected generator and the single player "You" under key "me" at the start with 0 points. Any game starts at level 0 with positions reset, and a multiplayer game keeps its layouts. |
| Redirect.Decide | redirect.js:122-162 | The routing decision, with the `web` key looked up among the configured departments only. A redirect happens only on a department page and goes to the error page with `from` set to the full URL. Opening the doors or returning happens only on the error page or 404.html. Returning needs `globalClose` and goes to the original URL. Any other page gets no action. |
| Redirect.DecideAsWritten | redirect.js:122-132 | The decision as written differs from `Decide` only on a department page whose `web` key is an inherited object member naming no department; there it redirects to the error page. |
| Redirect.SectionNamed | redirect.js:123 | A section is found exactly when some configured department has the key as its name, and the one found has that name. |
| Redirect.LastSegment | redirect.js:32 | The part after the last `/`: it holds no `/`, is a suffix of the path, and is preceded by `/` when shorter than the path. |
| Redirect.FirstMatchFrom | redirect.js:145-152 | The first department from index i whose root URL prefixes the URL; none when no later department matches. |
| Redirect.FirstMatchIsLeast | redirect.js:145-152 | A matching index with no earlier match is the one found. |
| Redirect.Capitalize | redirect.js:148 | Same length, first character upper-cased, the rest unchanged. |
| Redirect.MaintenanceNotice | redirect.js:142-153 | With `globalClose` off, the message is the default and nothing matches. With it on, the loop stops at the first matching department and names it, capitalised; with no match it keeps the default message. |
| Redirect.UnknownKeyDoesNothing | redirect.js:122-124 | In the corrected rule, a `web` key naming no department does nothing; as written, that holds for keys that are not inherited names. |
| Redirect.InheritedKeyRedirects | redirect.js:122-131 | As written, `web=toString` redirects to the error page although no department has that name; the corrected rule does nothing. |
| Redirect.DepartmentRedirectRule | redirect.js:122-132 | A configured department redirects exactly when `globalClose` is off or the department is closed. The target is the error page with `from` set to the full URL, and the error-page branch is never reached. |
| Redirect.ErrorBranchOnlyOnErrorPages | redirect.js:134-163 | Opening doors or returning happens exactly on the error page or 404.html without a department key. |
| Redirect.ErrorPageDefault | redirect.js:136-162 | Without `globalClose` or without a matching department, the error page shows the default message and opens the doors. |
| Redirect.ErrorPageNamesFirstMatch | redirect.js:144-159 | With `globalClose`, the message names the first matching department. The page returns to the original URL exactly when that department is open and its name is not empty. |
| Redirect.ReturnTargetRule | redirect.js:138-159 | The page returns only when `globalClose` is on and an open department's root URL prefixes the return target. The target is the non-empty `from` parameter, else the page's own URL. |
| AppStore.ReplaceAll | camcookie-appstore.py:33 | Python's `str.replace` without a count: replacing the pattern by itself gives the string back. The full behaviour is stated by the lemmas below. |
| AppStore.NoMatchInTail | camcookie-appstore.py:33 | An occurrence-free prefix stays occurrence-free without its first character. |
| AppStore.ReplaceUnchanged | camcookie-appstore.py:33 | A string without the placeholder is left unchanged by `replace`. |
| AppStore.NoHomeVariableLeft | camcookie-appstore.py:33 | When the home directory is an absolute path without `$`, no `$HOME` remains after `replace`. |
| AppStore.ReplaceSplicesFirst | camcookie-appstore.py:33 | `replace` puts the replacement in place of the leftmost occurrence, keeps what precedes it and goes on after it. |
| AppStore.HomeReplacedByHome | camcookie-appstore.py:31-34 | In a command with no `$` before its first `$HOME`, that `$HOME` becomes the home directory, the text before it is kept and the rest is expanded. |
| AppStore.ExpandHome | camcookie-appstore.py:31-34 | Non-strings come back unchanged, and strings stay strings. A string without `$HOME` is unchanged, and with a valid home no `$HOME` remains. |
| AppStore.ExpandList | camcookie-appstore.py:36-37 | Same length, and each position holds the expansion of the command at that position. |
| AppStore.FirstFailure | camcookie-appstore.py:68-69 | The least index from `from` on whose command fails, or `n` when all succeed. |
| AppStore.RunCommands | camcookie-appstore.py:68-69 | Success exactly when every command exits with 0. The commands run are all of them, or those up to and including the first failure. |
| AppStore.FirstWithId | camcookie-appstore.py:124-128 | The first catalog index with the given id; none when no entry has it. |
| AppStore.FindSelf | camcookie-appstore.py:123-131 | The search finds nothing exactly when no entry has id "appstore"; otherwise it finds the first such entry. |
| AppStore.Store.constructor | camcookie-appstore.py:169 | The table is the one loaded at start-up. |
| AppStore.Store.InstallApp | camcookie-appstore.py:66-79 | The expanded commands run in order until one fails. The version is recorded under the app's id only when all succeed; other entries stay, and on failure the table is unchanged. |
| AppStore.Store.HandleInstall | camcookie-appstore.py:92-119 | With no recorded version it always installs. With the same version it never asks or installs, and the table is unchanged. With a different version it asks, and installs exactly on yes. Afterwards the app is recorded at the catalog version exactly when it already was or the install succeeded. |
| AppStore.Store.CheckSelfUpdate | camcookie-appstore.py:123-158 | No entry with id "appstore" does nothing. Otherwise the first such entry is compared with the recorded "appstore" version; a missing record counts as different. When they are equal nothing runs. Otherwise the commands run: success records the new version and restarts, failure leaves the table and exits. |

## Left out

- Sockets, rooms as broadcast groups, and every `emit`: the model returns what a handler announces, but not who receives it.
- `genCode` and `Math.random` are inputs (the room code, and a shuffle per carved cell), so the random distribution is not modelled.
- The client's canvas, keyboard, timer, splash screen, settings and lobby, and `playerMove` on the client, are not modelled.
- `redirect.js`:
  - `animateDoors`, the style injection and the DOM updates are outside the decision; the model returns the action.
  - URL parsing is left out: the page's name, `from` parameter and `web` key are inputs. The error page's path is a configuration field.
  - Query encoding of the redirect target is left out; the model keeps the parameter and value.
- Redirect.Capitalize: upper-cases ASCII letters only; JavaScript's full Unicode case mapping is not modelled.
- Departments are kept in the order they are written. JavaScript enumerates integer-like keys first; such department names are not modelled, and neither are two departments with one name.
- The app store's window, dialogs, `subprocess`, `urllib`, file reads and writes, `create_files`, `launch_app`, `sys.exit` and `os.execv`. The outcomes (answer, exit statuses) are inputs, and `Exit`/`Restart` name the ending.
- AppStore.Store.InstallApp: a failing `save_local_versions` (the record is kept in memory and an error is shown) is not modelled.
- AppStore.NoHomeVariableLeft: needs an absolute home directory without `$`. Other home strings can recreate `$HOME` (home `HOME` and command `$$HOME` give `$HOME`).
- Missing keys in catalog entries and version values that are not strings are not modelled: the app store raises `KeyError` or compares JSON values; versions are strings here.
- Malformed socket payloads, such as missing fields or non-numeric positions, are not modelled; positions are integer pairs.
- RoomServer.Registry.StartGame: `maxLevels` is an integer here. The page's own client sends `parseInt`'s integer, but another client can send a fraction. A fractional value makes `Array.from` build `floor(maxLevels)` layouts while `room.maxLevels` keeps the fraction, so the level check of `playerMove` can advance one level past the last layout. This is not modelled.
- Maze.Generate requires at least one row and one column. With no rows the source throws on `vis[0][0]`; with rows but no columns it returns an empty wall list. Every caller passes 25 by 25.
- RoomServer.Registry.StartGame: the layouts come from the corrected generator (`Maze.Generate`). The code as written shares `dirs`, so a layout's open lattice (every lattice cell carved) is not what the program guarantees. Order, bounds, an open origin and walled odd-odd cells hold for the as-written generator too (SharedDirs.GenerateShared).
- ClientMirror.Client.StartPlay: the solo layout comes from `Maze.Generate`, with the same gap as `StartGame`.
- What happens after a handler throws (whether the server process or the socket survives) is not modelled. The model reports the throw and the table as the throw leaves it. `JoinRoom` and `PlayerMove` leave it unchanged. `StartGame` keeps the `maxLevels` and level 0 it had already written.
- Socket ids are assumed never to be inherited object member names; socket.io generates 20-character ids.
- SharedDirs.CarveShared: states only that cells are added, not which; the full behaviour is given by its definition and shown by the 3-by-5 run.
- SharedDirs.GenerateShared: does not promise that every lattice cell is open, which fails (Findings).
- Two rooms cannot share one object: room records are values in the table, which matches the code, since no room is referenced from two places.

## Findings

| source | as written | input that shows it | evidently intended | confidence | as-written member | corrected member |
|---|---|---|---|---|---|---|
| game/maze/script.js:132-142 (same in game/maze/server.js:29-40) | One `dirs` array is shared by all nested `carve` calls. A nested call reshuffles it while the outer `forEach` is still reading it, so the outer call can skip a direction. | A 3-by-5 grid with the shuffles of `SharedDirs.Drawn` at cells (0,0), (0,2), (2,2), (2,4) and (0,4): cell (2, 0) is never carved, and the wall list contains Pos(0, 2). | Each call tries all four directions, so every lattice cell is carved (a perfect maze). | not executed | SharedDirs.SharedDirsLeavesCellWalled | Maze.Generate |
| redirect.js:123-124 | `sections[sectionKey]` also finds names inherited from `Object.prototype`. | A department page with `web=toString`: `sec` is a function, `sec.open` is undefined, and the page is redirected to the error page. | A key that names no department does nothing. | not executed | Redirect.InheritedKeyRedirects | Redirect.UnknownKeyDoesNothing |
