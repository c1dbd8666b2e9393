# Space-Invaders game service — a Dafny model

This project models the core of the game service of a small Space-Invaders web
game:

- the `domain` package's `Game` (services/game-service/internal/domain/game.go):
  creating a game, moving the player, shooting, and the per-tick `Update` with
  its collision test and level generator;
- the `services` package's `GameService`
  (services/game-service/internal/services/game_service.go): the in-memory map
  of sessions, starting a game, dispatching a player request (`move`, `shoot`,
  `update`) to its game, and reading a game back.

It is organised in three modules:

- `GameModel` (game_model.dfy) holds the entities as datatypes: `Position`,
  `GameObject`, a snapshot `GameState` of a game, the three sentinel errors and
  the three statuses.
  - Every operation of a game is a pure function on a snapshot.
  - The tick is an ordered pipeline: bullets up, enemies down, collisions,
    sweep, next level.
  - The file also holds the invariant `Inv` that every reachable game keeps,
    and the lemmas about all of these.
- `Domain` (game.dfy) holds the class `Game`, whose fields its methods update
  in place with the source's own loops.
  - Each method is proved to leave the object in the state the matching
    `GameModel` function computes.
  - `Update` runs its stages as separate methods, in the source's order, and
    returns early when the game is lost.
- `Services` (game_service.dfy) holds the class `GameService` over a
  `map<string, Domain.Game>`.
  - `Perform` specifies a single request, which is the action and then one tick.
  - `Replay` specifies a session's lifetime as a sequence of requests.
  - The lemmas prove that score and level never fall, that a finished game is
    frozen, and that `Won` is never reached.

Some behaviour of the code is not what its own names and comments suggest.
The model follows the code:

- The movement guard looks at the position before the step, so the player
  reaches x = −15 and x = 785, although the guard's bounds are 0 and 780.
  `SpawnWalksPastTheEdges` proves this.
- The level generator lays out 9 + (new level) enemies, counting the level
  after the increment at game.go:175.
- Every bullet is created with the identifier "bullet".
- The first level's layout is not the generator's layout: `FirstLevelIsNotAFormation`.
- `StatusWon` is declared, and the service tests for it after each tick. But
  the block commented "Check win condition" (game.go:157-167) only starts the
  next level, and no code sets `StatusWon`.

## Model

| member | source | states |
|---|---|---|
| GameModel.Decimal | services/game-service/internal/domain/game.go:189 | the `%d` rendering of an enemy number is a non-empty string of decimal digits |
| GameModel.DecimalSpells | services/game-service/internal/domain/game.go:189 | those digits spell the number, most significant first, and begin with '0' only for 0 |
| GameModel.DecimalInjective | services/game-service/internal/domain/game.go:189 | different numbers render differently |
| GameModel.EnemyId | services/game-service/internal/domain/game.go:189 | an enemy id is "enemy" followed by at least one more character |
| GameModel.EnemyIdSpells | services/game-service/internal/domain/game.go:189 | after the "enemy" prefix, an enemy id is decimal digits spelling its number, with no leading zero |
| GameModel.EnemyIdInjective | services/game-service/internal/domain/game.go:189 | "enemy"+n identifies n: two enemy ids are equal only when their numbers are |
| GameModel.NewGame | services/game-service/internal/domain/game.go:45-66 | a new game has the requested id and satisfies the reachable-state invariant (score 0, level 1, not won, player on the spawn row, nine enemies, no bullets) |
| GameModel.NewGameLayout | services/game-service/internal/domain/game.go:45-66 | score 0, level 1, Active, no bullets, the player live at (385, 550), nine live enemies "enemy1".."enemy9", the first five at y = 50, x = 100..500, and four at y = 100, x = 150..450 |
| GameModel.FirstLevelIsNotAFormation | services/game-service/internal/domain/game.go:51-61 | the first level's hand-written layout differs from what the level generator would lay out for nine enemies |
| GameModel.MovePlayer | services/game-service/internal/domain/game.go:68-87 | succeeds iff the game is active and the direction is "left" or "right"; otherwise GameOver when not active, else InvalidMove. On success only the player's x changes: −20 exactly when moving left from x > 0, +20 exactly when moving right from x < 780, and otherwise not at all |
| GameModel.MovePlayerKeepsRange | services/game-service/internal/domain/game.go:73-81 | a move keeps the player strictly between −20 and 800 |
| GameModel.MovePlayerKeepsInv | services/game-service/internal/domain/game.go:68-87 | a move preserves the reachable-state invariant |
| GameModel.WalkLeft | services/game-service/internal/domain/game.go:74-77 | k+1 left presses from x = 5+20k end at x = −15 |
| GameModel.WalkRight | services/game-service/internal/domain/game.go:78-81 | k+1 right presses from x = 765−20k end at x = 785 |
| GameModel.SpawnWalksPastTheEdges | services/game-service/internal/domain/game.go:73-81 | from the spawn point, twenty presses reach x = −15 and x = 785, outside [0, 780] |
| GameModel.Shoot | services/game-service/internal/domain/game.go:89-102 | fails with GameOver iff the game is not active; otherwise it appends exactly one live bullet "bullet" at (player x, player y − 10) and changes nothing else |
| GameModel.ShootKeepsInv | services/game-service/internal/domain/game.go:89-102 | shooting preserves the reachable-state invariant |
| GameModel.CountNoneActive | services/game-service/internal/domain/game.go:157-164 | no live object is counted iff every object is inactive |
| GameModel.AdvanceBullets | services/game-service/internal/domain/game.go:109-119 | the bullet stage never adds bullets, and every bullet it keeps is live at y ≥ 0 |
| GameModel.AdvanceBulletsMembers | services/game-service/internal/domain/game.go:109-119 | a bullet survives the stage exactly when it was live with y ≥ 15, and it survives moved up by 15 |
| GameModel.AdvanceBulletsInOrder | services/game-service/internal/domain/game.go:109-119 | the stage keeps the survivors in their original order: the k-th bullet kept is the k-th live bullet with y ≥ 15, moved up by 15 |
| GameModel.FirstCrossing | services/game-service/internal/domain/game.go:121-131 | the index of the first live enemy that one step down takes below y = 550, or the length when there is none |
| GameModel.Descend | services/game-service/internal/domain/game.go:121-131 | after the descent loop visits its first n slots, only the live enemies among those have moved, each down by exactly 1. No id, live flag or x changes, and the length is kept |
| GameModel.Abs | services/game-service/internal/domain/game.go:199-204 | the result is non-negative and equals x or −x |
| GameModel.CheckCollision | services/game-service/internal/domain/game.go:170-172 | two objects collide iff they are less than 30 apart on both axes |
| GameModel.FirstHit | services/game-service/internal/domain/game.go:135-145 | the index of the first live enemy a bullet overlaps, or the length when there is none |
| GameModel.ResolveBullet | services/game-service/internal/domain/game.go:135-145 | one bullet's turn keeps both list lengths and adds 0 or 10 points |
| GameModel.ResolveBulletTakesFirstHit | services/game-service/internal/domain/game.go:135-145 | in one bullet's turn, exactly the first live enemy within 30 on both axes is switched off and no other enemy changes. If there is one, the bullet is switched off and 10 points are scored; if not, nothing changes |
| GameModel.Resolve | services/game-service/internal/domain/game.go:133-146 | the collision stage keeps both list lengths and never lowers the score |
| GameModel.ResolveOnlySwitchesOff | services/game-service/internal/domain/game.go:133-146 | collisions only switch objects off and never move them; bullets not yet visited are untouched |
| GameModel.ResolveBulletAccounting | services/game-service/internal/domain/game.go:136-144 | one bullet's turn either misses, or switches off the bullet and exactly one live enemy and adds 10 points |
| GameModel.ResolveAccounting | services/game-service/internal/domain/game.go:133-146 | over the whole stage, the score rises by 10 per spent bullet and the live-enemy count falls by the same number |
| GameModel.ResolveBulletDisarms | services/game-service/internal/domain/game.go:134-145 | after a bullet's turn, neither it nor any earlier live bullet overlaps a live enemy |
| GameModel.ResolveNoOverlap | services/game-service/internal/domain/game.go:133-146 | after the stage, no bullet still live overlaps a live enemy |
| GameModel.Sweep | services/game-service/internal/domain/game.go:148-155 | the sweep keeps only live bullets, each taken from the input |
| GameModel.SweepCount | services/game-service/internal/domain/game.go:148-155 | the sweep keeps exactly as many bullets as were live |
| GameModel.SweepInOrder | services/game-service/internal/domain/game.go:148-155 | the sweep keeps the live bullets in their original order: the k-th bullet kept is the k-th live one |
| GameModel.Formation | services/game-service/internal/domain/game.go:182-193 | the generator lays out max(0, count) enemies |
| GameModel.FormationIdsDistinct | services/game-service/internal/domain/game.go:185-193 | generated enemies have pairwise distinct ids |
| GameModel.NextLevel | services/game-service/internal/domain/game.go:174-197 | the next level is one level up with 50 more points, the player back at (385, 550), no bullets, every enemy live, and id and status kept |
| GameModel.NextLevelLayout | services/game-service/internal/domain/game.go:174-197 | level +1, score +50, player back at (385, 550), bullets cleared, 9 + new-level live enemies at (100 + 100·(i mod 5), 50 + 50·(i div 5)) with distinct ids; id and status kept |
| GameModel.Update | services/game-service/internal/domain/game.go:104-168 | a tick keeps the id and never lowers the score or the level; it does nothing to a finished game; the only status change is Active to Lost |
| GameModel.FinishedGameIsFrozen | services/game-service/internal/domain/game.go:104-107 | on a game that is not active, the tick is the identity, and move and shoot fail with GameOver |
| GameModel.UpdateLosesIff | services/game-service/internal/domain/game.go:121-131 | a tick loses the game iff some live enemy is one step from crossing y = 550 |
| GameModel.UpdateLevelsUpIff | services/game-service/internal/domain/game.go:157-167 | a tick raises the level iff it does not lose and no enemy is left live after the collision stage |
| GameModel.UpdateOnLoss | services/game-service/internal/domain/game.go:121-131 | on a losing tick, score, level, player and every enemy's live flag are unchanged and the bullets have moved. Live enemies up to the first crossing one have moved down one step, and every enemy after it is untouched |
| GameModel.CollideAccounting | services/game-service/internal/domain/game.go:133-155 | in a tick that does not lose, every bullet removed by the sweep cost exactly one live enemy and scored 10 |
| GameModel.UpdateScoring | services/game-service/internal/domain/game.go:104-168 | in a tick that neither loses nor levels up, the score rises by 10 per bullet spent on an enemy, and the live-enemy count falls by as many. Every enemy keeps its id and each live one moved down by 1, and the player is unchanged |
| GameModel.UpdateLevelUp | services/game-service/internal/domain/game.go:157-197 | a tick that clears the field destroyed every enemy that was live (10 points each), then adds 50 and one level. It resets the player, clears the bullets and lays out 9 + level enemies |
| GameModel.UpdateLeavesNoOverlap | services/game-service/internal/domain/game.go:133-155 | after a tick that keeps the game going, no remaining bullet overlaps a live enemy |
| GameModel.UpdateKeepsInv | services/game-service/internal/domain/game.go:104-168 | a tick preserves the reachable-state invariant |
| Domain.Game.constructor | services/game-service/internal/domain/game.go:45-66 | a new object holds exactly the state NewGame describes |
| Domain.Game.MovePlayer | services/game-service/internal/domain/game.go:68-87 | updates the player in place as GameModel.MovePlayer describes, returning its error and leaving the game unchanged on failure |
| Domain.Game.Shoot | services/game-service/internal/domain/game.go:89-102 | appends the bullet in place as GameModel.Shoot describes, returning its error and leaving the game unchanged on failure |
| Domain.Game.Update | services/game-service/internal/domain/game.go:104-168 | the object ends in the state GameModel.Update computes from its state before the call |
| Domain.Game.MoveBullets | services/game-service/internal/domain/game.go:109-119 | the bullet list becomes AdvanceBullets of the old list |
| Domain.Game.MoveEnemies | services/game-service/internal/domain/game.go:121-131 | returns whether some live enemy crossed. Enemies up to and including the first crossing one are lowered (all of them when none crosses), and only then is the status Lost |
| Domain.Game.CheckCollisions | services/game-service/internal/domain/game.go:133-146 | bullets, enemies and score become Resolve over all bullets of the old ones |
| Domain.Game.RemoveInactiveBullets | services/game-service/internal/domain/game.go:148-155 | the bullet list becomes Sweep of the old list |
| Domain.Game.AllEnemiesDestroyed | services/game-service/internal/domain/game.go:157-164 | true iff no enemy is live |
| Domain.Game.NextLevel | services/game-service/internal/domain/game.go:174-197 | the object ends in the state GameModel.NextLevel computes |
| Services.Perform | services/game-service/internal/services/game_service.go:54-74 | a request on a found game either fails with GameOver or InvalidMove, or keeps the id and never lowers score or level |
| Services.FailedActionSkipsTick | services/game-service/internal/services/game_service.go:54-71 | an unknown action fails with InvalidMove; a failed move or shoot returns its own error, and no tick is run |
| Services.SuccessIsActionThenOneTick | services/game-service/internal/services/game_service.go:54-74 | a successful request used one of the three actions, and its result is that action followed by exactly one tick |
| Services.TickAlwaysAccepted | services/game-service/internal/services/game_service.go:62-74 | "update" always succeeds with one tick, and on a finished game returns it unchanged |
| Services.PerformKeepsInv | services/game-service/internal/services/game_service.go:54-74 | a successful request preserves the reachable-state invariant |
| Services.ReplayKeepsInv | services/game-service/internal/services/game_service.go:45-91 | any sequence of requests on a reachable game leaves it reachable |
| Services.ReplayNeverDecreases | services/game-service/internal/services/game_service.go:45-91 | over any sequence of requests the id is kept and score and level never fall |
| Services.FinishedGameStaysFinished | services/game-service/internal/services/game_service.go:45-91 | once a game is not active, no sequence of requests changes it |
| Services.WonIsUnreachable | services/game-service/internal/services/game_service.go:76-82 | no sequence of requests on a new game ever reaches the status Won |
| Services.Dispatch | services/game-service/internal/services/game_service.go:54-74 | the action switch changes the game exactly as Perform says, or returns Perform's error and leaves the game unchanged |
| Services.GameService.constructor | services/game-service/internal/services/game_service.go:20-25 | a new service holds no sessions |
| Services.GameService.StartGame | services/game-service/internal/services/game_service.go:27-43 | files a fresh game under the id, replacing any game already there. The new game is in the state NewGame describes, and every other entry is unchanged |
| Services.GameService.MakeMove | services/game-service/internal/services/game_service.go:45-91 | an unknown id fails with GameNotFound and changes nothing. Otherwise the named game becomes Perform's result and is returned, or Perform's error is returned and the game is left as it was. No other game changes, and the store invariant is kept |
| Services.GameService.GetGameStatus | services/game-service/internal/services/game_service.go:93-103 | returns the game stored under the id, or GameNotFound, and changes nothing |

## Left out

- Concurrency: the service's read-write mutex is not modelled. Requests are treated as happening one at a time, which is all the lock guarantees.
- Services.GameService.StartGame: the session id is a parameter. The 16-hex-digit random id drawn by `generateGameID` from the operating system's random source is not modelled, so two starts with the same id replace each other.
- The creation time `CreatedAt` taken from the clock is not modelled.
- Metrics counters and the logger, including the win/loss logging after a tick, are not modelled. They change no game state.
- HTTP handlers, JSON encoding, configuration, program entry points and the front end are outside this model.
- Error values are modelled as the three constructors of `Error`; their message texts are not.
- GameModel.Update: coordinates and the score are unbounded integers. Go's 64-bit `int` wrap-around is not modelled, since it would need on the order of 10^17 kills or ticks.
- Domain.Game.MoveBullets: the source also decrements y in place on the old bullet slice before replacing it. That slice is dropped, so the model writes the new list only.
- Domain.Game.Update: the source runs its stages inline in one method. The model runs them as separate methods in the same order, with the same early return.
