# World of Strategery: the game core in Dafny

This project models the simulation core of *world-of-strategery*, the Go
package `game`. The game has cultures (factions) whose characters live on a
tile terrain. Each character occupies a rectangle of cells (its footprint). A
character has a target: nothing, a location to walk to, or a house to work
on. Working on one's own culture's house builds it up with the resources
the character carries. Working on another culture's house mines resources
out of it. Every tick visits the cultures in order, and each culture's
characters in order. Each character either moves or works.

The model has one module per concern:

- `GameTypes` (`types.dfy`) holds the entities.
  - `Location`, `CharacterType`, `HouseType`, a character's `Target` and a
    board cell's `Occupant` are datatypes.
  - `Culture`, `Character` and `House` are classes, because the game updates
    their fields in place.
  - A culture's character list is a `seq`, and its planned and built house
    maps are `set`s, since only key presence is ever tested.
- `Terrain` (`terrain.dfy`) holds the board, an `array2<Occupant>` indexed
  `[x, y]`. It also has `isTerrainClear`, the footprint writes, and
  `Placed`, which says exactly the footprint's cells hold the character.
- `ShortMove` (`shortmove.dfy`) is `attemptShortMove`.
  - It places an 8 x 8 search window around the start and the goal.
  - It runs a depth-first search over a 64-slot stack, checking each
    neighbouring tile with `checkAndMark`.
  - It commits the move on the board.
  - `Reachable` (a walk through neighbouring passable tiles in the window)
    is its specification. The search is proved to find the goal exactly
    when the goal is reachable, never to overflow its stack, and always to
    terminate.
  - The branch that would leave the character on an intermediate tile is
    proved unreachable, so there are three outcomes besides the panic:
    offsets copied, moved exactly onto the goal, or nothing changed.
- `Move` (`move.dfy`) is `attemptMove`: rounds of short moves toward a
  waypoint clamped to a few tiles ahead.
  - The clamps are modelled exactly as written. The clamp for a goal 8 or
    more behind along `x` (decreasing `x`) goes 9 tiles back. The clamp for
    a goal ahead along `y` (increasing `y`) only fires above 8. The clamp
    for a goal behind along `y` tests the `x` distance.
  - `RoutePanicsExactly` characterises the goals whose route panics. It
    bounds attemptMove's own first guarantee ("an empty rectangle means the
    goal is reached"): that guarantee holds exactly on the routes that do
    not panic.
- `Economy` (`economy.dfy`) is `mine`, `build` and `rerankHouse`. The
  transfer is the least of three quantities, and the sum of load and stock
  is conserved. With a non-negative interval and work rate, a load and a
  stock that start in bounds stay in bounds.
- `Targeting` (`targeting.dfy`) is `insideOfShadow`, as a pure predicate with
  lemmas relating it to rectangle overlap, and `reevaluateTargetHouse`.
- `Simulation` (`game.dfy`) holds `NewGame`, `AddCharacter` and the
  dispatch loop of `Tick`.
  - The game is a value, as in Go. So a tick with a zero last-update time
    changes nothing, and the update is lost with the copy.
  - Across a whole tick, every character stays on the terrain. If every
    character was placed, every one stays placed. Targets are kept or
    dropped, never replaced. When time moves forward and work rates are
    non-negative, loads and stocks that start in bounds stay in bounds.

Go's panics become returned outcomes (`Panicked`, `panicked`), and the
caller stops at once. `chooseMove` and `LocationFromFloats` are parameters
of the tick.

Some of what the code does is worth stating up front:

- **Short move.** The search is a depth-first search for the goal tile
  alone. The distance budget lives in `chooseMove`'s proposed goal.
- **`build`.** It does no footprint check.
- **`rerankHouse`.** It only drops a house with exactly zero resources from
  the built set.
- **Negative transfers.** Nothing checks the interval, so a negative one
  reverses a transfer (`Economy.NegativeIntervalBreaksLoad`).

## Model

| member | source | states |
|---|---|---|
| GameTypes.Culture.constructor | game/game.go:90-94 | a culture starts with no characters and no planned or built houses |
| GameTypes.Character.constructor | game/game.go:481-485 | a new character has the given culture, location and type, carries nothing and has no target |
| GameTypes.House.constructor | game/game.go:83-88 | a house has the given type, culture, location and resources |
| Terrain.CheckTerrainClear | game/game.go:130-148 | true exactly when the rectangle is within the terrain and every cell in it is empty or holds `who` |
| Terrain.Fill | game/game.go:281-295 | every cell of the rectangle holds the value afterwards; every other cell keeps its old value |
| ShortMove.WindowOrigin | game/game.go:182-197 | for a distance under 8, the 8-wide window placed along an axis contains both the start and the goal |
| ShortMove.CheckAndMark | game/game.go:200-235 | claims a tile exactly when it lies in the window, was not marked, and the footprint there is clear; marks exactly that tile; changes nothing otherwise |
| ShortMove.Expand | game/game.go:254-273 | either claims a neighbour that is passable and was unmarked, marking only it, or changes nothing and every passable neighbour is already marked |
| ShortMove.WindowCard | game/game.go:150-151 | a set of tiles inside the window has at most 64 elements, the stack's capacity |
| ShortMove.PushKeeps | game/game.go:255-270 | pushing a newly claimed, passable neighbour of the top keeps the search state: the stack is a walk from the start, and claimed tiles off the stack have all their passable neighbours claimed |
| ShortMove.PopKeeps | game/game.go:271-272 | popping a top whose passable neighbours are all claimed keeps the search state |
| ShortMove.FoundReachable | game/game.go:246-250 | a stack whose top is the goal is a walk to the goal, so the goal is reachable and its footprint clear |
| ShortMove.ExhaustedUnreachable | game/game.go:246-274 | an empty stack means the claimed tiles are closed under steps, so the goal is not reachable in the window |
| ShortMove.BoxReachable | game/game.go:317-318 | when every tile of the rectangle spanned by start and goal is passable, the goal is reachable |
| ShortMove.StartSearch | game/game.go:237-239 | the search starts with only the start tile marked and on the stack |
| ShortMove.SearchStep | game/game.go:247-273 | one pass keeps the search invariant, and either pushes while claiming one more tile or pops; there is never an overflow, since claimed tiles number at most 64 |
| ShortMove.Search | game/game.go:237-274 | the loop terminates, ending on the goal or on the start; it ends on the goal exactly when the goal is reachable inside the window |
| ShortMove.AttemptShortMove | game/game.go:162-307 | same tile: only the goal's offsets are copied. It panics exactly when the goal tile is 8 or more away on some axis. It moves exactly when the goal is reachable: the old footprint is cleared, the new one written on cells that were clear, and the character stands exactly on the goal. Otherwise nothing changes. A placed character stays placed |
| Move.NextGoalPanics | game/game.go:323-341 | the short move toward the clamped waypoint panics exactly when the goal is 8 or more behind on some axis, or exactly 8 ahead along y |
| Move.NextGoalSameTile | game/game.go:323-341 | the waypoint is on the current tile exactly when the goal is, and then it is the goal itself |
| Move.NextGoalStep | game/game.go:320-341 | a waypoint that does not panic lies in the box between position and goal, strictly nearer in tiles and no farther along either axis in tiles; when both locations have offsets strictly between -1 and 1 (as `LocationFromFloats` makes them, negative ones included), the waypoint's offsets are too and it is no farther in exact coordinates either |
| Move.RoutePanicsExactly | game/game.go:322-348 | an unobstructed route panics exactly when the goal is 8 or more behind on some axis, or at least 8 ahead along y with the y distance equal to 1 modulo 7 |
| Move.RouteExamples | game/game.go:322-348 | a goal 14 tiles ahead on both axes is reached; goals 8 behind along x, exactly 8 ahead along y, or 15 ahead along y end in a panic |
| Move.ClearRouteReaches | game/game.go:317-318 | on a route whose box is clear, the next short move reaches its waypoint unless it panics |
| Move.ClearRouteNotBlocked | game/game.go:317-318 | a clear route is never blocked at its next waypoint |
| Move.MoveRound | game/game.go:323-347 | one round never takes the character farther from the goal along either axis. It keeps the footprint on the board, keeps a placed character placed, and takes over only cells that were empty or its own. It panics only on a panicking route. It keeps a clear route clear. A round that leaves the character in place does not panic and ends on the goal or blocked; a round that moves it brings it strictly nearer or onto the goal |
| Move.AttemptMove | game/game.go:313-349 | the loop terminates. The character ends no farther from the goal along either axis, in tiles, and also in exact coordinates when the offsets of the start and the goal lie strictly between -1 and 1. Only cells that end up empty or holding the mover change. It panics only on a panicking route. Without a panic it stops on the goal or where the next short move is blocked. On a clear route it panics exactly when the route does, and otherwise ends exactly on the goal |
| Economy.Transfer | game/game.go:373-381 | the amount moved is at most the work allowed and at most each cap, and equals one of the three |
| Economy.Mine | game/game.go:372-385 | the house loses and the character gains exactly the transfer limited by the work, the house's stock and the room left to carry; the sum of stock and load is conserved |
| Economy.Build | game/game.go:387-399 | the character loses and the house gains exactly the transfer limited by the work, the stock still missing and the load carried; the sum of stock and load is conserved |
| Economy.MineKeepsBounds | game/game.go:372-385 | with non-negative work, mining moves a non-negative amount and keeps load and stock in bounds |
| Economy.BuildKeepsBounds | game/game.go:387-399 | with non-negative work, building moves a non-negative amount and keeps load and stock in bounds |
| Economy.WorkProgresses | game/game.go:373-395 | positive work, with something to take and room to take it, moves a positive amount |
| Economy.NegativeIntervalBreaksLoad | game/game.go:372-385 | with a negative interval, mining puts stock back and leaves an empty-handed character with a negative load |
| Economy.RerankHouse | game/game.go:401-405 | a house with exactly zero resources left leaves its culture's built houses; otherwise they are unchanged |
| Targeting.ShadowSound | game/game.go:351-370 | a character inside the shadow overlaps the grown house rectangle along both axes |
| Targeting.EndInsideExact | game/game.go:360-367 | along one axis, the end test agrees with span overlap when the character is shorter than the shadow |
| Targeting.ShadowExact | game/game.go:351-370 | a character narrower and lower than the shadow is inside it exactly when their rectangles overlap |
| Targeting.WideCharacterMissesShadow | game/game.go:351-370 | a character wider than the shadow that covers the whole house is not inside it |
| Targeting.ReevaluateTargetHouse | game/game.go:407-433 | the target becomes nil exactly when the house is neither planned nor built, or it is the character's own and the character carries nothing or the house is full, or it is foreign and the character can carry no more; nothing else changes |
| Simulation.NewGame | game/game.go:435-454 | the requested number of distinct new empty cultures, a width x height terrain with every cell empty, and a zero last update |
| Simulation.AddCharacter | game/game.go:464-495 | fails, with the terrain untouched, exactly when the footprint is off the terrain or not empty. On success there is a new idle, empty-handed character written into exactly its footprint, with every other cell as it was. The culture's character list is unchanged |
| Simulation.WorkOn | game/game.go:525-531 | builds on one's own culture's house and mines another's, moving exactly the least of the three amounts and conserving the sum of stock and load; the house then leaves the built set if it is empty; with non-negative work, load and stock stay in bounds |
| Simulation.MoveCharacter | game/game.go:517-523 | the mover ends no farther from the goal along either axis; without a panic it stands on the goal or where the next short move is blocked, and it panics only on a panicking route; on a clear route it panics exactly when the route does and otherwise ends on the goal; its footprint stays on the terrain, changed cells end empty or holding the mover, and characters that were all placed all stay placed |
| Simulation.TickCharacter | game/game.go:515-551 | no target: nothing changes. A location target: the load and target are kept, and the character ends no farther from chooseMove's proposal, on it or blocked unless the move panicked. A house target: inside the shadow the character does not move and builds on its own culture's house or mines another's by exactly the least of the three amounts; outside it transfers nothing and moves toward chooseMove's proposal for the house's centre with the same guarantees. The culture's built houses lose the house exactly when it was worked on and is now empty, and otherwise stay as they were. Without a panic the target is then dropped exactly when an abandon check holds. A panic happens only on a panicking route and leaves the target unchanged. Bounds and placement are kept |
| Simulation.TakeTurn | game/game.go:513-551 | one character's turn, stated over the whole cast: for the mover, the same move, transfer, built-house and target clauses as TickCharacter, including that a goto turn keeps its load and target, that an idle turn or work inside the shadow leaves the board unchanged, and that cells change only to empty or to the mover; for everyone, footprints stay on the terrain, placement is kept, targets are kept or dropped, idle characters stay put with their load, cells change only to empty or to a listed character, and with non-negative work loads and stocks stay in bounds |
| Simulation.TickCulture | game/game.go:513-552 | after the turns of one culture's characters: footprints stay on the terrain, placement is kept, targets are kept or dropped, idle characters stay put with their load, cells change only to empty or to a listed character, and with a non-negative interval and work rates in-bounds loads and stocks stay in bounds |
| Simulation.TickCultures | game/game.go:512-553 | after the turns of every culture: the same facts as TickCulture, over all listed characters and the houses they work on |
| Simulation.Tick | game/game.go:502-556 | a zero last update changes nothing. Otherwise, for the interval since the last update: footprints stay on the terrain, placement is kept, targets are kept or dropped, and when time moves forward and work rates are non-negative, in-bounds loads and stocks stay in bounds |

## Left out

- `chooseMove` and `LocationFromFloats` (game/game.go:54-63 and 104-128) are function parameters of the tick. Nothing is proved about the goal they propose.
- Go's `float64` arithmetic is modelled as exact reals: no rounding, no NaN, no infinities.
- Go's `int` is modelled as unbounded: coordinates never come near 64-bit overflow.
- `time.Time` becomes a zero time or an instant in seconds, and `time.Duration` becomes a real interval in seconds. Nanosecond truncation is not modelled.
- Tick's final write of the last update (game/game.go:555) goes to the by-value copy and is lost, so it is not modelled.
- `fmt.Printf` tracing and `DumpTerrain` print only and are not modelled.
- `PlanHouse` only panics and is not modelled. So no house is ever put on the terrain, and the `Sited` occupant only keeps the cell type honest.
- A Go panic, including `log.Panicf` for an unknown target type, becomes a returned outcome that stops the tick. The partially updated state is what remains. An unknown target type cannot occur, since `Target` is a closed datatype.
- `container/list` is a sequence, and `map[*House]bool` is a set. The character lists are not changed during a tick; the built-house set only loses houses, through `rerankHouse`.
- `CharacterType` is referenced through a pointer in Go and modelled as a constant value: nothing changes a character type.
- NewGame: negative sizes, which panic in Go's `make`, are excluded by the `nat` parameters.
- AttemptShortMove, AttemptMove, TickCharacter: require the mover's footprint to lie on the terrain. Without it the commit of a short move, which clears the old footprint, would index outside the board. AddCharacter establishes it and every move keeps it (`Simulation.Tick` ensures `AllInside`).
- Simulation.TickCulture, Simulation.TickCultures, Simulation.Tick: these contracts give the facts kept across all turns, not the combined new state of every character and house after a tick. The order in which cultures and characters take their turns, and the stop at the first panic, are in the bodies only. What one turn does is stated by `Simulation.TakeTurn` and `Simulation.TickCharacter`.
- Simulation.Tick: the bounds on loads and stocks are promised only for non-negative intervals and work rates. A negative interval breaks them, as `Economy.NegativeIntervalBreaksLoad` shows.
- gameloop.go, main.go, server/server.go and the tests are not part of this model.
