// The game: its creation, placing characters, and one tick of the
// simulation, which visits every culture and every character in turn and
// lets each move toward its target or work on the house it targets.
module Simulation {
  import opened GameTypes
  import opened Terrain
  import opened ShortMove
  import opened Move
  import opened Economy
  import opened Targeting

  /** time.Time as the tick sees it: the zero time, or an instant in seconds. */
  datatype Time = ZeroTime | At(seconds: real)

  /** Game: the cultures, when the last update happened, and the terrain. */
  datatype Game = Game(cultures: seq<Culture>, lastUpdate: Time, terrain: Board)

  /** A culture as its zero value leaves it: no characters, no houses. */
  ghost predicate EmptyCulture(c: Culture)
    reads c
  {
    c.characters == [] && c.plannedHouses == {} && c.builtHouses == {}
  }

  /** NewGame (lines 435-454): `numCultures` distinct new empty cultures, an
      empty width x height terrain, and the zero time as last update. */
  method NewGame(numCultures: nat, width: nat, height: nat) returns (game: Game)
    ensures |game.cultures| == numCultures && game.lastUpdate == ZeroTime
    ensures forall k :: 0 <= k < numCultures ==> fresh(game.cultures[k]) && EmptyCulture(game.cultures[k])
    ensures forall k, l :: 0 <= k < l < numCultures ==> game.cultures[k] != game.cultures[l]
    ensures fresh(game.terrain) && game.terrain.Length0 == width && game.terrain.Length1 == height
    ensures forall i, j :: 0 <= i < width && 0 <= j < height ==> game.terrain[i, j] == Vacant
  {
    var cultures: seq<Culture> := [];
    while |cultures| < numCultures
      invariant |cultures| <= numCultures
      invariant forall k :: 0 <= k < |cultures| ==> fresh(cultures[k]) && EmptyCulture(cultures[k])
      invariant forall k, l :: 0 <= k < l < |cultures| ==> cultures[k] != cultures[l]
    {
      var c := new Culture();
      cultures := cultures + [c];
    }
    var board := new Occupant[width, height]((i, j) => Vacant);
    game := Game(cultures, ZeroTime, board);
  }

  /** The outcome of AddCharacter: the new character, or CantPlaceCharacterError. */
  datatype Placement = NewCharacter(character: Character) | CantPlaceCharacter(msg: string)

  const CantPlaceMessage := "can't place character, position is occupied or out of bounds"

  /** AddCharacter (lines 464-495): fails, leaving the terrain as it was, when
      the footprint at `loc` is off the terrain or any of its cells is taken;
      otherwise makes an empty-handed, idle character there and writes it
      into exactly its footprint. The culture's list of characters is not
      touched. */
  method AddCharacter(terrain: Board, culture: Culture, ctype: CharacterType, loc: Location)
    returns (result: Placement)
    modifies terrain
    ensures result.CantPlaceCharacter? <==> !old(TerrainClear(Vacant, terrain, loc.x, loc.y, ctype.width, ctype.height))
    ensures result.CantPlaceCharacter? ==> result.msg == CantPlaceMessage && unchanged(terrain)
    ensures result.NewCharacter? ==>
      var c := result.character;
      fresh(c) && c.culture == culture && c.location == loc && c.ctype == ctype &&
      c.carrying == 0.0 && c.target == NoTarget && Placed(terrain, c) &&
      forall i, j :: 0 <= i < terrain.Length0 && 0 <= j < terrain.Length1 ==>
        terrain[i, j] == if InRect(i, j, loc.x, loc.y, ctype.width, ctype.height) then Occupied(c) else old(terrain[i, j])
    ensures culture.characters == old(culture.characters)
  {
    var positionClear := CheckTerrainClear(Vacant, terrain, loc.x, loc.y, ctype.width, ctype.height);
    if !positionClear {
      return CantPlaceCharacter(CantPlaceMessage);
    }
    var character := new Character(culture, loc, ctype);
    Fill(terrain, loc.x, loc.y, ctype.width, ctype.height, Occupied(character));
    return NewCharacter(character);
  }

  /** The house a character works on, if it targets one. */
  function TargetHouse(who: Character): set<House>
    reads who
  {
    if who.target.Work? then {who.target.house} else {}
  }

  /** The culture owning the house a character works on, if any. */
  function TargetCulture(who: Character): set<Culture>
    reads who
  {
    if who.target.Work? then {who.target.house.culture} else {}
  }

  /** The work of one turn inside a house's shadow (lines 525-531): build on
      one's own culture's house, mine another's, then rerank the house. With
      a non-negative interval and work rate the load and the stock stay in
      bounds; a house left empty is no longer among the built houses. */
  method WorkOn(who: Character, house: House, dt: real)
    modifies who`carrying, house`resourcesLeft, house.culture`builtHouses
    ensures who.culture == house.culture ==>
      var t := Transfer(who.ctype.workPerSec * dt, house.htype.maxResources - old(house.resourcesLeft), old(who.carrying));
      house.resourcesLeft == old(house.resourcesLeft) + t && who.carrying == old(who.carrying) - t
    ensures who.culture != house.culture ==>
      var t := Transfer(who.ctype.workPerSec * dt, old(house.resourcesLeft), who.ctype.maxCarry - old(who.carrying));
      house.resourcesLeft == old(house.resourcesLeft) - t && who.carrying == old(who.carrying) + t
    ensures house.resourcesLeft + who.carrying == old(house.resourcesLeft) + old(who.carrying)
    ensures house.culture.builtHouses ==
      if house.resourcesLeft == 0.0 then old(house.culture.builtHouses) - {house}
      else old(house.culture.builtHouses)
    ensures dt >= 0.0 && who.ctype.workPerSec >= 0.0 &&
            old(LoadInBounds(who.carrying, who.ctype.maxCarry)) &&
            old(StockInBounds(house.resourcesLeft, house.htype.maxResources)) ==>
      LoadInBounds(who.carrying, who.ctype.maxCarry) && StockInBounds(house.resourcesLeft, house.htype.maxResources)
  {
    var work := who.ctype.workPerSec * dt;
    if dt >= 0.0 && who.ctype.workPerSec >= 0.0 {
      assert work >= 0.0;
    }
    if who.culture == house.culture {
      Build(who, house, dt);
      if work >= 0.0 && old(LoadInBounds(who.carrying, who.ctype.maxCarry)) &&
         old(StockInBounds(house.resourcesLeft, house.htype.maxResources)) {
        BuildKeepsBounds(old(who.carrying), who.ctype.maxCarry, old(house.resourcesLeft), house.htype.maxResources, work);
      }
    } else {
      Mine(who, house, dt);
      if work >= 0.0 && old(LoadInBounds(who.carrying, who.ctype.maxCarry)) &&
         old(StockInBounds(house.resourcesLeft, house.htype.maxResources)) {
        MineKeepsBounds(old(who.carrying), who.ctype.maxCarry, old(house.resourcesLeft), house.htype.maxResources, work);
      }
    }
    RerankHouse(house);
  }

  /** A move of one character (attemptMove) seen from the board: the mover
      ends no farther from the goal along either axis, on the goal or where
      the next short move is blocked unless it panicked, and it panics only
      on a route that panics. Its footprint stays on the terrain, changed
      cells end empty or holding the mover, and when every character of a
      set was placed, so they all still are: the mover only takes over cells
      that were empty or its own. */
  method MoveCharacter(who: Character, board: Board, goal: Location, ghost placed: set<Character>)
    returns (panicked: bool)
    requires Inside(board, who.location.x, who.location.y, who.ctype.width, who.ctype.height)
    modifies who`location, board
    ensures Inside(board, who.location.x, who.location.y, who.ctype.width, who.ctype.height)
    ensures NoFarther(old(who.location), who.location, goal)
    ensures panicked ==> RoutePanics(old(who.location), goal)
    ensures !panicked ==>
      who.location == goal || ShortMoveBlocked(board, who, who.location, NextGoal(who.location, goal))
    ensures old(RouteClear(board, who, who.location, goal)) ==>
      panicked == RoutePanics(old(who.location), goal) && (!panicked ==> who.location == goal)
    ensures forall i, j :: 0 <= i < board.Length0 && 0 <= j < board.Length1 ==>
      board[i, j] == old(board[i, j]) || Admits(Occupied(who), board[i, j])
    ensures who in placed && (forall w :: w in placed ==> old(Placed(board, w))) ==>
      forall w :: w in placed ==> Placed(board, w)
  {
    panicked := AttemptMove(who, board, goal);
    if who in placed && (forall w :: w in placed ==> old(Placed(board, w))) {
      forall w | w in placed && w != who
        ensures Placed(board, w)
      {
        assert old(Placed(board, w));
        forall i, j | 0 <= i < board.Length0 && 0 <= j < board.Length1
          ensures board[i, j] == Occupied(w) <==> InRect(i, j, w.location.x, w.location.y, w.ctype.width, w.ctype.height)
        {
          assert old(board[i, j] == Occupied(w) <==> InRect(i, j, w.location.x, w.location.y, w.ctype.width, w.ctype.height));
        }
      }
    }
  }

  /** The centre of a house, where a character outside its shadow heads
      (lines 533-537); the conversion from coordinates is a parameter. */
  function WorkTarget(house: House, locationFromFloats: (real, real) -> Location): Location
  {
    var (targetX, targetY) := FloatsFromLocation(house.location);
    locationFromFloats(targetX + house.htype.width as real / 2.0, targetY + house.htype.height as real / 2.0)
  }

  /** One character's turn in Tick (lines 515-551). No target: nothing
      happens. A location: move toward what chooseMove proposes. A house:
      inside its shadow, work on it; outside, move toward its centre; then
      reevaluate the target, unless the move panicked. */
  method TickCharacter(who: Character, board: Board, dt: real,
                       chooseMove: (Location, Location, real, real) -> Location,
                       locationFromFloats: (real, real) -> Location,
                       ghost placed: set<Character>)
    returns (panicked: bool)
    requires Inside(board, who.location.x, who.location.y, who.ctype.width, who.ctype.height)
    modifies who`location, who`carrying, who`target, board
    modifies TargetHouse(who)`resourcesLeft, TargetCulture(who)`builtHouses
    ensures Inside(board, who.location.x, who.location.y, who.ctype.width, who.ctype.height)
    ensures who.target == old(who.target) || who.target == NoTarget
    ensures panicked ==> who.target == old(who.target) && !old(who.target).NoTarget?
    ensures old(who.target).NoTarget? ==>
      who.location == old(who.location) && who.carrying == old(who.carrying) && unchanged(board)
    ensures old(who.target).GoTo? ==> who.carrying == old(who.carrying) && who.target == old(who.target)
    ensures old(who.target).GoTo? ==>
      var goal := chooseMove(old(who.location), old(who.target).goal, who.ctype.movePerSec, dt);
      NoFarther(old(who.location), who.location, goal) &&
      (panicked ==> RoutePanics(old(who.location), goal)) &&
      (!panicked ==> who.location == goal || ShortMoveBlocked(board, who, who.location, NextGoal(who.location, goal)))
    ensures old(who.target).Work? ==>
      var house := old(who.target).house;
      (old(InsideOfShadow(DefaultShadowSize, who.location, who.ctype, house.location, house.htype)) ==>
        who.location == old(who.location) && unchanged(board) &&
        (house.resourcesLeft == 0.0 ==> house !in house.culture.builtHouses)) &&
      (!old(InsideOfShadow(DefaultShadowSize, who.location, who.ctype, house.location, house.htype)) ==>
        who.carrying == old(who.carrying) && house.resourcesLeft == old(house.resourcesLeft)) &&
      (!panicked ==> who.target == if Abandons(who, house) then NoTarget else old(who.target))
    ensures old(who.target).Work? &&
            old(InsideOfShadow(DefaultShadowSize, who.location, who.ctype, who.target.house.location, who.target.house.htype)) ==>
      var house := old(who.target).house;
      (who.culture == house.culture ==>
        var t := Transfer(who.ctype.workPerSec * dt, house.htype.maxResources - old(house.resourcesLeft), old(who.carrying));
        house.resourcesLeft == old(house.resourcesLeft) + t && who.carrying == old(who.carrying) - t) &&
      (who.culture != house.culture ==>
        var t := Transfer(who.ctype.workPerSec * dt, old(house.resourcesLeft), who.ctype.maxCarry - old(who.carrying));
        house.resourcesLeft == old(house.resourcesLeft) - t && who.carrying == old(who.carrying) + t)
    ensures old(who.target).Work? &&
            !old(InsideOfShadow(DefaultShadowSize, who.location, who.ctype, who.target.house.location, who.target.house.htype)) ==>
      var goal := chooseMove(old(who.location), WorkTarget(old(who.target).house, locationFromFloats), who.ctype.movePerSec, dt);
      NoFarther(old(who.location), who.location, goal) &&
      (panicked ==> RoutePanics(old(who.location), goal)) &&
      (!panicked ==> who.location == goal || ShortMoveBlocked(board, who, who.location, NextGoal(who.location, goal)))
    ensures old(who.target).Work? ==>
      var house := old(who.target).house;
      house.culture.builtHouses ==
        if old(InsideOfShadow(DefaultShadowSize, who.location, who.ctype, house.location, house.htype)) &&
           house.resourcesLeft == 0.0
        then old(house.culture.builtHouses) - {house}
        else old(house.culture.builtHouses)
    ensures dt >= 0.0 && who.ctype.workPerSec >= 0.0 && old(LoadInBounds(who.carrying, who.ctype.maxCarry)) &&
            (old(who.target).Work? ==>
              old(StockInBounds(who.target.house.resourcesLeft, who.target.house.htype.maxResources))) ==>
      LoadInBounds(who.carrying, who.ctype.maxCarry) &&
      (old(who.target).Work? ==>
        var house := old(who.target).house;
        StockInBounds(house.resourcesLeft, house.htype.maxResources))
    ensures forall i, j :: 0 <= i < board.Length0 && 0 <= j < board.Length1 ==>
      board[i, j] == old(board[i, j]) || Admits(Occupied(who), board[i, j])
    ensures who in placed && (forall w :: w in placed ==> old(Placed(board, w))) ==>
      forall w :: w in placed ==> Placed(board, w)
  {
    panicked := false;
    match who.target {
      case NoTarget =>
      case GoTo(goal) =>
        var choice := chooseMove(who.location, goal, who.ctype.movePerSec, dt);
        panicked := MoveCharacter(who, board, choice, placed);
      case Work(house) =>
        if InsideOfShadow(DefaultShadowSize, who.location, who.ctype, house.location, house.htype) {
          WorkOn(who, house, dt);
        } else {
          var workTarget := WorkTarget(house, locationFromFloats);
          var choice := chooseMove(who.location, workTarget, who.ctype.movePerSec, dt);
          panicked := MoveCharacter(who, board, choice, placed);
        }
        if !panicked {
          ReevaluateTargetHouse(who);
        }
    }
  }

  /** Every character listed by some culture. */
  function AllCharacters(cultures: seq<Culture>): set<Character>
    reads (set c | c in cultures)`characters
  {
    set c, w | c in cultures && w in c.characters :: w
  }

  /** The houses some of the characters work on. */
  function WorkHouses(chars: set<Character>): set<House>
    reads chars
  {
    set w | w in chars && w.target.Work? :: w.target.house
  }

  function HouseCultures(houses: set<House>): set<Culture>
  {
    set h | h in houses :: h.culture
  }

  predicate WorkRatesNonNegative(chars: set<Character>)
  {
    forall w :: w in chars ==> w.ctype.workPerSec >= 0.0
  }

  /** Every house the characters work on is among `houses`. */
  ghost predicate HousesCovered(chars: set<Character>, houses: set<House>)
    reads chars
  {
    forall w :: w in chars && w.target.Work? ==> w.target.house in houses
  }

  /** Every load and every stock within its bounds. */
  ghost predicate ResourcesInBounds(chars: set<Character>, houses: set<House>)
    reads chars, houses
  {
    (forall w :: w in chars ==> LoadInBounds(w.carrying, w.ctype.maxCarry)) &&
    (forall h :: h in houses ==> StockInBounds(h.resourcesLeft, h.htype.maxResources))
  }

  /** Every footprint on the terrain. */
  ghost predicate AllInside(board: Board, chars: set<Character>)
    reads chars
  {
    forall w :: w in chars ==> Inside(board, w.location.x, w.location.y, w.ctype.width, w.ctype.height)
  }

  /** Every listed character exactly where its footprint says. */
  ghost predicate AllPlaced(board: Board, chars: set<Character>)
    reads board, chars
  {
    forall w :: w in chars ==> Placed(board, w)
  }

  /** One character's turn seen from the whole cast `chars`: what the turn
      does to the mover (the move toward chooseMove's proposal, the exact
      transfer of work, the rerank and the reevaluation of its target), and
      that every character keeps or drops its target, an idle one stays put
      with its load, and footprints and placement are kept. */
  method TakeTurn(who: Character, board: Board, dt: real,
                  chooseMove: (Location, Location, real, real) -> Location,
                  locationFromFloats: (real, real) -> Location,
                  ghost chars: set<Character>, ghost houses: set<House>)
    returns (panicked: bool)
    requires who in chars && TargetHouse(who) <= houses
    requires AllInside(board, chars)
    modifies who`location, who`carrying, who`target, board
    modifies TargetHouse(who)`resourcesLeft, TargetCulture(who)`builtHouses
    ensures AllInside(board, chars)
    ensures old(AllPlaced(board, chars)) ==> AllPlaced(board, chars)
    ensures forall w :: w in chars ==> w.target == old(w.target) || w.target == NoTarget
    ensures forall w :: w in chars && old(w.target).NoTarget? ==>
      w.location == old(w.location) && w.carrying == old(w.carrying)
    ensures forall i, j :: 0 <= i < board.Length0 && 0 <= j < board.Length1 ==>
      board[i, j] == old(board[i, j]) || board[i, j] == Vacant ||
      (board[i, j].Occupied? && board[i, j].character in chars)
    ensures dt >= 0.0 && WorkRatesNonNegative(chars) && old(ResourcesInBounds(chars, houses)) ==>
      ResourcesInBounds(chars, houses)
    ensures forall i, j :: 0 <= i < board.Length0 && 0 <= j < board.Length1 ==>
      board[i, j] == old(board[i, j]) || Admits(Occupied(who), board[i, j])
    ensures old(who.target).NoTarget? ||
            (old(who.target).Work? &&
             old(InsideOfShadow(DefaultShadowSize, who.location, who.ctype, who.target.house.location, who.target.house.htype))) ==>
      unchanged(board)
    ensures panicked ==> who.target == old(who.target) && !old(who.target).NoTarget?
    ensures old(who.target).GoTo? ==> who.carrying == old(who.carrying) && who.target == old(who.target)
    ensures old(who.target).GoTo? ==>
      var goal := chooseMove(old(who.location), old(who.target).goal, who.ctype.movePerSec, dt);
      NoFarther(old(who.location), who.location, goal) &&
      (panicked ==> RoutePanics(old(who.location), goal)) &&
      (!panicked ==> who.location == goal || ShortMoveBlocked(board, who, who.location, NextGoal(who.location, goal)))
    ensures old(who.target).Work? &&
            old(InsideOfShadow(DefaultShadowSize, who.location, who.ctype, who.target.house.location, who.target.house.htype)) ==>
      var house := old(who.target).house;
      who.location == old(who.location) &&
      (who.culture == house.culture ==>
        var t := Transfer(who.ctype.workPerSec * dt, house.htype.maxResources - old(house.resourcesLeft), old(who.carrying));
        house.resourcesLeft == old(house.resourcesLeft) + t && who.carrying == old(who.carrying) - t) &&
      (who.culture != house.culture ==>
        var t := Transfer(who.ctype.workPerSec * dt, old(house.resourcesLeft), who.ctype.maxCarry - old(who.carrying));
        house.resourcesLeft == old(house.resourcesLeft) - t && who.carrying == old(who.carrying) + t)
    ensures old(who.target).Work? &&
            !old(InsideOfShadow(DefaultShadowSize, who.location, who.ctype, who.target.house.location, who.target.house.htype)) ==>
      var house := old(who.target).house;
      var goal := chooseMove(old(who.location), WorkTarget(house, locationFromFloats), who.ctype.movePerSec, dt);
      who.carrying == old(who.carrying) && house.resourcesLeft == old(house.resourcesLeft) &&
      NoFarther(old(who.location), who.location, goal) &&
      (panicked ==> RoutePanics(old(who.location), goal)) &&
      (!panicked ==> who.location == goal || ShortMoveBlocked(board, who, who.location, NextGoal(who.location, goal)))
    ensures old(who.target).Work? && !panicked ==>
      who.target == if Abandons(who, old(who.target).house) then NoTarget else old(who.target)
    ensures old(who.target).Work? ==>
      var house := old(who.target).house;
      house.culture.builtHouses ==
        if old(InsideOfShadow(DefaultShadowSize, who.location, who.ctype, house.location, house.htype)) &&
           house.resourcesLeft == 0.0
        then old(house.culture.builtHouses) - {house}
        else old(house.culture.builtHouses)
  {
    panicked := TickCharacter(who, board, dt, chooseMove, locationFromFloats, chars);
  }

  /** The inner loop of Tick (lines 513-552): one culture's characters in
      order; a panic stops it. */
  method TickCulture(culture: Culture, board: Board, dt: real,
                     chooseMove: (Location, Location, real, real) -> Location,
                     locationFromFloats: (real, real) -> Location,
                     ghost chars: set<Character>, ghost houses: set<House>)
    returns (panicked: bool)
    requires forall w :: w in culture.characters ==> w in chars
    requires HousesCovered(chars, houses)
    requires AllInside(board, chars)
    modifies chars`location, chars`carrying, chars`target, board
    modifies houses`resourcesLeft, HouseCultures(houses)`builtHouses
    ensures AllInside(board, chars)
    ensures old(AllPlaced(board, chars)) ==> AllPlaced(board, chars)
    ensures forall w :: w in chars ==> w.target == old(w.target) || w.target == NoTarget
    ensures forall w :: w in chars && old(w.target).NoTarget? ==>
      w.location == old(w.location) && w.carrying == old(w.carrying)
    ensures forall i, j :: 0 <= i < board.Length0 && 0 <= j < board.Length1 ==>
      board[i, j] == old(board[i, j]) || board[i, j] == Vacant ||
      (board[i, j].Occupied? && board[i, j].character in chars)
    ensures dt >= 0.0 && WorkRatesNonNegative(chars) && old(ResourcesInBounds(chars, houses)) ==>
      ResourcesInBounds(chars, houses)
  {
    panicked := false;
    var k := 0;
    while k < |culture.characters|
      invariant 0 <= k <= |culture.characters|
      invariant HousesCovered(chars, houses)
      invariant AllInside(board, chars)
      invariant old(AllPlaced(board, chars)) ==> AllPlaced(board, chars)
      invariant forall w :: w in chars ==> w.target == old(w.target) || w.target == NoTarget
      invariant forall w :: w in chars && old(w.target).NoTarget? ==>
        w.location == old(w.location) && w.carrying == old(w.carrying)
      invariant forall i, j :: 0 <= i < board.Length0 && 0 <= j < board.Length1 ==>
        board[i, j] == old(board[i, j]) || board[i, j] == Vacant ||
        (board[i, j].Occupied? && board[i, j].character in chars)
      invariant dt >= 0.0 && WorkRatesNonNegative(chars) && old(ResourcesInBounds(chars, houses)) ==>
        ResourcesInBounds(chars, houses)
    {
      var who := culture.characters[k];
      panicked := TakeTurn(who, board, dt, chooseMove, locationFromFloats, chars, houses);
      if panicked {
        return;
      }
      k := k + 1;
    }
  }

  /** Every character some culture lists is among `chars`. */
  ghost predicate Listed(cultures: seq<Culture>, chars: set<Character>)
    reads (set c | c in cultures)`characters
  {
    forall c, w :: c in cultures && w in c.characters ==> w in chars
  }

  /** The loops of Tick (lines 512-553): cultures in order, and each
      culture's characters in order, each taking its turn; a panic stops
      the tick. Every footprint stays on the terrain, and if every character
      was placed they all still are; targets are kept or dropped, never
      replaced; idle characters stay put with their load; cells change only
      to empty or to a listed character; with a non-negative interval and
      work rates, loads and stocks stay in bounds. */
  method TickCultures(cultures: seq<Culture>, board: Board, dt: real,
                      chooseMove: (Location, Location, real, real) -> Location,
                      locationFromFloats: (real, real) -> Location,
                      ghost chars: set<Character>, ghost houses: set<House>)
    returns (panicked: bool)
    requires Listed(cultures, chars) && HousesCovered(chars, houses)
    requires AllInside(board, chars)
    modifies chars`location, chars`carrying, chars`target, board
    modifies houses`resourcesLeft, HouseCultures(houses)`builtHouses
    ensures AllInside(board, chars)
    ensures old(AllPlaced(board, chars)) ==> AllPlaced(board, chars)
    ensures forall w :: w in chars ==> w.target == old(w.target) || w.target == NoTarget
    ensures forall w :: w in chars && old(w.target).NoTarget? ==>
      w.location == old(w.location) && w.carrying == old(w.carrying)
    ensures forall i, j :: 0 <= i < board.Length0 && 0 <= j < board.Length1 ==>
      board[i, j] == old(board[i, j]) || board[i, j] == Vacant ||
      (board[i, j].Occupied? && board[i, j].character in chars)
    ensures dt >= 0.0 && WorkRatesNonNegative(chars) && old(ResourcesInBounds(chars, houses)) ==>
      ResourcesInBounds(chars, houses)
  {
    panicked := false;
    var ci := 0;
    while ci < |cultures|
      invariant 0 <= ci <= |cultures|
      invariant HousesCovered(chars, houses)
      invariant AllInside(board, chars)
      invariant old(AllPlaced(board, chars)) ==> AllPlaced(board, chars)
      invariant forall w :: w in chars ==> w.target == old(w.target) || w.target == NoTarget
      invariant forall w :: w in chars && old(w.target).NoTarget? ==>
        w.location == old(w.location) && w.carrying == old(w.carrying)
      invariant forall i, j :: 0 <= i < board.Length0 && 0 <= j < board.Length1 ==>
        board[i, j] == old(board[i, j]) || board[i, j] == Vacant ||
        (board[i, j].Occupied? && board[i, j].character in chars)
      invariant dt >= 0.0 && WorkRatesNonNegative(chars) && old(ResourcesInBounds(chars, houses)) ==>
        ResourcesInBounds(chars, houses)
    {
      var culture := cultures[ci];
      panicked := TickCulture(culture, board, dt, chooseMove, locationFromFloats, chars, houses);
      if panicked {
        return;
      }
      ci := ci + 1;
    }
  }

  /** Tick (lines 502-556). The game arrives by value: at the zero time the
      tick only sets the last update on its own copy and returns, so nothing
      changes, and since that copy is dropped a game made by NewGame never
      gets past this point. Otherwise the interval since the last update
      drives one round of turns. */
  method Tick(game: Game, now: real,
              chooseMove: (Location, Location, real, real) -> Location,
              locationFromFloats: (real, real) -> Location)
    returns (panicked: bool)
    requires AllInside(game.terrain, AllCharacters(game.cultures))
    modifies AllCharacters(game.cultures)`location, AllCharacters(game.cultures)`carrying
    modifies AllCharacters(game.cultures)`target, game.terrain
    modifies WorkHouses(AllCharacters(game.cultures))`resourcesLeft
    modifies HouseCultures(WorkHouses(AllCharacters(game.cultures)))`builtHouses
    ensures game.lastUpdate == ZeroTime ==>
      !panicked && unchanged(game.terrain) && unchanged(AllCharacters(game.cultures)) &&
      unchanged(WorkHouses(AllCharacters(game.cultures))) &&
      unchanged(HouseCultures(WorkHouses(AllCharacters(game.cultures))))
    ensures AllInside(game.terrain, AllCharacters(game.cultures))
    ensures old(AllPlaced(game.terrain, AllCharacters(game.cultures))) ==> AllPlaced(game.terrain, AllCharacters(game.cultures))
    ensures forall w :: w in AllCharacters(game.cultures) ==> w.target == old(w.target) || w.target == NoTarget
    ensures game.lastUpdate.At? && now >= game.lastUpdate.seconds &&
            WorkRatesNonNegative(AllCharacters(game.cultures)) &&
            old(ResourcesInBounds(AllCharacters(game.cultures), WorkHouses(AllCharacters(game.cultures)))) ==>
      ResourcesInBounds(AllCharacters(game.cultures), old(WorkHouses(AllCharacters(game.cultures))))
  {
    if game.lastUpdate == ZeroTime {
      return false;
    }
    var dt := now - game.lastUpdate.seconds;
    ghost var chars := AllCharacters(game.cultures);
    panicked := TickCultures(game.cultures, game.terrain, dt, chooseMove, locationFromFloats, chars, WorkHouses(chars));
  }
}
