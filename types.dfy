// Entities of the simulation: tile locations, character and house types,
// characters, houses and cultures (factions), and what a board cell holds.
// Go's float64 fields are modelled as exact reals.
module GameTypes {

  /** A tile position plus the sub-tile progress along each axis. */
  datatype Location = Location(x: int, y: int, offsetX: real, offsetY: real)

  /** The absolute (fractional) coordinates of a location. */
  function FloatsFromLocation(l: Location): (real, real)
  {
    (l.x as real + l.offsetX, l.y as real + l.offsetY)
  }

  /** Offsets strictly between -1 and 1, as LocationFromFloats leaves them:
      math.Modf splits off a fractional part that keeps the sign of its
      argument, so a coordinate left of or above the origin gets a negative
      offset. */
  predicate OffsetsFractional(l: Location)
  {
    -1.0 < l.offsetX < 1.0 && -1.0 < l.offsetY < 1.0
  }

  /** Per-class constants of a character. */
  datatype CharacterType = CharacterType(
    movePerSec: real, workPerSec: real, maxCarry: real, width: int, height: int)

  /** Per-class constants of a house. */
  datatype HouseType = HouseType(maxResources: real, width: int, height: int)

  /** What a character is heading for; the three kinds the tick dispatches on. */
  datatype Target = NoTarget | GoTo(goal: Location) | Work(house: House)

  /** The content of one board cell: nothing, a character or a house. */
  datatype Occupant = Vacant | Occupied(character: Character) | Sited(house: House)

  class Culture {
    var characters: seq<Character>
    var plannedHouses: set<House>
    var builtHouses: set<House>

    constructor ()
      ensures characters == [] && plannedHouses == {} && builtHouses == {}
    {
      characters := [];
      plannedHouses := {};
      builtHouses := {};
    }
  }

  class Character {
    var carrying: real
    const culture: Culture
    var location: Location
    var target: Target
    const ctype: CharacterType

    /** A character as created at placement: empty-handed and idle. */
    constructor (culture: Culture, location: Location, ctype: CharacterType)
      ensures this.culture == culture && this.location == location && this.ctype == ctype
      ensures carrying == 0.0 && target == NoTarget
    {
      this.carrying := 0.0;
      this.culture := culture;
      this.location := location;
      this.target := NoTarget;
      this.ctype := ctype;
    }
  }

  class House {
    const htype: HouseType
    const culture: Culture
    const location: Location
    var resourcesLeft: real

    /** A house value as a composite literal would build it. */
    constructor (htype: HouseType, culture: Culture, location: Location, resourcesLeft: real)
      ensures this.htype == htype && this.culture == culture && this.location == location
      ensures this.resourcesLeft == resourcesLeft
    {
      this.htype := htype;
      this.culture := culture;
      this.location := location;
      this.resourcesLeft := resourcesLeft;
    }
  }
}
