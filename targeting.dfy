// When a character is close enough to a house to work on it (the house's
// "shadow"), and when it gives up on the house it is heading for.
module Targeting {
  import opened GameTypes

  /** defaultShadowSize: how far around a house a character may stand and
      still work on it. */
  const DefaultShadowSize: real := 1.0

  /** One axis of insideOfShadow: an end of the character's span lies strictly
      inside the shadow's span. */
  predicate EndInside(whoMin: real, whoMax: real, shadowMin: real, shadowMax: real)
  {
    (whoMin > shadowMin && whoMin < shadowMax) || (whoMax > shadowMin && whoMax < shadowMax)
  }

  /** insideOfShadow (lines 351-370): the house's rectangle is grown by
      `shadowSize` on every side, and along each axis one end of the
      character's rectangle must lie strictly inside it. */
  predicate InsideOfShadow(shadowSize: real, whoAt: Location, whoType: CharacterType,
                           houseAt: Location, houseType: HouseType)
  {
    var (targetX, targetY) := FloatsFromLocation(houseAt);
    var (whoXMin, whoYMin) := FloatsFromLocation(whoAt);
    var whoXMax := whoXMin + whoType.width as real;
    var whoYMax := whoYMin + whoType.height as real;
    var shadowXMin := targetX - shadowSize;
    var shadowYMin := targetY - shadowSize;
    var shadowXMax := targetX + houseType.width as real + shadowSize;
    var shadowYMax := targetY + houseType.height as real + shadowSize;
    EndInside(whoXMin, whoXMax, shadowXMin, shadowXMax) && EndInside(whoYMin, whoYMax, shadowYMin, shadowYMax)
  }

  /** The open spans [a, b) and [c, d) share a stretch of positive length. */
  predicate SpansOverlap(a: real, b: real, c: real, d: real)
  {
    a < d && b > c
  }

  /** A character inside a shadow overlaps it along both axes. */
  lemma ShadowSound(shadowSize: real, whoAt: Location, whoType: CharacterType, houseAt: Location, houseType: HouseType)
    requires whoType.width >= 0 && whoType.height >= 0
    requires InsideOfShadow(shadowSize, whoAt, whoType, houseAt, houseType)
    ensures var (hx, hy) := FloatsFromLocation(houseAt);
      var (wx, wy) := FloatsFromLocation(whoAt);
      SpansOverlap(wx, wx + whoType.width as real, hx - shadowSize, hx + houseType.width as real + shadowSize) &&
      SpansOverlap(wy, wy + whoType.height as real, hy - shadowSize, hy + houseType.height as real + shadowSize)
  {
  }

  /** Along one axis the end test is the overlap test whenever the
      character's span is shorter than the shadow's. */
  lemma EndInsideExact(whoMin: real, whoMax: real, shadowMin: real, shadowMax: real)
    requires whoMin <= whoMax && whoMax - whoMin < shadowMax - shadowMin
    ensures EndInside(whoMin, whoMax, shadowMin, shadowMax) <==> SpansOverlap(whoMin, whoMax, shadowMin, shadowMax)
  {
  }

  /** So a character narrower and lower than the shadow is inside it exactly
      when the two overlap. */
  lemma ShadowExact(shadowSize: real, whoAt: Location, whoType: CharacterType, houseAt: Location, houseType: HouseType)
    requires 0 <= whoType.width && (whoType.width as real) < houseType.width as real + 2.0 * shadowSize
    requires 0 <= whoType.height && (whoType.height as real) < houseType.height as real + 2.0 * shadowSize
    ensures var (hx, hy) := FloatsFromLocation(houseAt);
      var (wx, wy) := FloatsFromLocation(whoAt);
      InsideOfShadow(shadowSize, whoAt, whoType, houseAt, houseType) <==>
        SpansOverlap(wx, wx + whoType.width as real, hx - shadowSize, hx + houseType.width as real + shadowSize) &&
        SpansOverlap(wy, wy + whoType.height as real, hy - shadowSize, hy + houseType.height as real + shadowSize)
  {
    var (hx, hy) := FloatsFromLocation(houseAt);
    var (wx, wy) := FloatsFromLocation(whoAt);
    EndInsideExact(wx, wx + whoType.width as real, hx - shadowSize, hx + houseType.width as real + shadowSize);
    EndInsideExact(wy, wy + whoType.height as real, hy - shadowSize, hy + houseType.height as real + shadowSize);
  }

  /** A character wider than the shadow that straddles the whole house is
      not inside it, although it covers it: neither of its ends lies inside. */
  lemma WideCharacterMissesShadow()
    ensures !InsideOfShadow(DefaultShadowSize, Location(-2, 0, 0.0, 0.0), CharacterType(1.0, 1.0, 1.0, 5, 1),
                            Location(0, 0, 0.0, 0.0), HouseType(10.0, 1, 1))
  {
  }

  /** The checks of reevaluateTargetHouse (lines 407-433) that send a
      character away from its house: the house is neither planned nor built
      by its culture; it is the character's own house and the character has
      nothing left to build with or the house is complete; or it is another
      culture's house and the character can carry no more. */
  ghost predicate Abandons(who: Character, house: House)
    reads who, house, house.culture
  {
    (house !in house.culture.plannedHouses && house !in house.culture.builtHouses) ||
    (house.culture == who.culture && (who.carrying == 0.0 || house.resourcesLeft >= house.htype.maxResources)) ||
    (house.culture != who.culture && who.carrying >= who.ctype.maxCarry)
  }

  /** reevaluateTargetHouse: clears the character's target exactly when one
      of the abandon checks holds; nothing else changes. */
  method ReevaluateTargetHouse(who: Character)
    requires who.target.Work?
    modifies who`target
    ensures who.target == if old(Abandons(who, who.target.house)) then NoTarget else old(who.target)
  {
    var house := who.target.house;
    label abandon: {
      if house !in house.culture.plannedHouses {
        if house !in house.culture.builtHouses {
          break abandon;
        }
      }
      if house.culture == who.culture {
        if who.carrying == 0.0 {
          break abandon;
        }
        if house.resourcesLeft >= house.htype.maxResources {
          break abandon;
        }
      } else {
        if who.carrying >= who.ctype.maxCarry {
          break abandon;
        }
      }
      return;
    }
    who.target := NoTarget;
  }
}
