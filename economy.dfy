// Work on a house: mining carries resources out of another culture's house,
// building carries them into one's own, and a house mined empty leaves its
// culture's list of built houses.
module Economy {
  import opened GameTypes

  /** The amount one round of work moves: what the work rate allows over the
      interval, cut down to the first cap and then to the second. It is the
      largest amount that exceeds none of the three. */
  function Transfer(wanted: real, cap1: real, cap2: real): (t: real)
    ensures t <= wanted && t <= cap1 && t <= cap2
    ensures t == wanted || t == cap1 || t == cap2
  {
    var t1 := if wanted > cap1 then cap1 else wanted;
    if t1 > cap2 then cap2 else t1
  }

  /** mine (lines 372-385): takes as much as the work allows, no more than the
      house holds and no more than the character has room for. What the house
      loses the character gains. */
  method Mine(who: Character, house: House, dt: real)
    modifies who`carrying, house`resourcesLeft
    ensures var t := Transfer(who.ctype.workPerSec * dt, old(house.resourcesLeft), who.ctype.maxCarry - old(who.carrying));
      house.resourcesLeft == old(house.resourcesLeft) - t && who.carrying == old(who.carrying) + t
    ensures house.resourcesLeft + who.carrying == old(house.resourcesLeft) + old(who.carrying)
  {
    var transfer := who.ctype.workPerSec * dt;
    if transfer > house.resourcesLeft {
      transfer := house.resourcesLeft;
    }
    if transfer > who.ctype.maxCarry - who.carrying {
      transfer := who.ctype.maxCarry - who.carrying;
    }
    house.resourcesLeft := house.resourcesLeft - transfer;
    who.carrying := who.carrying + transfer;
  }

  /** build (lines 387-399): gives as much as the work allows, no more than
      the house still lacks and no more than the character carries. What the
      character loses the house gains. */
  method Build(who: Character, house: House, dt: real)
    modifies who`carrying, house`resourcesLeft
    ensures var t := Transfer(who.ctype.workPerSec * dt, house.htype.maxResources - old(house.resourcesLeft), old(who.carrying));
      house.resourcesLeft == old(house.resourcesLeft) + t && who.carrying == old(who.carrying) - t
    ensures house.resourcesLeft + who.carrying == old(house.resourcesLeft) + old(who.carrying)
  {
    var transfer := who.ctype.workPerSec * dt;
    if transfer > house.htype.maxResources - house.resourcesLeft {
      transfer := house.htype.maxResources - house.resourcesLeft;
    }
    if transfer > who.carrying {
      transfer := who.carrying;
    }
    house.resourcesLeft := house.resourcesLeft + transfer;
    who.carrying := who.carrying - transfer;
  }

  /** The bounds a character's load and a house's stock keep. */
  predicate LoadInBounds(carrying: real, maxCarry: real)
  {
    0.0 <= carrying <= maxCarry
  }

  predicate StockInBounds(left: real, maxResources: real)
  {
    0.0 <= left <= maxResources
  }

  /** Mining with a non-negative amount of work keeps both quantities in
      bounds and moves nothing backwards. */
  lemma MineKeepsBounds(carrying: real, maxCarry: real, left: real, maxResources: real, work: real)
    requires LoadInBounds(carrying, maxCarry) && StockInBounds(left, maxResources) && work >= 0.0
    ensures var t := Transfer(work, left, maxCarry - carrying);
      t >= 0.0 &&
      LoadInBounds(carrying + t, maxCarry) && StockInBounds(left - t, maxResources)
  {
  }

  /** Building with a non-negative amount of work keeps both quantities in
      bounds and moves nothing backwards. */
  lemma BuildKeepsBounds(carrying: real, maxCarry: real, left: real, maxResources: real, work: real)
    requires LoadInBounds(carrying, maxCarry) && StockInBounds(left, maxResources) && work >= 0.0
    ensures var t := Transfer(work, maxResources - left, carrying);
      t >= 0.0 &&
      LoadInBounds(carrying - t, maxCarry) && StockInBounds(left + t, maxResources)
  {
  }

  /** Work makes progress: with some work to do, something to carry and
      something to take or to fill, a positive amount moves. */
  lemma WorkProgresses(work: real, cap1: real, cap2: real)
    requires work > 0.0 && cap1 > 0.0 && cap2 > 0.0
    ensures Transfer(work, cap1, cap2) > 0.0
  {
  }

  /** Nothing checks the interval: a negative one (a clock that went
      backwards) makes mining put stock back and leaves an empty-handed
      character carrying a negative load. */
  lemma NegativeIntervalBreaksLoad()
    ensures var t := Transfer(2.0 * -0.5, 10.0, 5.0 - 0.0);
      t == -1.0 && !LoadInBounds(0.0 + t, 5.0)
  {
  }

  /** rerankHouse (lines 401-405): a house with nothing left is dropped from
      its culture's built houses; otherwise nothing changes. */
  method RerankHouse(house: House)
    modifies house.culture`builtHouses
    ensures house.culture.builtHouses ==
      if house.resourcesLeft == 0.0 then old(house.culture.builtHouses) - {house}
      else old(house.culture.builtHouses)
    ensures house.resourcesLeft == 0.0 ==> house !in house.culture.builtHouses
  {
    if house.resourcesLeft == 0.0 {
      house.culture.builtHouses := house.culture.builtHouses - {house};
    }
  }
}
