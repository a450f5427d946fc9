/** repositories/PakingLotRepository.js: the ordered list of levels and the growth of a level's spots. */
module LevelRepo {
  import opened Wrappers
  import opened Errors
  import opened SpotEntity
  import opened LevelEntity
  import opened SpotRepo

  /** Position of the first non-removed level numbered `levelNumber` at or after slot `from`. */
  function IndexOfLevel(levels: seq<ParkingLevel?>, levelNumber: int, from: nat): (r: Option<nat>)
    ensures r.Some? ==> from <= r.value < |levels| && levels[r.value] != null && levels[r.value].levelNumber == levelNumber
    ensures r.None? ==> forall i :: from <= i < |levels| && levels[i] != null ==> levels[i].levelNumber != levelNumber
    decreases |levels| - from
  {
    if from >= |levels| then None
    else if levels[from] != null && levels[from].levelNumber == levelNumber then Some(from)
    else IndexOfLevel(levels, levelNumber, from + 1)
  }

  /** The spot-append loop of `addVehicleSpot` as written: `i` starts at the level's row count and the
      bound `level.rows.length + noOfSpots` is re-read after every push. Run for at most `fuel` steps,
      the number of spots it pushes. */
  function PushesAsWritten(rowsLength: nat, i: int, noOfSpots: int, fuel: nat): nat
    decreases fuel
  {
    if fuel == 0 || !(i < rowsLength + noOfSpots) then 0
    else 1 + PushesAsWritten(rowsLength + 1, i + 1, noOfSpots, fuel - 1)
  }

  /** As written, a positive count makes the loop push on every step it is given: it never ends. */
  lemma {:induction false} PushesAsWrittenNeverStops(rowsLength: nat, noOfSpots: int, fuel: nat)
    requires noOfSpots > 0
    ensures PushesAsWritten(rowsLength, rowsLength, noOfSpots, fuel) == fuel
    decreases fuel
  {
    if fuel > 0 {
      PushesAsWrittenNeverStops(rowsLength + 1, noOfSpots, fuel - 1);
    }
  }

  /** The level store. A removed level leaves a hole (`null`) in its slot, as `delete` does on a JavaScript array. */
  class PakingLotRepository {
    var levels: seq<ParkingLevel?>
    var autoIncrement: nat
    const spotRepository: SpotRepository

    /** Levels are numbered 1, 2, 3, ... in creation order: the level in slot i is number i + 1. */
    ghost predicate Valid()
      reads this
    {
      && autoIncrement == |levels| + 1
      && forall i :: 0 <= i < |levels| && levels[i] != null ==> levels[i].levelNumber == i + 1
    }

    constructor (spotRepository: SpotRepository)
      ensures Valid() && levels == [] && autoIncrement == 1
      ensures this.spotRepository == spotRepository
    {
      levels := [];
      autoIncrement := 1;
      this.spotRepository := spotRepository;
    }

    /** `addPakingLevel`: appends a new, empty level carrying the next number. */
    method AddPakingLevel() returns (level: ParkingLevel)
      requires Valid()
      modifies this
      ensures Valid() && fresh(level)
      ensures level.levelNumber == old(autoIncrement) == |old(levels)| + 1 && level.rows == []
      ensures levels == old(levels) + [level]
    {
      level := new ParkingLevel(autoIncrement);
      levels := levels + [level];
      autoIncrement := autoIncrement + 1;
    }

    /** `findPakingLevelByLevelNumber`: the level with that number, or nothing. Removed slots are
        skipped (in the source `find` hands a hole to its callback as `undefined`, which throws). */
    function FindPakingLevelByLevelNumber(levelNumber: int): (r: Option<ParkingLevel>)
      reads this
      ensures r.Some? ==> r.value in levels && r.value.levelNumber == levelNumber
      ensures r.None? <==> forall i :: 0 <= i < |levels| && levels[i] != null ==> levels[i].levelNumber != levelNumber
      ensures Valid() ==> (r.Some? <==> 1 <= levelNumber <= |levels| && levels[levelNumber - 1] != null)
    {
      match IndexOfLevel(levels, levelNumber, 0)
      case Some(i) => Some(levels[i])
      case None => None
    }

    /** The levels a call of `AddVehicleSpot` with that number may change: the one it finds, if any. */
    function LevelsNumbered(levelNumber: int): set<ParkingLevel>
      reads this
    {
      set l | l in levels && l != null && l.levelNumber == levelNumber
    }

    /** `#addParkingRow`: creates one spot in the spot store and appends it to the level. */
    method AddParkingRow(level: ParkingLevel, rowNumber: nat, size: SpotSize) returns (spot: Spot)
      requires spotRepository.Valid()
      modifies spotRepository, level
      ensures spotRepository.Valid() && fresh(spot)
      ensures spotRepository.spots == old(spotRepository.spots) + [spot]
      ensures level.rows == old(level.rows) + [spot]
      ensures spot.size == size && spot.level == level.levelNumber && spot.row == rowNumber
      ensures spot.available && spot.vehicle == null
    {
      spot := spotRepository.CreateSpot(size, level.levelNumber, rowNumber);
      level.AddRow(spot);
    }

    /** `addVehicleSpot`: fails if the level is absent; otherwise appends `noOfSpots` new empty spots of
        the given size (none when the count is not positive) to the level and to the spot store, with row
        numbers continuing from the level's current count. The loop runs exactly `noOfSpots` times; the
        source re-reads `level.rows.length` in its bound, which grows with every push, so it never ends. */
    method AddVehicleSpot(levelNumber: int, size: SpotSize, noOfSpots: int) returns (r: Outcome<Error>)
      requires Valid() && spotRepository.Valid()
      modifies spotRepository, LevelsNumbered(levelNumber)
      ensures Valid() && spotRepository.Valid()
      ensures r.Fail? <==> old(FindPakingLevelByLevelNumber(levelNumber)).None?
      ensures r.Fail? ==> r.error == LevelNotFound && spotRepository.spots == old(spotRepository.spots)
      ensures r.Pass? ==>
        |spotRepository.spots| == |old(spotRepository.spots)| + (if noOfSpots > 0 then noOfSpots else 0)
      ensures r.Pass? ==>
        var level := old(FindPakingLevelByLevelNumber(levelNumber)).value;
        var added := spotRepository.spots[|old(spotRepository.spots)|..];
        && spotRepository.spots == old(spotRepository.spots) + added
        && level.rows == old(level.rows) + added
        && forall k :: 0 <= k < |added| ==>
             && fresh(added[k]) && added[k].size == size && added[k].level == level.levelNumber
             && added[k].row == |old(level.rows)| + k && added[k].available && added[k].vehicle == null
    {
      var found := FindPakingLevelByLevelNumber(levelNumber);
      if found.None? {
        return Fail(LevelNotFound);
      }
      var level := found.value;
      ghost var oldSpots := spotRepository.spots;
      var start := |level.rows|;
      var count := if noOfSpots > 0 then noOfSpots else 0;
      var i := start;
      while i < start + count
        invariant start <= i <= start + count
        invariant spotRepository.Valid()
        invariant |spotRepository.spots| == |oldSpots| + (i - start)
        invariant spotRepository.spots[..|oldSpots|] == oldSpots
        invariant level.rows == old(level.rows) + spotRepository.spots[|oldSpots|..]
        invariant forall k :: |oldSpots| <= k < |spotRepository.spots| ==>
                    && fresh(spotRepository.spots[k]) && spotRepository.spots[k].size == size
                    && spotRepository.spots[k].level == level.levelNumber
                    && spotRepository.spots[k].row == start + (k - |oldSpots|)
                    && spotRepository.spots[k].available && spotRepository.spots[k].vehicle == null
      {
        var spot := AddParkingRow(level, i, size);
        i := i + 1;
      }
      assert spotRepository.spots == oldSpots + spotRepository.spots[|oldSpots|..];
      return Pass;
    }

    /** `findAllPakingLevel`: the level slots in creation order, holes included. */
    function FindAllPakingLevel(): (r: seq<ParkingLevel?>)
      requires Valid()
      reads this
      ensures |r| == autoIncrement - 1
      ensures forall i :: 0 <= i < |r| && r[i] != null ==> r[i].levelNumber == i + 1
      ensures forall i, j :: 0 <= i < j < |r| && r[i] != null && r[j] != null ==> r[i].levelNumber < r[j].levelNumber
      ensures forall i :: 0 <= i < |r| ==> (r[i] != null <==> FindPakingLevelByLevelNumber(i + 1).Some?)
      ensures forall i :: 0 <= i < |r| && r[i] != null ==> FindPakingLevelByLevelNumber(i + 1).value == r[i]
    {
      forall i | 0 <= i < |levels| && levels[i] != null
        ensures FindPakingLevelByLevelNumber(i + 1).value == levels[i]
      {
        var found := FindPakingLevelByLevelNumber(i + 1).value;
        var j :| 0 <= j < |levels| && levels[j] == found;
      }
      levels
    }

    /** `removePakingLevelById`: fails on a falsy (0) id and on an empty or missing slot; otherwise
        empties slot `id`. The argument is a slot index, not a level number: slot `id` holds level `id + 1`. */
    method RemovePakingLevelById(id: int) returns (r: Outcome<Error>)
      requires Valid()
      modifies this
      ensures Valid() && autoIncrement == old(autoIncrement)
      ensures id == 0 ==> r == Fail(IdRequired)
      ensures id != 0 && !(0 <= id < |old(levels)| && old(levels)[id] != null) ==> r == Fail(LevelNotFound)
      ensures r.Fail? ==> levels == old(levels)
      ensures r.Pass? <==> 0 < id < |old(levels)| && old(levels)[id] != null
      ensures r.Pass? ==> levels == old(levels)[id := null]
    {
      if id == 0 {
        return Fail(IdRequired);
      }
      if !(0 <= id < |levels|) || levels[id] == null {
        return Fail(LevelNotFound);
      }
      levels := levels[id := null];
      return Pass;
    }
  }
}
