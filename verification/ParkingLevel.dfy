/** entities/ParkingLevel.js: a level and its ordered spots. */
module LevelEntity {
  import opened SpotEntity

  /** A level. Its number is fixed; its spots (the source calls them rows) only grow, at the end. */
  class ParkingLevel {
    const levelNumber: nat
    var rows: seq<Spot>

    constructor (levelNumber: nat)
      ensures this.levelNumber == levelNumber && rows == []
    {
      this.levelNumber := levelNumber;
      rows := [];
    }

    /** `addRow`: appends the spot; earlier spots keep their positions. */
    method AddRow(spot: Spot)
      modifies this
      ensures rows == old(rows) + [spot]
      ensures forall k :: 0 <= k < |old(rows)| ==> rows[k] == old(rows)[k]
    {
      rows := rows + [spot];
    }
  }
}
