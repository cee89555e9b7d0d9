/**
 * The five-floor architecture: a constant table from floor number to floor
 * name. The instance's `floors` attribute is the class table itself and is
 * never reassigned, so both are the one constant `FLOORS` here.
 */
module Architecture {

  const FLOORS: map<int, string> := map[
    1 := "Foundation",
    2 := "Systems",
    3 := "Networks",
    4 := "Action",
    5 := "Vision"
  ]

  const UNKNOWN: string := "Unknown"

  /** Floor name by number, `"Unknown"` for a number outside the table. */
  function GetFloor(number: int): (name: string)
    ensures 1 <= number <= 5 <==> name != UNKNOWN
    ensures number == 1 ==> name == "Foundation"
    ensures number == 2 ==> name == "Systems"
    ensures number == 3 ==> name == "Networks"
    ensures number == 4 ==> name == "Action"
    ensures number == 5 ==> name == "Vision"
  {
    if number in FLOORS then FLOORS[number] else UNKNOWN
  }

  /** The whole table: exactly the floors 1 to 5. */
  function GetAllFloors(): (floors: map<int, string>)
    ensures floors.Keys == {1, 2, 3, 4, 5}
  {
    FLOORS
  }

  /** Looking a floor up agrees with the whole table, on every key of it. */
  lemma GetFloorAgreesWithTable(number: int)
    ensures number in GetAllFloors() ==> GetFloor(number) == GetAllFloors()[number]
    ensures number !in GetAllFloors() ==> GetFloor(number) == UNKNOWN
  {
  }
}
