/**
 * The floor numbering appears in three tables: the architecture's names,
 * the server's names and directories, and the library's floor check and
 * file catalogue. They agree on the floors, and the two name tables agree
 * on the names.
 */
module FloorTables {
  import Architecture
  import Server
  import Catalogs

  lemma FloorTablesAgree()
    ensures Architecture.GetAllFloors() == Server.FLOOR_NAMES
    ensures Architecture.GetAllFloors().Keys == Server.FLOOR_DIRS.Keys
         == Catalogs.LIBRARY_FLOORS.Keys == Catalogs.FLOOR_FILES.Keys
  {
  }

  /** Every floor the server accepts has a name in the architecture, never `"Unknown"`. */
  lemma ServerFloorsAreKnown(floor: int)
    requires floor in Server.FLOOR_DIRS
    ensures Architecture.GetFloor(floor) == Server.FLOOR_NAMES[floor] != Architecture.UNKNOWN
  {
  }
}
