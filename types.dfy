/**
  The records the app keeps per user. Money (`balance`, `cost`, `creditsSpent`) is held in
  whole cents; instants (`startTime`, `endTime`, `date`) are instants of the Instants module.
*/
module Types {
  import opened Wrappers

  datatype Vehicle = Vehicle(id: string, plate: string, nickname: string)

  /** The running parking session. */
  datatype ActiveParking = ActiveParking(
    vehicleId: string,
    startTime: int,
    endTime: int,
    totalDurationMinutes: int,
    creditsSpent: int)

  /** One line of the history list: a recharge or a parking session. */
  datatype HistoryEntry = HistoryEntry(
    id: string,
    plate: string,
    date: int,
    duration: string,
    cost: int,
    status: string)

  datatype UserState = UserState(
    balance: int,
    vehicles: seq<Vehicle>,
    activeParking: Option<ActiveParking>,
    history: seq<HistoryEntry>)
}
