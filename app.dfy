/**
  The app's state machine over the signed-in user's state: recharging the wallet, registering a
  vehicle, buying a parking session and ending it. Each handler computes the new state from the
  old one (the functions below) and stores it in the `user` field of AppState, after its guards.

  The history doubles as a ledger: every change of the balance is recorded in it with its
  amount, so `balance - Ledger(history)` never changes.
*/
module App {
  import opened Wrappers
  import opened Text
  import opened Types
  import ParkingUtils

  const WALLET_PLATE: string := "CARTEIRA"
  const NO_PLATE: string := "---"
  const RECHARGE: string := "Recarga"
  const CREDIT_ADDED: string := "Crédito Adicionado"
  const IN_PROGRESS: string := "Em andamento"
  const DONE: string := "Concluído"

  /** The screens of `currentView`. */
  datatype View = Dash | AddVehicleView | BuyCreditsView | Active | HistoryView | Profile | Map | Help | Recharge

  /** `vehicles.find(v => v.id === id)`: the first vehicle with that id, if any. */
  function FindVehicle(vs: seq<Vehicle>, id: string): (r: Option<Vehicle>)
    ensures r.None? <==> forall i :: 0 <= i < |vs| ==> vs[i].id != id
    ensures r.Some? ==> exists i :: 0 <= i < |vs| && vs[i] == r.value && vs[i].id == id
                                    && forall j :: 0 <= j < i ==> vs[j].id != id
  {
    if vs == [] then None
    else if vs[0].id == id then Some(vs[0])
    else
      var r := FindVehicle(vs[1..], id);
      assert forall i :: 1 <= i < |vs| ==> vs[i] == vs[1..][i - 1];
      r
  }

  /** `vehicle?.plate || '---'`: a missing vehicle and an empty plate both show as '---'. */
  function PlateShown(v: Option<Vehicle>): string
  {
    if v.Some? && v.value.plate != "" then v.value.plate else NO_PLATE
  }

  // The new state each handler computes.

  /** The state after `addCredits(amount)`. */
  function Credited(u: UserState, amount: int, entryId: string, date: int): UserState
  {
    u.(balance := u.balance + amount,
       history := [HistoryEntry(entryId, WALLET_PLATE, date, RECHARGE, amount, CREDIT_ADDED)] + u.history)
  }

  /** The state after `addVehicle(plate, nickname)`. */
  function WithVehicle(u: UserState, vehicleId: string, plate: string, nickname: string): UserState
  {
    u.(vehicles := u.vehicles + [Vehicle(vehicleId, ToUpperAscii(plate), nickname)])
  }

  /** The state after a `buyParking` that passed its guard, with the session it created. */
  function Parked(u: UserState, active: ActiveParking, entryId: string, date: int): UserState
  {
    var plate := PlateShown(FindVehicle(u.vehicles, active.vehicleId));
    var duration := IntToString(active.totalDurationMinutes) + " min";
    u.(balance := u.balance - active.creditsSpent,
       activeParking := Some(active),
       history := [HistoryEntry(entryId, plate, date, duration, active.creditsSpent, IN_PROGRESS)] + u.history)
  }

  /** `history.map(...)` of `endParking`: running entries become done, the rest stay as they are. */
  function CloseEntries(h: seq<HistoryEntry>): (r: seq<HistoryEntry>)
    ensures |r| == |h|
    ensures forall i :: 0 <= i < |h| && h[i].status == IN_PROGRESS ==> r[i] == h[i].(status := DONE)
    ensures forall i :: 0 <= i < |h| && h[i].status != IN_PROGRESS ==> r[i] == h[i]
  {
    seq(|h|, i requires 0 <= i < |h| => if h[i].status == IN_PROGRESS then h[i].(status := DONE) else h[i])
  }

  /** The state after `endParking`. */
  function Ended(u: UserState): UserState
  {
    u.(activeParking := None, history := CloseEntries(u.history))
  }

  // What the transitions keep.

  /** The signed amount an entry moved: recharges add their cost, everything else spent it. */
  function EntryAmount(e: HistoryEntry): int
  {
    if e.status == CREDIT_ADDED then e.cost else -e.cost
  }

  /** The total the history says the balance moved by. */
  function Ledger(h: seq<HistoryEntry>): int
  {
    if h == [] then 0 else EntryAmount(h[0]) + Ledger(h[1..])
  }

  lemma CreditedKeepsLedger(u: UserState, amount: int, entryId: string, date: int)
    ensures var r := Credited(u, amount, entryId, date);
            r.balance - Ledger(r.history) == u.balance - Ledger(u.history)
  {
    var r := Credited(u, amount, entryId, date);
    assert r.history[1..] == u.history;
  }

  lemma ParkedKeepsLedger(u: UserState, active: ActiveParking, entryId: string, date: int)
    ensures var r := Parked(u, active, entryId, date);
            r.balance - Ledger(r.history) == u.balance - Ledger(u.history)
  {
    var r := Parked(u, active, entryId, date);
    assert r.history[1..] == u.history;
  }

  lemma {:induction false} CloseEntriesKeepsLedger(h: seq<HistoryEntry>)
    ensures Ledger(CloseEntries(h)) == Ledger(h)
  {
    if h != [] {
      assert CloseEntries(h)[1..] == CloseEntries(h[1..]);
      CloseEntriesKeepsLedger(h[1..]);
    }
  }

  lemma EndedKeepsLedger(u: UserState)
    ensures Ended(u).balance - Ledger(Ended(u).history) == u.balance - Ledger(u.history)
  {
    CloseEntriesKeepsLedger(u.history);
  }

  /** Once a session ends no entry is left running, and ending again changes nothing. */
  lemma EndedClosesEverything(u: UserState)
    ensures forall i :: 0 <= i < |Ended(u).history| ==> Ended(u).history[i].status != IN_PROGRESS
    ensures Ended(Ended(u)) == Ended(u)
  {
    assert CloseEntries(CloseEntries(u.history)) == CloseEntries(u.history);
  }

  /** A running session always has a running entry in the history. */
  predicate SessionRecorded(u: UserState)
  {
    u.activeParking.Some? ==> exists i :: 0 <= i < |u.history| && u.history[i].status == IN_PROGRESS
  }

  lemma TransitionsKeepSessionRecorded(u: UserState, amount: int, active: ActiveParking,
                                       entryId: string, date: int, plate: string, nickname: string)
    requires SessionRecorded(u)
    ensures SessionRecorded(Credited(u, amount, entryId, date))
    ensures SessionRecorded(WithVehicle(u, entryId, plate, nickname))
    ensures SessionRecorded(Parked(u, active, entryId, date))
    ensures SessionRecorded(Ended(u))
  {
    if u.activeParking.Some? {
      var i :| 0 <= i < |u.history| && u.history[i].status == IN_PROGRESS;
      assert Credited(u, amount, entryId, date).history[i + 1] == u.history[i];
    }
    assert Parked(u, active, entryId, date).history[0].status == IN_PROGRESS;
  }

  /** Ending a session just bought closes exactly its entry and keeps the price paid. */
  lemma BuyThenEnd(u: UserState, active: ActiveParking, entryId: string, date: int)
    ensures var r := Ended(Parked(u, active, entryId, date));
            r.activeParking.None? && r.balance == u.balance - active.creditsSpent
            && |r.history| == |u.history| + 1 && r.history[0].status == DONE
            && r.history[0].cost == active.creditsSpent
  {
  }

  /** The app's held state: the loaded user (null until loaded) and the current screen. */
  class AppState {
    var user: Option<UserState>
    var currentView: View

    /** The app once `api.getUserData()` has answered with `loaded`. */
    constructor (loaded: Option<UserState>)
      ensures user == loaded && currentView == Dash
    {
      user := loaded;
      currentView := Dash;
    }

    /** `addCredits(amount)`, with the new entry's random id and its clock read passed in. */
    method AddCredits(amount: int, entryId: string, date: int)
      modifies this
      ensures old(user).None? ==> user == old(user) && currentView == old(currentView)
      ensures old(user).Some? ==> user == Some(Credited(old(user).value, amount, entryId, date))
                                  && currentView == Dash
      ensures old(user).Some? ==> user.value.balance - Ledger(user.value.history)
                                  == old(user).value.balance - Ledger(old(user).value.history)
    {
      if user.None? {
        return;
      }
      CreditedKeepsLedger(user.value, amount, entryId, date);
      user := Some(Credited(user.value, amount, entryId, date));
      currentView := Dash;
    }

    /** `addVehicle(plate, nickname)`, with the new vehicle's random id passed in. */
    method AddVehicle(plate: string, nickname: string, vehicleId: string)
      modifies this
      ensures old(user).None? ==> user == old(user) && currentView == old(currentView)
      ensures old(user).Some? ==> user == Some(WithVehicle(old(user).value, vehicleId, plate, nickname))
                                  && currentView == Dash
    {
      if user.None? {
        return;
      }
      user := Some(WithVehicle(user.value, vehicleId, plate, nickname));
      currentView := Dash;
    }

    /**
      `buyParking(vehicleId, minutes, cost)`, with the clock read `now`, the history entry's
      random id and its own clock read `date` passed in. Without a user, or with less balance
      than the cost, nothing changes (the source raises an alert).
    */
    method BuyParking(vehicleId: string, minutes: int, cost: int, now: int, entryId: string, date: int)
      modifies this
      ensures old(user).None? || old(user).value.balance < cost ==>
                user == old(user) && currentView == old(currentView)
      ensures old(user).Some? && old(user).value.balance >= cost ==>
                user.Some? && user.value.activeParking.Some? && currentView == Active
                && var active := user.value.activeParking.value;
                   active == ActiveParking(vehicleId, now, active.endTime, minutes, cost)
                   && user.value == Parked(old(user).value, active, entryId, date)
                   && user.value.balance == old(user).value.balance - cost >= 0
                   && (minutes > 0 ==> ParkingUtils.IsExpiry(now, minutes, active.endTime))
                   && (minutes <= 0 ==> active.endTime == ParkingUtils.ClampedStart(now))
    {
      if user.None? {
        return;
      }
      if user.value.balance < cost {
        return;
      }
      var expiryDate := ParkingUtils.CalculateParkingEndTime(now, minutes);
      var active := ActiveParking(vehicleId, now, expiryDate, minutes, cost);
      user := Some(Parked(user.value, active, entryId, date));
      currentView := Active;
    }

    /** `endParking()`. */
    method EndParking()
      modifies this
      ensures old(user).None? ==> user == old(user) && currentView == old(currentView)
      ensures old(user).Some? ==> user == Some(Ended(old(user).value)) && currentView == Dash
    {
      if user.None? {
        return;
      }
      user := Some(Ended(user.value));
      currentView := Dash;
    }
  }
}
