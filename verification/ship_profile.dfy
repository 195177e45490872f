/** Vessel classes and their characteristic constants.

    The user interface carries two flags, "cargo" and "passenger"; the cargo
    flag wins when both are set and a vessel with neither flag is an
    individual yacht.  The cost model reads the flags with the same
    precedence. */
module ShipProfile {
  import opened Wrappers

  datatype VesselClass = Cargo | Passenger | Yacht

  /** The vessel class the two flags select, cargo first. */
  function ClassOf(isCargo: bool, isPassenger: bool): (v: VesselClass)
    ensures isCargo ==> v == Cargo
    ensures v == Passenger <==> !isCargo && isPassenger
    ensures v == Yacht <==> !isCargo && !isPassenger
  {
    if isCargo then Cargo else if isPassenger then Passenger else Yacht
  }

  /** Cruise speed in knots. */
  function Speed(v: VesselClass): real {
    match v
    case Cargo => 12.0
    case Passenger => 18.0
    case Yacht => 20.0
  }

  /** Fuel burnt, in tons per nautical mile. */
  function FuelRate(v: VesselClass): real {
    match v
    case Cargo => 0.15
    case Passenger => 0.25
    case Yacht => 0.35
  }

  /** Comfort on a 1..10 scale. */
  function Comfort(v: VesselClass): int {
    match v
    case Cargo => 3
    case Passenger => 8
    case Yacht => 10
  }

  function Name(v: VesselClass): string {
    match v
    case Cargo => "Cargo Ship"
    case Passenger => "Passenger Ship"
    case Yacht => "Yacht/Individual"
  }

  /** `get_speed`: the speed of the class the flags select. */
  function GetSpeed(isCargo: bool, isPassenger: bool): (knots: real)
    ensures knots == Speed(ClassOf(isCargo, isPassenger))
    ensures 12.0 <= knots <= 20.0
  {
    if isCargo then 12.0 else if isPassenger then 18.0 else 20.0
  }

  /** `get_fuel_rate`: the fuel rate of the class the flags select. */
  function GetFuelRate(isCargo: bool, isPassenger: bool): (rate: real)
    ensures rate == FuelRate(ClassOf(isCargo, isPassenger))
    ensures 0.0 < rate
  {
    if isCargo then 0.15 else if isPassenger then 0.25 else 0.35
  }

  /** `get_comfort`: the comfort factor of the class the flags select. */
  function GetComfort(isCargo: bool, isPassenger: bool): (comfort: int)
    ensures comfort == Comfort(ClassOf(isCargo, isPassenger))
    ensures 1 <= comfort <= 10
  {
    if isCargo then 3 else if isPassenger then 8 else 10
  }

  /** `get_profile_name`: the display name of the class the flags select. */
  function GetProfileName(isCargo: bool, isPassenger: bool): (name: string)
    ensures ClassNamed(name) == Some(ClassOf(isCargo, isPassenger))
  {
    if isCargo then "Cargo Ship" else if isPassenger then "Passenger Ship" else "Yacht/Individual"
  }

  /** The class a display name belongs to, if any. */
  function ClassNamed(name: string): Option<VesselClass> {
    if name == "Cargo Ship" then Some(Cargo)
    else if name == "Passenger Ship" then Some(Passenger)
    else if name == "Yacht/Individual" then Some(Yacht)
    else None
  }

  /** Display names identify the class. */
  lemma NameIdentifiesClass(v: VesselClass)
    ensures ClassNamed(Name(v)) == Some(v)
  {
  }

  /** Position in the order cargo, passenger, yacht. */
  function Rank(v: VesselClass): int {
    match v
    case Cargo => 0
    case Passenger => 1
    case Yacht => 2
  }

  /** From cargo to passenger to yacht, the vessel gets faster, burns more
      fuel per mile and is more comfortable. */
  lemma ProfilesOrdered(a: VesselClass, b: VesselClass)
    requires Rank(a) < Rank(b)
    ensures Speed(a) < Speed(b)
    ensures FuelRate(a) < FuelRate(b)
    ensures Comfort(a) < Comfort(b)
  {
  }
}
