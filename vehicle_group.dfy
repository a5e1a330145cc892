/**
 * GUIVehicleGroup: a half-open range [begin, end) of positions in the vehicle
 * list of a vehicle-list window, and the read-only aggregates the window shows
 * for it (member count, the one member of a singleton group, the two yearly
 * profit totals and the age of the oldest member).
 *
 * The group stores no vehicles of its own: it points into the window's vehicle
 * list, so every query here takes that list as an argument and asks that the
 * group is a valid range of it.
 */
module VehicleGroup {

  /** A vehicle as the list sees it: its identity and the values a group aggregates. */
  datatype Vehicle = Vehicle(id: nat, profitThisYear: int, profitLastYear: int, economyAge: int)

  /** The two yearly profits a group can total. */
  datatype ProfitYear = ThisYear | LastYear

  /** The display profit of one vehicle for the chosen year. */
  function DisplayProfit(v: Vehicle, year: ProfitYear): int
  {
    match year
    case ThisYear => v.profitThisYear
    case LastYear => v.profitLastYear
  }

  /** A group: the positions of its first member and one past its last member. */
  datatype Group = Group(begin: nat, end: nat)

  /** The group lies inside the vehicle list it was built from. */
  predicate ValidIn(vehicles: seq<Vehicle>, g: Group)
  {
    g.begin <= g.end <= |vehicles|
  }

  /** The members of a group, in list order. */
  function Members(vehicles: seq<Vehicle>, g: Group): (m: seq<Vehicle>)
    requires ValidIn(vehicles, g)
    ensures |m| == g.end - g.begin
    ensures forall i :: 0 <= i < |m| ==> m[i] == vehicles[g.begin + i]
  {
    vehicles[g.begin..g.end]
  }

  // ---------------------------------------------------------------------------
  // Construction and counting

  /** Builds the group of the vehicles from position begin up to, not including, end. */
  function MakeGroup(vehicles: seq<Vehicle>, begin: nat, end: nat): (g: Group)
    requires begin <= end <= |vehicles|
    ensures ValidIn(vehicles, g)
    ensures g.begin == begin && g.end == end
    ensures Members(vehicles, g) == vehicles[begin..end]
  {
    Group(begin, end)
  }

  /** The distance from the first member to past the last one: the number of members. */
  function NumVehicles(vehicles: seq<Vehicle>, g: Group): (n: int)
    requires ValidIn(vehicles, g)
    ensures n >= 0
    ensures n == |Members(vehicles, g)|
    ensures n == 0 <==> Members(vehicles, g) == []
  {
    g.end - g.begin
  }

  /** The only member of a group that has exactly one. */
  function GetSingleVehicle(vehicles: seq<Vehicle>, g: Group): (v: Vehicle)
    requires ValidIn(vehicles, g)
    requires NumVehicles(vehicles, g) == 1
    ensures Members(vehicles, g) == [v]
    ensures v in vehicles
  {
    vehicles[g.begin]
  }

  // ---------------------------------------------------------------------------
  // Profit totals

  /**
   * Left fold: adds each vehicle's profit to the running total, first to last.
   * It ends at the start value plus the sum of all the profits.
   */
  function Accumulate(vs: seq<Vehicle>, acc: int, year: ProfitYear): (r: int)
    ensures r == acc + TotalProfit(vs, year)
    decreases |vs|
  {
    if vs == [] then acc else Accumulate(vs[1..], acc + DisplayProfit(vs[0], year), year)
  }

  /** Reference definition: the sum of the profits of a sequence of vehicles. */
  function TotalProfit(vs: seq<Vehicle>, year: ProfitYear): int
    decreases |vs|
  {
    if vs == [] then 0 else DisplayProfit(vs[0], year) + TotalProfit(vs[1..], year)
  }

  /** The total over two consecutive runs of vehicles is the sum of their totals. */
  lemma {:induction false} TotalProfitConcat(a: seq<Vehicle>, b: seq<Vehicle>, year: ProfitYear)
    ensures TotalProfit(a + b, year) == TotalProfit(a, year) + TotalProfit(b, year)
    decreases |a|
  {
    if a == [] {
      assert a + b == b;
    } else {
      assert (a + b)[1..] == a[1..] + b;
      TotalProfitConcat(a[1..], b, year);
    }
  }

  /** The profit total of one year over the members of a group, starting from 0. */
  function GroupProfit(vehicles: seq<Vehicle>, g: Group, year: ProfitYear): (p: int)
    requires ValidIn(vehicles, g)
    ensures p == TotalProfit(Members(vehicles, g), year)
    ensures g.begin == g.end ==> p == 0
    ensures g.end == g.begin + 1 ==> p == DisplayProfit(vehicles[g.begin], year)
  {
    var m := Members(vehicles, g);
    assert |m| == 1 ==> m[1..] == [];
    Accumulate(m, 0, year)
  }

  /** The sum of the members' profits of this year. */
  function GetDisplayProfitThisYear(vehicles: seq<Vehicle>, g: Group): (p: int)
    requires ValidIn(vehicles, g)
    ensures p == TotalProfit(Members(vehicles, g), ThisYear)
    ensures g.begin == g.end ==> p == 0
    ensures g.end == g.begin + 1 ==> p == vehicles[g.begin].profitThisYear
  {
    GroupProfit(vehicles, g, ThisYear)
  }

  /** The sum of the members' profits of last year. */
  function GetDisplayProfitLastYear(vehicles: seq<Vehicle>, g: Group): (p: int)
    requires ValidIn(vehicles, g)
    ensures p == TotalProfit(Members(vehicles, g), LastYear)
    ensures g.begin == g.end ==> p == 0
    ensures g.end == g.begin + 1 ==> p == vehicles[g.begin].profitLastYear
  {
    GroupProfit(vehicles, g, LastYear)
  }

  /** Splitting a group at any position splits its profit totals accordingly. */
  lemma {:induction false} GroupProfitSplit(vehicles: seq<Vehicle>, begin: nat, mid: nat, end: nat, year: ProfitYear)
    requires begin <= mid <= end <= |vehicles|
    ensures GroupProfit(vehicles, Group(begin, end), year)
         == GroupProfit(vehicles, Group(begin, mid), year) + GroupProfit(vehicles, Group(mid, end), year)
  {
    assert vehicles[begin..end] == vehicles[begin..mid] + vehicles[mid..end];
    TotalProfitConcat(vehicles[begin..mid], vehicles[mid..end], year);
  }

  // ---------------------------------------------------------------------------
  // Oldest member

  /**
   * The scan of a maximum search with a strict "younger than" comparison:
   * `largest` is the position picked so far among the first i vehicles; a later
   * vehicle replaces it only when it is strictly older.
   */
  function MaxElementFrom(vs: seq<Vehicle>, largest: nat, i: nat): (k: nat)
    requires largest < i <= |vs|
    requires forall j :: 0 <= j < i ==> vs[j].economyAge <= vs[largest].economyAge
    requires forall j :: 0 <= j < largest ==> vs[j].economyAge < vs[largest].economyAge
    ensures largest <= k < |vs|
    ensures forall j :: 0 <= j < |vs| ==> vs[j].economyAge <= vs[k].economyAge
    ensures forall j :: 0 <= j < k ==> vs[j].economyAge < vs[k].economyAge
    decreases |vs| - i
  {
    if i == |vs| then largest
    else if vs[largest].economyAge < vs[i].economyAge then MaxElementFrom(vs, i, i + 1)
    else MaxElementFrom(vs, largest, i + 1)
  }

  /**
   * The position of the first oldest vehicle of a non-empty sequence: no vehicle
   * is older, and every vehicle before it is strictly younger.
   */
  function MaxElement(vs: seq<Vehicle>): (k: nat)
    requires |vs| > 0
    ensures k < |vs|
    ensures forall j :: 0 <= j < |vs| ==> vs[j].economyAge <= vs[k].economyAge
    ensures forall j :: 0 <= j < k ==> vs[j].economyAge < vs[k].economyAge
  {
    MaxElementFrom(vs, 0, 1)
  }

  /** The list position of the member a non-empty group reports as its oldest. */
  function OldestVehiclePosition(vehicles: seq<Vehicle>, g: Group): (k: nat)
    requires ValidIn(vehicles, g)
    requires NumVehicles(vehicles, g) > 0
    ensures g.begin <= k < g.end
    ensures forall j :: g.begin <= j < g.end ==> vehicles[j].economyAge <= vehicles[k].economyAge
    ensures forall j :: g.begin <= j < k ==> vehicles[j].economyAge < vehicles[k].economyAge
  {
    var m := Members(vehicles, g);
    var i := MaxElement(m);
    assert forall j :: g.begin <= j < g.end ==> vehicles[j] == m[j - g.begin];
    g.begin + i
  }

  /** The age of the oldest member of a non-empty group. */
  function GetOldestVehicleAge(vehicles: seq<Vehicle>, g: Group): (age: int)
    requires ValidIn(vehicles, g)
    requires NumVehicles(vehicles, g) > 0
    ensures forall j :: g.begin <= j < g.end ==> vehicles[j].economyAge <= age
    ensures exists j :: g.begin <= j < g.end && vehicles[j].economyAge == age
  {
    vehicles[OldestVehiclePosition(vehicles, g)].economyAge
  }

  /**
   * Ties go to the earlier vehicle: the position picked is the smallest one
   * holding the maximal age, so any other position with that age comes later.
   */
  lemma OldestIsFirstOnTies(vehicles: seq<Vehicle>, g: Group, j: nat)
    requires ValidIn(vehicles, g) && NumVehicles(vehicles, g) > 0
    requires g.begin <= j < g.end
    requires vehicles[j].economyAge == GetOldestVehicleAge(vehicles, g)
    ensures OldestVehiclePosition(vehicles, g) <= j
  {
  }

  /** The oldest age of a group split in two is the larger of the two parts' oldest ages. */
  lemma OldestAgeSplit(vehicles: seq<Vehicle>, begin: nat, mid: nat, end: nat)
    requires begin < mid < end <= |vehicles|
    ensures GetOldestVehicleAge(vehicles, Group(begin, end))
         == Max(GetOldestVehicleAge(vehicles, Group(begin, mid)), GetOldestVehicleAge(vehicles, Group(mid, end)))
  {
  }

  // ---------------------------------------------------------------------------
  // Groups and changes to the vehicle list

  /**
   * A group's aggregates depend on its own range of the list only: a list that
   * holds the same vehicles at those positions gives the same answers.
   */
  lemma QueriesDependOnRangeOnly(vehicles: seq<Vehicle>, other: seq<Vehicle>, g: Group)
    requires ValidIn(vehicles, g) && ValidIn(other, g)
    requires forall j :: g.begin <= j < g.end ==> vehicles[j] == other[j]
    ensures NumVehicles(vehicles, g) == NumVehicles(other, g)
    ensures GetDisplayProfitThisYear(vehicles, g) == GetDisplayProfitThisYear(other, g)
    ensures GetDisplayProfitLastYear(vehicles, g) == GetDisplayProfitLastYear(other, g)
    ensures NumVehicles(vehicles, g) > 0 ==> GetOldestVehicleAge(vehicles, g) == GetOldestVehicleAge(other, g)
  {
    assert Members(vehicles, g) == Members(other, g);
  }

  /**
   * Inserting a vehicle at or before a group's first position moves every member
   * one position on: the shifted pair of positions names the old members.
   */
  lemma InsertBeforeShiftsGroup(vehicles: seq<Vehicle>, g: Group, at: nat, v: Vehicle)
    requires ValidIn(vehicles, g)
    requires at <= g.begin
    ensures ValidIn(vehicles[..at] + [v] + vehicles[at..], Group(g.begin + 1, g.end + 1))
    ensures Members(vehicles[..at] + [v] + vehicles[at..], Group(g.begin + 1, g.end + 1)) == Members(vehicles, g)
  {
  }

  /** No two vehicles of the list are the same vehicle. */
  predicate DistinctIds(vehicles: seq<Vehicle>)
  {
    forall i, j :: 0 <= i < j < |vehicles| ==> vehicles[i].id != vehicles[j].id
  }

  /**
   * After a new vehicle is inserted at or before a non-empty group's first
   * position, the group's old pair of positions no longer names its members:
   * a group built before the insertion is stale.
   */
  lemma InsertBeforeStalesGroup(vehicles: seq<Vehicle>, g: Group, at: nat, v: Vehicle)
    requires ValidIn(vehicles, g) && g.begin < g.end
    requires at <= g.begin
    requires DistinctIds(vehicles)
    requires forall i :: 0 <= i < |vehicles| ==> vehicles[i].id != v.id
    ensures ValidIn(vehicles[..at] + [v] + vehicles[at..], g)
    ensures Members(vehicles[..at] + [v] + vehicles[at..], g) != Members(vehicles, g)
  {
    var moved := vehicles[..at] + [v] + vehicles[at..];
    if at == g.begin {
      assert moved[g.begin] == v;
    } else {
      assert moved[g.begin] == vehicles[g.begin - 1];
    }
    assert Members(moved, g)[0] != Members(vehicles, g)[0];
  }

  function Max(a: int, b: int): int
  {
    if a < b then b else a
  }
}
