/**
 * The grouping modes of a vehicle-list window and the choice of the table of
 * group sorters that goes with the current mode.
 */
module VehicleListWindow {

  /** The grouping mode is stored in one unsigned byte, so any value 0..255 can occur. */
  newtype GroupBy = b: int | 0 <= b < 256

  /** Every vehicle forms a group of its own. */
  const GroupByNone: GroupBy := 0
  /** Vehicles that share their orders form one group. */
  const GroupBySharedOrders: GroupBy := 1
  /** One past the last real mode; not a mode itself. */
  const GroupByEnd: GroupBy := 2

  /** The real grouping modes. */
  predicate IsGrouping(grouping: GroupBy)
  {
    grouping < GroupByEnd
  }

  /** The two fixed tables of group sorters, as tokens that stand for them. */
  datatype SorterTable = NoneSorterFuncs | SharedOrdersSorterFuncs

  /** The grouping mode a sorter table is made for. */
  function TableGrouping(t: SorterTable): (grouping: GroupBy)
    ensures IsGrouping(grouping)
  {
    match t
    case NoneSorterFuncs => GroupByNone
    case SharedOrdersSorterFuncs => GroupBySharedOrders
  }

  /** The sorter table of the window's grouping mode; only real modes can reach it. */
  function GetVehicleSorterFuncs(grouping: GroupBy): (t: SorterTable)
    requires IsGrouping(grouping)
    ensures TableGrouping(t) == grouping
    ensures t == NoneSorterFuncs <==> grouping == GroupByNone
    ensures t == SharedOrdersSorterFuncs <==> grouping == GroupBySharedOrders
  {
    if grouping == GroupByNone then NoneSorterFuncs else SharedOrdersSorterFuncs
  }

  /** Every table is selected by exactly one mode: the mode it is made for. */
  lemma SorterFuncsRoundTrip(t: SorterTable, grouping: GroupBy)
    requires IsGrouping(grouping)
    ensures GetVehicleSorterFuncs(TableGrouping(t)) == t
    ensures GetVehicleSorterFuncs(grouping) == t <==> grouping == TableGrouping(t)
  {
  }
}
