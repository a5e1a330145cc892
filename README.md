# Vehicle list groups (OpenTTD `vehicle_gui_base.h`)

This project models the part of OpenTTD's vehicle-list windows that has its logic in `src/vehicle_gui_base.h`:

- **`GUIVehicleGroup`** (module `VehicleGroup`). A group is a half-open range `[begin, end)` inside the window's vehicle list. It has these read-only queries:
  - its number of members;
  - the single member of a one-vehicle group;
  - the totals of this year's and last year's display profit;
  - the age of its oldest member.
- **`BaseVehicleListWindow::GroupBy`** and **`GetVehicleSorterFuncs`** (module `VehicleListWindow`). There are two grouping modes: one group per vehicle, or one group per set of vehicles that share orders. The window picks the table of group sorters that belongs to its current mode.

Decisions about the model:

- **The vehicle list is a `seq<Vehicle>`.** A group is a pair of positions in it. The source keeps a pair of iterators into the list, and its comments say the groups must be rebuilt whenever the list changes structurally. So every query takes the list as an argument and requires the group to be a valid range of that list (`ValidIn`).
- **A `Vehicle` has four fields.** These are an identity `id`, which stands in for the pointer the list holds, plus this year's profit, last year's profit and the economy age.
- **The profit totals copy `std::accumulate`.** `Accumulate` is a left fold starting from 0. `TotalProfit` is an independent right-recursive sum, and the contract of `Accumulate` makes the two agree.
- **The oldest-member query copies `std::max_element` with the comparison `a.economy_age < b.economy_age`.** `MaxElementFrom` scans from left to right and keeps the current pick unless a later vehicle is strictly older. The pick is therefore the first vehicle with the maximal age.
- **`GroupBy` has 256 values.** The source declares it as an enumeration stored in a `uint8_t`, so the model is a byte-sized `newtype` with three named values. This means `GroupByEnd` and every other out-of-range byte can be expressed, and `GetVehicleSorterFuncs` excludes them with a precondition, where the source reaches `NOT_REACHED()`.
- **The two sorter tables are opaque tokens.**
- **`Money` and `TimerGameEconomy::Date` are unbounded integers.**

`std::max_element` returns the end iterator on an empty range, and src/vehicle_gui_base.h:58-61 dereferences that result, so `GetOldestVehicleAge` requires a non-empty group.

## Model

| member | source | states |
|---|---|---|
| `VehicleGroup.Members` | src/vehicle_gui_base.h:24-26 | the members of a valid group are exactly the vehicles at positions `begin` up to but not including `end`, in list order |
| `VehicleGroup.MakeGroup` | src/vehicle_gui_base.h:28-29 | the constructor keeps exactly the given begin and end positions; a pair with `begin <= end <= |vehicles|` gives a group valid in that list, whose members are `vehicles[begin..end]` |
| `VehicleGroup.NumVehicles` | src/vehicle_gui_base.h:31-34 | the count is never negative and equals the number of members; it is 0 exactly when the group has no members |
| `VehicleGroup.GetSingleVehicle` | src/vehicle_gui_base.h:36-40 | only defined when the group has exactly one member (the source asserts this); the result is that member, so the member sequence is exactly `[v]` |
| `VehicleGroup.Accumulate` | src/vehicle_gui_base.h:44-46 | the `std::accumulate` left fold (used for both years, also at lines 51-53) adds each member's profit from `acc`, first member to last, and ends at `acc` plus the independently defined sum `TotalProfit` of the profits |
| `VehicleGroup.TotalProfitConcat` | src/vehicle_gui_base.h:42-54 | the profit sum over two consecutive runs of vehicles is the sum of the two runs' sums |
| `VehicleGroup.GroupProfit` | src/vehicle_gui_base.h:42-54 | a group's profit total for either year, folded from 0, equals the sum of its members' profits; it is 0 for an empty group and the member's own profit for a one-member group |
| `VehicleGroup.GetDisplayProfitThisYear` | src/vehicle_gui_base.h:42-47 | equals the sum of the members' profits this year; 0 for an empty group; the member's own value for a one-member group |
| `VehicleGroup.GetDisplayProfitLastYear` | src/vehicle_gui_base.h:49-54 | equals the sum of the members' profits last year; 0 for an empty group; the member's own value for a one-member group |
| `VehicleGroup.GroupProfitSplit` | src/vehicle_gui_base.h:42-54 | splitting a group at any position splits its profit total into the totals of the two parts |
| `VehicleGroup.MaxElementFrom` | src/vehicle_gui_base.h:58-60 | the strict-comparison scan returns a position that no vehicle is older than, with every earlier vehicle strictly younger, and never moves before the position picked so far |
| `VehicleGroup.MaxElement` | src/vehicle_gui_base.h:58-60 | on a non-empty sequence, returns the first position of maximal age |
| `VehicleGroup.OldestVehiclePosition` | src/vehicle_gui_base.h:56-60 | for a non-empty group, the picked vehicle lies inside the group; no member is older; every member before it is strictly younger |
| `VehicleGroup.GetOldestVehicleAge` | src/vehicle_gui_base.h:56-62 | requires a non-empty group; the result is at least every member's economy age and equals the economy age of some member |
| `VehicleGroup.OldestIsFirstOnTies` | src/vehicle_gui_base.h:58-60 | a member with the same age as the reported oldest never comes before the picked vehicle: on ties the earliest one wins |
| `VehicleGroup.OldestAgeSplit` | src/vehicle_gui_base.h:56-62 | the oldest age of a group split into two non-empty parts is the larger of the two parts' oldest ages |
| `VehicleGroup.QueriesDependOnRangeOnly` | src/vehicle_gui_base.h:77-78 | two lists that agree on a group's positions give the same count, profit totals and oldest age for that group; this is a property of the position model, since in the source a structural change can invalidate the iterators even where the same vehicles still sit at those positions |
| `VehicleGroup.InsertBeforeShiftsGroup` | src/vehicle_gui_base.h:77-78 | after a vehicle is inserted at or before a group's first position, the group's members sit one position later, so the shifted pair names the old members |
| `VehicleGroup.InsertBeforeStalesGroup` | src/vehicle_gui_base.h:77-78 | when the vehicles are distinct and a new vehicle is inserted at or before a non-empty group's first position, the group's old pair of positions names different members: a group built before a structural change is stale and has to be rebuilt |
| `VehicleListWindow.TableGrouping` | src/vehicle_gui_base.h:106-107 | each of the two sorter tables belongs to a real grouping mode |
| `VehicleListWindow.GetVehicleSorterFuncs` | src/vehicle_gui_base.h:129-139 | callable only for the two real grouping modes (anything else, `GB_END` included, is unreachable in the source); returns the no-grouping table for `GB_NONE` and the shared-orders table for `GB_SHARED_ORDERS`, and only for those |
| `VehicleListWindow.SorterFuncsRoundTrip` | src/vehicle_gui_base.h:129-139 | every table is selected by exactly one mode, the mode it is made for |

## Left out

- Rendering, icons and screen metrics are not modelled, because they are pixel layout with no logic in this file. This covers `DrawVehicleListItems`, the cargo icon overlay record and functions, `GetVehicleListHeight`, the scrollbar, `order_arrow_width`, `unitnumber_digits` and the `Window` base.
- Drop-down menus and string tables are not modelled, because only their declarations appear here. This covers `BuildCargoDropDownList`, `BuildActionDropdownList`, `GetActionDropdownSize`, `GetCargoFilterLabel`, `ActionDropdownItem`, `GetVehicleSorterNames` and the `StringID` name lists.
- The following window members are declared in this file but defined elsewhere (`vehicle_gui.cpp` is not part of this model), so building, filtering, sorting and grouping the list are not modelled: `BuildVehicleList`, `FilterVehicleList`, `SortVehicleList`, `SetCargoFilter`, `SetCargoFilterArray`, `UpdateVehicleGroupBy`, `UpdateSortingFromGrouping`, `OnInit` and the window constructor.
- The `GUIList` sort machinery and `Listing` are not modelled, because `sortlist_type.h` is not part of this model.
- The global `_grouping` and `_sorting` arrays are not modelled. They are only storage for persisted settings.
- The comparator functions inside the sorter tables are not modelled. The tables are opaque tokens.
- GetDisplayProfitThisYear: `Money` is an unbounded integer, so the model states nothing about overflow. `economy_type.h` is not part of this model.
- GetDisplayProfitLastYear: `Money` is an unbounded integer, for the same reason.
- `Vehicle::GetDisplayProfitThisYear` and `Vehicle::GetDisplayProfitLastYear` are vehicle fields in this model. The vehicle class is not part of this model.
- The group's iterators are list positions, not references. The model does not express that an iterator into a rebuilt list dangles. Each query instead takes the list and requires the group to be a valid range of it.
