# Verified model of the RackCity asset-management core

RackCity is a data-centre asset manager. Its Django back end stores racks, hardware models, assets, network ports and power connections. Its React front end draws rack elevations and blade chassis, lists elements in sortable, selectable tables, and prints barcode sheets. This project is a Dafny model of the logic at the centre of both halves, with proofs of what that logic promises:

- **Front end.** `RackView` is the rack elevation and its unit ruler. `ChassisView` is the 14-slot blade chassis picture. `ElementTable` covers the sort chips, the barcode selection, the column names and the detail route; its state is a class whose handlers change it. `BarcodeView` lays barcodes out four to a row. `Inventory` holds the records these components draw, with the colour and navigation rules they share.
- **Back end.**
  - `RackPlacement` handles where an instance may be placed, moved, or imported.
  - `RecordComparison` is the import comparison of an existing record with an incoming one.
  - `QueryArguments` turns table sort and filter requests into ORM arguments.
  - `NetworkPorts` covers MAC address formatting, and connecting and disconnecting ports (a class whose objects point at each other).
  - `Power` covers PDU names, free PDU ports with a suggestion, and blade-chassis power requests.
  - `Errors` builds the failure messages.
  - `AssetUtils` checks network-connection entries and stores MAC addresses.
  - `Assets` covers hostname and owner validation, asset-number assignment, and the ports a new asset gets (a class).
  - `ModelUtils` holds the model-level constants and validators.
- **Shared modules.** `Wrappers` provides `Option`/`Result`. `Strings` provides digits, `str(int)`, `join` and substrings. `Js` covers truthiness and `parseInt`. `Python` covers dictionaries kept in insertion order, `in`, `==`, `d[k]`, `int()`, and the exceptions they raise. `Lists` provides `remove`/`indexOf` on lists.

Database queries, HTTP, the file system and the bcman expect script become parameters of the operations that use them:

- the rack height and the placed instances;
- the set of used asset numbers and the set of user names;
- the chassis records;
- a map of network ports;
- a "does this save succeed" function;
- the rack-range serializer;
- the bcman call.

Python exceptions are values. `Raised(message)` is an exception the application raises with a message. `TypeError`, `ValueError`, `KeyError` and `ObjectDoesNotExist` are errors that escape unhandled.

## Model

| member | source | states |
|---|---|---|
| RackView.GetRows | src/components/elementView/detailedView/rackView/rackView.tsx:49-132 | the loop builds exactly the elevation `Elevation(0, height, assets)`, and its rows cover exactly `height` units |
| RackView.NextRow | src/components/elementView/detailedView/rackView/rackView.tsx:59-129 | one pass of the loop advances the cursor without leaving the rack, and the elevation from the old cursor is the one from the new cursor followed by the row just built |
| RackView.Label | src/components/elementView/detailedView/rackView/rackView.tsx:81-97 | the row text starts with the hostname (a blank without one); it is exactly that for anything but a blade chassis |
| RackView.BladeChassisLabel | src/components/elementView/detailedView/rackView/rackView.tsx:81-97 | a blade chassis's text is the hostname and " \| ", a digit run that reads back as the number of blades, " blade" for exactly one and " blades" otherwise, then " \| " with vendor and model number |
| RackView.AssetRow | src/components/elementView/detailedView/rackView/rackView.tsx:99-116 | an asset row is as tall as the model, coloured by the asset-or-model colour, and leads to the navigation id |
| RackView.ElevationWeight | src/components/elementView/detailedView/rackView/rackView.tsx:59-129 | from any cursor the rows cover exactly the units up to the top of the rack |
| RackView.EmptyRack | src/components/elementView/detailedView/rackView/rackView.tsx:120-128 | a rack without assets is one empty row per unit |
| RackView.StuckHead | src/components/elementView/detailedView/rackView/rackView.tsx:61-79 | an asset below the cursor or sticking out of the top is never drawn; every later row is empty and no later asset is drawn |
| RackView.DrawnFromQueueHead | src/components/elementView/detailedView/rackView/rackView.tsx:61-118 | the asset rows are the rows of a prefix of the queue, in queue order (assets are only taken from the head) |
| RackView.RowPlacement | src/components/elementView/detailedView/rackView/rackView.tsx:61-80 | every asset row belongs to a queued asset, starts at the unit that asset claims, and fits inside the rack |
| RackView.RowsReadTopDown | src/components/elementView/detailedView/rackView/rackView.tsx:74-123 | rows are prepended, so a row further down the list covers lower units |
| RackView.FirstRowIsTop | src/components/elementView/detailedView/rackView/rackView.tsx:49-132 | the first row of a non-empty rack covers its top unit |
| RackView.FourUnitExample | src/components/elementView/detailedView/rackView/rackView.tsx:49-132 | a 4U rack with a 2U asset at unit 2 is drawn as empty, the asset, empty |
| RackView.GetUnitRows | src/components/elementView/detailedView/rackView/rackView.tsx:133-146 | the ruler lists `height` labels from `height` down to 1 |
| Inventory.DisplayColor | src/components/elementView/detailedView/rackView/rackView.tsx:104 | the asset's own colour when it is truthy, the model's otherwise |
| ChassisView.BorderColor | src/components/elementView/detailedView/assetView/chassisView.tsx:108-110 | the chassis frame has the chassis's own colour when it is truthy, its model's otherwise |
| Inventory.NavigationId | src/components/elementView/detailedView/assetView/chassisView.tsx:74-79 | a change-plan copy with a related asset leads to that asset; anything else to its own id |
| Inventory.NavigationIgnoresCopyIdentity | src/components/elementView/detailedView/assetView/chassisView.tsx:74-79 | two change-plan copies of one asset lead to the same place |
| ChassisView.GenerateSlotNumbers | src/components/elementView/detailedView/assetView/chassisView.tsx:22-36 | cells 1..14 in order; a cell is highlighted iff `parseInt(currBladeSlot)` is its number; at most one is highlighted |
| ChassisView.BladesInSlot | src/components/elementView/detailedView/assetView/chassisView.tsx:43-47 | the filter keeps blades of the list whose parsed slot is `i`, and is empty iff no blade claims `i` |
| ChassisView.GenerateSlots | src/components/elementView/detailedView/assetView/chassisView.tsx:37-105 | without blades no cell; otherwise 14 cells, cell `k` showing the first blade claiming slot `k+1` |
| ChassisView.SlotCell | src/components/elementView/detailedView/assetView/chassisView.tsx:42-100 | one iteration of the loop builds exactly the specified cell of slot `i` |
| ChassisView.ClaimedSlot | src/components/elementView/detailedView/assetView/chassisView.tsx:50-82 | a claimed slot's cell carries the blade's colour fallback, border, and click target |
| ChassisView.FirstClaimWins | src/components/elementView/detailedView/assetView/chassisView.tsx:43-51 | when blades share a slot, the earliest of them in list order is shown |
| ChassisView.SlotOccupied | src/components/elementView/detailedView/assetView/chassisView.tsx:43-100 | a slot shows a blade iff some blade claims it, and that blade claims it |
| ChassisView.OutOfRangeBladeNotShown | src/components/elementView/detailedView/assetView/chassisView.tsx:41-47 | a blade whose slot is not a number of 1..14 appears in no cell |
| ChassisView.OneBladeView | src/components/elementView/detailedView/assetView/chassisView.tsx:37-105 | a chassis holding one blade in slot n, viewed from that blade: slot n shows it highlighted, every other slot is empty |
| ElementTable.Without | src/components/elementView/elementTable.tsx:329-331 | the filter keeps exactly the chips on other fields |
| ElementTable.Find | src/components/elementView/elementTable.tsx:353-354 | `find` gives a chip of the list on that field, or none exists |
| ElementTable.SortLeavesOneChip | src/components/elementView/elementTable.tsx:348-374 | after a sort click the field has exactly one chip, last, and the other chips are unchanged |
| ElementTable.SortKeepsConsistent | src/components/elementView/elementTable.tsx:348-374 | a sort click keeps chips and marked columns consistent |
| ElementTable.FlipKeepsConsistent | src/components/elementView/elementTable.tsx:352-360 | clicking a marked column keeps the state consistent |
| ElementTable.MarkKeepsConsistent | src/components/elementView/elementTable.tsx:361-364 | clicking an unmarked column keeps the state consistent |
| ElementTable.RemoveKeepsConsistent | src/components/elementView/elementTable.tsx:322-337 | removing a chip keeps consistency, and leaves the field neither chipped nor marked |
| ElementTable.SortThenRemove | src/components/elementView/elementTable.tsx:322-374 | sorting by a new column and then removing its chip restores the previous state |
| ElementTable.SortTwiceRestoresDirection | src/components/elementView/elementTable.tsx:352-358 | a second click on a column turns its chip back to the first direction |
| ElementTable.ToggleFlips | src/components/elementView/elementTable.tsx:1387-1406 | on a duplicate-free selection a row click flips that row's membership only, keeping it duplicate-free |
| ElementTable.ToggleTwice | src/components/elementView/elementTable.tsx:1387-1406 | two clicks on an unselected row give back the original selection |
| ElementTable.SelectAllDistinct | src/components/elementView/elementTable.tsx:1228-1252 | select-all keeps the selection duplicate-free |
| ElementTable.SelectAllOn | src/components/elementView/elementTable.tsx:1228-1252 | turning select-all on leaves every page item's asset number selected |
| ElementTable.SelectAllOff | src/components/elementView/elementTable.tsx:1228-1252 | turning select-all off unselects every page item's asset number |
| ElementTable.SelectAllElsewhere | src/components/elementView/elementTable.tsx:1228-1252 | select-all keeps every selected number off the page and adds nothing else |
| ElementTable.FieldNamesMembers | src/components/elementView/elementTable.tsx:637-673 | a name is a column iff it is a shown key of the first item, or a model/chassis column whose key is present |
| ElementTable.ColumnsMembers | src/components/elementView/elementTable.tsx:641-670 | a key contributes itself when shown, the two model columns for `model`, and the host column for `chassis` |
| ElementTable.DetailRoute | src/components/elementView/elementTable.tsx:1081-1091 | the route is `dashboard/type/` followed by a number that reads back as the row's navigation id |
| ElementTable.Table.constructor | src/components/elementView/elementTable.tsx:158-177 | the table starts with no sort, no selection and no columns, in a valid state |
| ElementTable.Table.HandleSort | src/components/elementView/elementTable.tsx:348-374 | the new sort state is the sort click's result (the click fails, changing nothing, only on an inconsistent state); other state is kept; validity is preserved |
| ElementTable.Table.RemoveSortItem | src/components/elementView/elementTable.tsx:322-337 | the new sort state drops every chip on the field and its first mark; validity is preserved |
| ElementTable.Table.ToggleRow | src/components/elementView/elementTable.tsx:1387-1406 | a row with a truthy asset number toggles it and unselecting clears select-all; other rows change nothing; validity is preserved |
| ElementTable.Table.ToggleAll | src/components/elementView/elementTable.tsx:1228-1252 | select-all flips, and the selection is the page fold for the new direction; validity is preserved |
| ElementTable.Table.SetFieldNamesFromData | src/components/elementView/elementTable.tsx:637-673 | the columns are those of the first item's keys in order, none without items |
| ElementTable.SelectAllLoop | src/components/elementView/elementTable.tsx:1229-1247 | the `forEach` over the page items computes the select-all fold for the new direction |
| ElementTable.FieldNamesLoop | src/components/elementView/elementTable.tsx:639-670 | the `forEach` over the first item's keys computes the column names of those keys |
| Lists.SpliceOut | src/components/elementView/elementTable.tsx:324-328 | `indexOf` followed by a guarded `splice` removes the first occurrence, and leaves a list without it as it was |
| BarcodeView.Cells | src/components/elementView/detailedView/assetView/barcodeView.tsx:51-63 | one cell per barcode, in order, captioned "Hyposoft " plus the number |
| BarcodeView.RenderBarcodes | src/components/elementView/detailedView/assetView/barcodeView.tsx:42-89 | the rows are the cells cut into runs of four |
| BarcodeView.PlaceCell | src/components/elementView/detailedView/assetView/barcodeView.tsx:49-83 | one iteration keeps the layout: whole rows of four, then an open row of 1 to 4 cells that `width` counts |
| BarcodeView.ChunksFlatten | src/components/elementView/detailedView/assetView/barcodeView.tsx:42-89 | the rows read one after the other give back every barcode, once, in order |
| BarcodeView.ChunksShape | src/components/elementView/detailedView/assetView/barcodeView.tsx:42-89 | ceil(n/4) rows, all of four cells except the last, which has 1 to 4 |
| BarcodeView.NineBarcodes | src/components/elementView/detailedView/assetView/barcodeView.tsx:42-89 | nine barcodes give two full rows and a row holding the ninth |
| RackPlacement.Units | rackcity/views/rackcity_utils.py:13-15 | the units of a placement are `elevation .. elevation+height-1`, lowest first |
| RackPlacement.UnitsMembers | rackcity/views/rackcity_utils.py:13-15 | a unit is occupied iff it lies in that interval |
| RackPlacement.OverlapUnits | rackcity/views/rackcity_utils.py:24-28 | two placements share a unit iff their intervals meet |
| RackPlacement.FirstConflict | rackcity/views/rackcity_utils.py:20-33 | the conflict found is another instance in the rack sharing a unit; none found means no other instance shares one |
| RackPlacement.ValidateInstanceLocation | rackcity/views/rackcity_utils.py:7-33 | the out-of-rack message iff some unit is outside 1..height (checked first); otherwise no error iff no other instance overlaps |
| RackPlacement.OwnLocationIgnored | rackcity/views/rackcity_utils.py:22-23 | an instance revalidated where it stands does not conflict with itself |
| RackPlacement.ValidateLocationModification | rackcity/views/rackcity_utils.py:36-70 | a bad elevation, then an unknown model, then an unknown rack gives its message, and a `TypeError` from `int()` escapes; once every lookup succeeds, the verdict is that of the instance's own id at the request's elevation, model height and rack where given and the stored ones otherwise |
| RackPlacement.EmptyModificationKeepsPlacement | rackcity/views/rackcity_utils.py:36-70 | a request with no location fields revalidates the stored placement |
| RackPlacement.ElevationOnlyModification | rackcity/views/rackcity_utils.py:42-47 | a request with only an elevation validates that elevation with the stored height and rack |
| RackPlacement.ModelOnlyModification | rackcity/views/rackcity_utils.py:49-54 | a request with only a model validates that model's height at the stored elevation and rack |
| RackPlacement.RackOnlyModification | rackcity/views/rackcity_utils.py:56-61 | a request with only a rack validates the stored elevation and height in that rack |
| RackPlacement.FullModificationOverrides | rackcity/views/rackcity_utils.py:42-68 | a request with all three fields validates the new placement as a move of the same instance |
| RackPlacement.NoInfileLocationConflicts | rackcity/views/rackcity_utils.py:95-116 | the loop over the file's records gives exactly the scan's verdict |
| RackPlacement.Conflict | rackcity/views/rackcity_utils.py:107-113 | a conflict raises the message naming both hostnames when both records have one, and a `TypeError` otherwise |
| RackPlacement.SameUnitConflict | rackcity/views/rackcity_utils.py:104-115 | a second record on the same unit of one rack is refused with the conflict of the two hostnames, whether or not they exist; in another rack it passes |
| RackPlacement.InfileConflictExample | rackcity/views/rackcity_utils.py:107-113 | the message in full for records "a" and "b" |
| RackPlacement.ConflictMessageExample | rackcity/views/rackcity_utils.py:108-113 | the conflict of "b" with holder "a" is the message naming "b" first and then "a" |
| RackPlacement.ClaimUnitsOk | rackcity/views/rackcity_utils.py:106-115 | claiming a record's units succeeds iff none is claimed yet |
| RackPlacement.ClaimUnitsKeys | rackcity/views/rackcity_utils.py:106-115 | a successful claim adds exactly the record's units |
| RackPlacement.ScanSucceeds | rackcity/views/rackcity_utils.py:95-116 | the scan passes iff each record is placeable and clear of units claimed earlier in its rack |
| RackPlacement.ClaimedInMembers | rackcity/views/rackcity_utils.py:104-115 | a unit is claimed in a rack iff some placeable record in that rack occupies it |
| RackPlacement.FitsIffNoOverlap | rackcity/views/rackcity_utils.py:101-115 | a record fits after earlier ones iff it overlaps none of them in its rack |
| RackPlacement.NoConflictsIffDisjoint | rackcity/views/rackcity_utils.py:95-116 | a file of placeable records passes iff no two records in the same rack share a unit |
| RecordComparison.RecordsAreIdentical | rackcity/views/rackcity_utils.py:73-92 | identical iff every existing field passes; otherwise the answer is the verdict of the first field, in dict order, that does not pass |
| RecordComparison.FirstDifferenceStops | rackcity/views/rackcity_utils.py:76-91 | a field missing from the import answers `False` before a later field can make `int()` raise, and that later field alone raises |
| RecordComparison.MissingFieldDiffers | rackcity/views/rackcity_utils.py:77-82 | a non-`id` field holding a value and missing from the import makes the records differ |
| RecordComparison.ChangedFieldDiffers | rackcity/views/rackcity_utils.py:83-91 | a shared field whose values differ makes them differ, unless an int field reads back equal |
| RecordComparison.IdenticalToItself | rackcity/views/rackcity_utils.py:73-92 | a record is identical to itself |
| RecordComparison.ExtraFieldIgnored | rackcity/views/rackcity_utils.py:76 | fields only the import has are ignored |
| RecordComparison.NumberAsTextIsIdentical | rackcity/views/rackcity_utils.py:87-89 | a stored int matches the same number imported as text |
| RecordComparison.NumberAgainstWordRaises | rackcity/views/rackcity_utils.py:87-89 | a stored int against non-numeric text raises `ValueError` |
| QueryArguments.GetSortArguments | rackcity/views/rackcity_utils.py:124-138 | the loop gives exactly the request's ordering strings or the first entry's error |
| QueryArguments.SortArgumentOfChip | rackcity/views/rackcity_utils.py:128-137 | a sort chip as the table sends it gives `field` or `-field` by its direction |
| QueryArguments.OneArgumentPerSort | rackcity/views/rackcity_utils.py:128-137 | success iff every entry passes; then one ordering string per entry, in order |
| QueryArguments.SortsSucceedIffEach | rackcity/views/rackcity_utils.py:128-137 | the sort entries succeed together iff each one does |
| QueryArguments.SortsValuesInOrder | rackcity/views/rackcity_utils.py:128-137 | on success, entry `k` gives ordering string `k` |
| QueryArguments.SortChipsRoundTrip | rackcity/views/rackcity_utils.py:124-138 | the table's chips come back as one ordering string each, in chip order |
| QueryArguments.SortWithoutDirection | rackcity/views/rackcity_utils.py:129-130 | an entry without `ascending` is refused with the missing-fields message |
| QueryArguments.SortWithNumericDirection | rackcity/views/rackcity_utils.py:133-134 | `ascending: 1` is refused as not a bool |
| QueryArguments.GetFilterArguments | rackcity/views/rackcity_utils.py:141-218 | the loop gives exactly the request's lookups or the first entry's error |
| QueryArguments.WellFormedFilter | rackcity/views/rackcity_utils.py:147-164 | a well-formed entry passes the checks, and its lookups are those of its type |
| QueryArguments.TextExact | rackcity/views/rackcity_utils.py:166-172 | an exact text filter looks the field up by the value |
| QueryArguments.TextContains | rackcity/views/rackcity_utils.py:173-179 | a contains text filter uses `field__icontains` |
| QueryArguments.TextOtherMatch | rackcity/views/rackcity_utils.py:166-179 | a text filter with another match type adds no lookup |
| QueryArguments.TextLookups | rackcity/views/rackcity_utils.py:166-179 | for any dict holding a match type and a value: `exact` gives `{field: value}`, `contains` gives `{field__icontains: value}`, anything else no lookup |
| QueryArguments.NumericRange | rackcity/views/rackcity_utils.py:181-190 | a numeric filter gives an inclusive `__range`, converting text numbers |
| QueryArguments.NumericLookups | rackcity/views/rackcity_utils.py:181-190 | for any dict whose `min` and `max` read as numbers, the lookup is `field__range` over those two |
| QueryArguments.UnknownFilterType | rackcity/views/rackcity_utils.py:212-216 | any other filter type is refused |
| QueryArguments.FilterArgumentsEach | rackcity/views/rackcity_utils.py:145-216 | success iff every entry passes; then the entries' lookups concatenated in order |
| NetworkPorts.Pairs | rackcity/models/network_port.py:10 | the `zip` of even and odd characters gives the consecutive two-character pieces, a trailing odd character dropped |
| NetworkPorts.FormatMacAddressLength | rackcity/models/network_port.py:4-11 | the formatted length is `3*(n/2)-1` for `n >= 2` characters, 0 below |
| NetworkPorts.FormatMacAddressNotIdempotent | rackcity/models/network_port.py:4-11 | formatting "abcd" gives "ab-cd", and formatting that gives "ab-:c" |
| NetworkPorts.FormatMacAddressTwiceOverflows | rackcity/models/network_port.py:4-11 | a 12-character address formats to 17 characters, then to 23 |
| NetworkPorts.FormatMacAgrees | rackcity/models/network_port.py:4-11 | on input without delimiters the corrected formatting is the original one |
| NetworkPorts.FormatMacIdempotent | rackcity/models/network_port.py:4-11 | the corrected formatting is idempotent |
| NetworkPorts.FormatMacLength | rackcity/models/network_port.py:19-24 | twelve characters besides delimiters give 17 characters, the field's maximum |
| NetworkPorts.NetworkPort.constructor | rackcity/models/network_port.py:13-27 | a new port is unwired and keeps its names and address |
| NetworkPorts.NetworkPort.DeleteNetworkConnection | rackcity/models/network_port.py:53-61 | both ends are unwired; without a partner nothing changes |
| NetworkPorts.NetworkPort.Label | rackcity/models/network_port.py:35-41 | `host:port`, or nothing where the asset has no hostname |
| NetworkPorts.NetworkPort.CreateNetworkConnection | rackcity/models/network_port.py:29-51 | refusal iff the destination is wired elsewhere, changing nothing; otherwise the old cable is dropped, the address reformatted by `format_mac_address` as written, and the two ports wired to each other |
| NetworkPorts.Refusal | rackcity/models/network_port.py:30-43 | the refusal is the `NetworkConnectionException` naming both ends when both assets have a hostname, and a `TypeError` otherwise |
| NetworkPorts.MapMac | rackcity/models/network_port.py:44-45 | a connect keeps a missing address missing and gives a present one the as-written formatted length |
| NetworkPorts.ConnectTwiceOverflows | rackcity/models/network_port.py:44-47 | two successful connects of a port holding a 12-character address leave 23 characters, over the column's 17 |
| NetworkPorts.AlreadyConnected | rackcity/models/network_port.py:33-43 | the refusal names the destination and its current partner |
| NetworkPorts.Connect | rackcity/models/network_port.py:29-51 | connecting keeps every cable symmetric, whether or not it succeeds |
| NetworkPorts.Disconnect | rackcity/models/network_port.py:53-61 | disconnecting keeps the wiring symmetric and unwires the port |
| Power.PduStatusExtDigits | rackcity/views/power_views.py:413-419 | for racks 0..99 the name is row, two digits reading back as the rack number, side |
| Power.PduStatusExtExample | rackcity/views/power_views.py:413-419 | A1 left is "A01L"; B12 right is "B12R" |
| Power.AllPorts | rackcity/views/power_views.py:324-325 | `range(1, 25)` is the ports 1..24 in order |
| Power.TakePorts | rackcity/views/power_views.py:326-390 | the loops release exactly what the specification takes, or stop at the first missing port |
| Power.FirstCommon | rackcity/views/power_views.py:392-395 | a suggestion is free on both sides; there is none iff no left port is free on the right |
| Power.Suggest | rackcity/views/power_views.py:392-395 | the scan finds exactly the first common free port |
| Power.PowerAvailability | rackcity/views/power_views.py:324-405 | the view's answer is the specified availability |
| Power.TakeAllSucceedsIff | rackcity/views/power_views.py:326-390 | taking all ports succeeds iff every cable claims a free port no other cable on its side uses |
| Power.TakeAllMembers | rackcity/views/power_views.py:326-390 | afterwards a port is free on a side iff it was free and no cable on that side uses it |
| Power.AvailabilityTheorem | rackcity/views/power_views.py:324-405 | a missing port iff some cable is unclaimable; otherwise the lists increase and hold exactly the unused ports of 1..24 |
| Power.SuggestIsLowest | rackcity/views/power_views.py:392-395 | the suggestion is the lowest port free on both sides |
| Power.BadCables | rackcity/views/power_views.py:332-344 | a cable on port 25, or two cables on one port and side, fail with that port |
| Power.ChassisRequestParameters | rackcity/views/power_views.py:599-625 | a missing key gives its message; then a non-int slot, then a non-int chassis id gives its message (a `TypeError` escapes), all before the chassis lookup; with both ints the request is accepted iff the id names a BMI blade chassis and the slot is in 1..14, and then yields that chassis's hostname and the slot |
| Power.NotInt | rackcity/views/power_views.py:604-610 | a `ValueError` of either conversion becomes the not-int message; any other error escapes unchanged |
| Power.ChassisRequestAccepted | rackcity/views/power_views.py:599-625 | an existing BMI chassis and slot 1..14 are accepted, the id also as text |
| Power.ChassisSlotCheckedLast | rackcity/views/power_views.py:611-624 | slot 15 is reported only for a chassis that passed the other checks |
| Power.ChassisPowerStatus | rackcity/views/power_views.py:445-478 | a refused request is a bad request with "ERROR: " and the refusal's message; a nonzero bcman exit is a connection error; on exit 0 the answer is that of `ReadPowerState` on bcman's line, and a missing line is a `TypeError`; a reported state is ON or OFF |
| Power.ReadPowerState | rackcity/views/power_views.py:465-478 | a state is read iff "is ON" or "is OFF" occurs; "is ON" wins; anything else is echoed back |
| Power.NonzeroExitIsUnreachable | rackcity/views/power_views.py:454-464 | a nonzero bcman exit is a connection failure whatever it printed |
| Power.OnWinsOverOff | rackcity/views/power_views.py:465-468 | a line with both states reads as ON |
| Errors.RackList | rackcity/utils/errors_utils.py:78-81 | the list names every rack |
| Errors.RackListOrder | rackcity/utils/errors_utils.py:78-81 | one rack gives its name, and two stretches of racks give their lists joined by ", ", so the names appear in order |
| Errors.Shown | rackcity/utils/errors_utils.py:43-50 | a message shows all racks below five, otherwise the first five |
| Errors.TruncatedShape | rackcity/utils/errors_utils.py:42-75 | a message contains its list; a truncated one says "at least" and ends in ", ..." |
| Errors.RackMessagesShowFirstFive | rackcity/utils/errors_utils.py:42-75 | all three messages name each shown rack; from five racks on they say "at least" and end in ", ..." |
| Errors.RacksAfterFifthIgnored | rackcity/utils/errors_utils.py:42-75 | racks after the fifth do not change a message |
| Errors.SerializerEntries | rackcity/utils/errors_utils.py:87-92 | one entry per field, in order, numbered from 1 |
| Errors.ParseSerializerErrors | rackcity/utils/errors_utils.py:84-93 | the message is the numbered entries joined by spaces |
| Errors.SerializerMessageNamesEveryField | rackcity/utils/errors_utils.py:84-93 | no errors give ""; every field's numbered entry occurs in the message |
| Errors.ParseValidationError | rackcity/utils/errors_utils.py:96-103 | a validation error's messages concatenated; anything else the unknown-error text |
| Errors.ConcatHoldsMessages | rackcity/utils/errors_utils.py:99-100 | the concatenation holds each message and is as long as all of them together |
| AssetUtils.ValidateNetworkConnectionData | rackcity/utils/asset_utils.py:53-79 | the three error cases, each with its message |
| AssetUtils.ValidEntries | rackcity/utils/asset_utils.py:53-89 | an entry passes iff it names its source port and gives both or neither destination field |
| AssetUtils.SourcePortFirst | rackcity/utils/asset_utils.py:59-60 | a missing source port is reported whatever else the entry holds |
| AssetUtils.SaveMacAddresses | rackcity/utils/asset_utils.py:351-370 | nothing for a missing or empty assignment; otherwise the stored addresses and the collected failure are those specified |
| AssetUtils.MacFailuresEmptyIff | rackcity/utils/asset_utils.py:356-369 | the call fails iff some port name is unknown or some save is refused |
| AssetUtils.StoredMacsCount | rackcity/utils/asset_utils.py:356-368 | at most one stored address per assignment, all of them when nothing fails |
| Assets.HostnamePatternIsRfc1034 | rackcity/models/asset.py:20-24 | the pattern accepts exactly the labels of the grammar of section 3.5 of RFC 1034 |
| Assets.ValidateHostname | rackcity/models/asset.py:20-24 | no complaint iff the value is missing, empty or matches the pattern |
| Assets.HostnameExamples | rackcity/models/asset.py:20-24 | "server-01" and "a" pass; "1server" and "server-" fail |
| Assets.LongHostnameRejected | rackcity/models/asset.py:20-24 | nothing over 63 characters passes |
| Assets.ValidateOwner | rackcity/models/asset.py:29-36 | no complaint iff the value is missing, empty or a user name |
| Assets.LeastUnusedFrom | rackcity/models/asset.py:12-17 | the number found is free, below 999999 and above every free one before it; none iff all are used |
| Assets.GetNextAvailableAssetNumber | rackcity/models/asset.py:12-17 | the loop finds the least free number of 100000..999998 |
| Assets.LastNumberNeverChosen | rackcity/models/asset.py:12-17 | with 100000..999998 taken there is no number, even if 999999 is free |
| Assets.NextNumberIsLeast | rackcity/models/asset.py:12-17 | with some number of the range free, one is found, no larger than it |
| Assets.PowerPortNames | rackcity/models/asset.py:122-123 | the names are "1" to "n" |
| Assets.PowerPortNamesDistinct | rackcity/models/asset.py:122-123 | each name reads back as its position from 1, so the names are distinct |
| Assets.Asset.constructor | rackcity/models/asset.py:59-84 | a new asset has its fields and no ports |
| Assets.Asset.AddNetworkPorts | rackcity/models/asset.py:103-115 | only an asset without network ports whose model has some gets them, in the model's order |
| Assets.Asset.AddPowerPorts | rackcity/models/asset.py:117-128 | only an asset without power ports gets ports "1" to `num_power_ports` |
| Assets.Asset.Save | rackcity/models/asset.py:90-101 | a hostname error and then an owner error stop the save unchanged; otherwise a missing number becomes the next free one and a new asset gets its ports |
| Assets.SaveTwice | rackcity/models/asset.py:90-128 | a second save assigns no new number and adds no ports |
| ModelUtils.ModelTypeOf | rackcity/models/model_utils.py:8-11 | a stored value names the kind that stores it |
| ModelUtils.ModelTypeRoundTrip | rackcity/models/model_utils.py:8-11 | every kind is recovered from its value |
| ModelUtils.ModelTypeValues | rackcity/models/model_utils.py:8-11 | exactly "Rackmount", "Chassis" and "Blade" name a kind |
| ModelUtils.DisplayColorError | rackcity/models/model_utils.py:14-18 | no complaint iff the value is missing, empty or `#` and six hex digits |
| ModelUtils.DefaultDisplayColorIsValid | rackcity/models/model_utils.py:5 | the default colour passes the colour validator |
| ModelUtils.DisplayColorCaseInsensitive | rackcity/models/model_utils.py:14-18 | the colour check ignores letter case |
| ModelUtils.ValidColorLength | rackcity/models/model_utils.py:14-18 | a valid non-empty colour is seven characters starting with `#` |
| ModelUtils.PortnameError | rackcity/models/model_utils.py:20-23 | no complaint iff the name has no white space |
| ModelUtils.PortnameConcat | rackcity/models/model_utils.py:20-23 | two names joined pass iff both pass |

## Left out

- HTTP handling, authentication and JSON responses are left out. The views are modelled from the point where they have their parsed inputs: `pdu_power_status`, `pdu_power_on/off/cycle`, `toggle_pdu_power`, `chassis_power_on/off/cycle`, `pdu_power_availability`'s query-parameter and change-plan lookups, and the rack delete in rackView.tsx.
- `make_bcman_request` is left out: it runs the expect script with `os.system`, reads a temporary file and takes its first line. It is the `bcman` parameter of `Power.ChassisPowerStatus`.
- `time.sleep` in the power-cycle view is left out.
- `regex_power_status` is left out, because it is an HTML regular expression over a PDU page that is not part of this model.
- Database queries and saves are left out (`Rack.objects.get`, `ITModel.objects.get`, `Asset.objects.get`, `User.objects.all`, `get_existing_network_port`, `.save()`). They are parameters or maps, and Django object identity is idealised as Dafny heap objects.
- `save_network_connections` / `save_power_connections` are left out, as are the change-plan copies in asset_utils.py. Only the checks and the MAC loop are modelled.
- `RackRangeSerializer` is a parameter of the rack-range filter, because its validation is not part of this model.
- React rendering, CSS, toasts, `updateSortData`, `updateBarcodes` and the values of `ROUTES` are left out. The route prefix is an input of `ElementTable.DetailRoute`.
- `Js.ParseInt` models `parseInt` on the strings the front end sees, as decimal and hexadecimal digit prefixes. JavaScript's float precision for very long digit strings is not modelled.
- Python's `\s` matches Unicode white space and `str.lower` is Unicode-aware. `Python.IsSpace` and `Strings.Lower` cover ASCII only.
- `CompareField` in RecordComparison only compares values of the kinds in `Python.Value` (None, bools, ints, strings, lists, dicts). Floats and model objects are not modelled.
- The availability view builds its failure message by adding a port number to a string, and the type of that number is not visible here. `Power.PowerAvailability` returns the missing port, not the message text.
- `Power.PowerAvailability`: when no port is free on both sides, the source reads an unbound `suggest` and fails. The model returns `NoSuggestion` there.
- `RackPlacement.NoInfileLocationConflicts`: an import record always has its four keys `rack`, `model`, `elevation` and `hostname`, so the `KeyError` a record without one raises is not modelled; a `hostname` of `None` is modelled.
- `AssetUtils.ValidateNetworkConnectionData`: a missing key raises `KeyError` in the source. The model's entry always has its three fields, so that error is not modelled.
- `AssetUtils.SaveMacAddresses`: an address of `None` (which would make the failure message's `+` raise) is not modelled. Addresses are strings.
- `Assets.Asset.Save`: when every number is taken, the source assigns `None` and the database save then fails. The model leaves the number `None` and does not model the database's refusal.
- `Assets.Asset`: `num_power_ports` is a natural, 0 standing for both 0 and `None`. Both are falsy and add no ports.
- `RackView.GetRows` requires every asset to be `Drawable`. A change-plan copy without a related asset, or a chassis whose blade list is missing, makes the source throw a `TypeError` while building the row, so such inputs are excluded rather than modelled as a crash. The exclusion is wider than the crash: the source does not fail on such an asset when the loop never reaches it (it is queued behind a head that stays put), nor on a chassis without blades whose row does not fit, since the label is built only for a row that fits.
- `RackView`: rows are prepended (`unshift`), so the elevation reads from the top of the rack down. The model follows this code, not a bottom-first description.
- `Inventory.DisplayColor`: the asset colour falls back to the model colour and no further. There is no neutral default colour in this code; a missing model colour stays missing.
- Several lemmas are proved by the verifier from the definitions alone, and are kept as statements of the design: `Inventory.NavigationIgnoresCopyIdentity`, `AssetUtils.ValidEntries`, `AssetUtils.SourcePortFirst`, `Errors.RacksAfterFifthIgnored`, `Power.NonzeroExitIsUnreachable`, `Assets.LongHostnameRejected`, `Assets.LastNumberNeverChosen`, `Assets.NextNumberIsLeast`, `ModelUtils.ModelTypeRoundTrip`, `ModelUtils.ModelTypeValues`, `ModelUtils.ValidColorLength`.
- The change-plan views, validation of `AssetCP`, log_utils, pdu_views and the other non-core files are not part of this model.

## Findings

| source | as written | input that shows it | evidently intended | confidence | as-written member | corrected member |
|---|---|---|---|---|---|---|
| rackcity/models/network_port.py:4-11, 44-47 | `format_mac_address` turns `-` into `:` and then pairs up every character, delimiters included. `create_network_connection` re-formats a stored address on every connect. | "abcd" formats to "ab-cd", and re-formatting gives "ab-:c". A 12-character address formats to 17 characters, and a second connect makes it 23, over the field's `max_length=17`. | Delimiters are stripped before pairing, so formatting is idempotent and a connect does not change an address that is already formatted. | not executed | NetworkPorts.FormatMacAddressNotIdempotent | NetworkPorts.FormatMacIdempotent |

`NetworkPorts.FormatMacAddress` is the formatting as written. `NetworkPorts.FormatMacAddressTwiceOverflows` states the length overflow. `NetworkPorts.FormatMac` is the corrected formatting, and `NetworkPorts.FormatMacAgrees` proves it agrees with the original on addresses without delimiters. `NetworkPorts.NetworkPort.CreateNetworkConnection` applies the formatting as written, as the source does, and `NetworkPorts.ConnectTwiceOverflows` shows the overflow at the level of two connects. The corrected formatting is what a connect would apply once the defect is repaired. Which delimiter the output should carry is open: the code writes `-` while the column's comment (network_port.py:23) asks for `:`. `FormatMac` keeps the `-` the code writes.
