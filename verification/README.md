# Parking engine: a Dafny model

This project models the engine of a single-site parking management
dashboard. The engine keeps four collections:

- the vehicles that entered, and whether each is still parked or has exited;
- the payments taken at exit;
- a fixed pool of parking spaces, each free, occupied, blocked or reserved;
- the site configuration.

It offers the operations behind the dashboard:

- register an entry: normalise the plate, refuse it if it is empty or already parked, choose the first free space of the vehicle type, record the vehicle and occupy the space;
- register an exit: bill one rate per started hour, record the payment, mark the vehicle exited and free its space;
- block or unblock a space;
- reserve a space, or release a reservation;
- merge a partial configuration into the current one.

It also holds the pure helpers those operations use:

- billable minutes between two instants;
- the fee;
- the hours/minutes split shown on screen;
- construction of the space pool from the per-type space counts.

Files:

- `JsLib.dfy`: the JavaScript built-ins the engine relies on, on values. These are `Array.prototype.find` and `map`, `Number.prototype.toString`, `padStart`, `toUpperCase`, `trim` (with the ECMAScript whitespace set), and the truncating `%`.
- `ParkingTypes.dfy`: the enumerations, the vehicle, payment and space records, the configuration and `DEFAULT_CONFIG`.
- `ParkingUtils.dfy`: `calcDuration`, `calcFee`, the integer part of `formatDuration`, and `initSpaces`. `initSpaces` is written as the loop it is (`PushSpaces`, `InitSpaces`) and proved equal to the reference pool `SpacePool`.
- `ParkingContext.dfy`: the engine as the class `ParkingProvider`.
  - Its fields `vehicles`, `payments`, `spaces` and `config` are reassigned by `modifies this` methods.
  - Every method is tied to pure functions of the old state (`Admit`, `OccupySpace`, `ReleaseSpaces`, `MarkExited`, `ToggleBlock`, `Reserve`, `Unreserve`, `MergeConfig`).
  - The invariants are proved as lemmas about those functions.

Modelling choices:

- Instants are integer milliseconds since the epoch. The current time is a parameter, and so are the generated vehicle ids, payment ids and ticket codes.
- `Valid()` is kept by every operation. It has three parts:
  - a space is occupied exactly when it records a vehicle;
  - space ids are distinct;
  - no two parked vehicles share a plate.
- `Linked` is the back-reference invariant, kept by every operation. For an entry this needs a fresh vehicle id, which the id generator is meant to supply. Its four parts:
  - vehicle ids are distinct;
  - every recorded vehicle is parked and points back at the space that records it;
  - every parked vehicle is recorded by its space;
  - no vehicle is recorded twice.
- The fee multiplier is a per-vehicle-type natural number (`FeeRates`), passed to `RegisterExit`. See "## Findings".

Where the code and what the application's screens promise differ, the model follows the code:

- Toggling the block of a reserved space blocks it. The spaces screen (src/components/parking/ParkingSpaces.tsx:62-70) offers "Bloquear" only on a free space and "Desbloquear" only on a blocked one. `toggleSpaceBlock` (src/contexts/ParkingContext.tsx:170) also blocks a reserved space, and `ToggleBlockEffect` states that transition.

The code as written bills every stay as NaN (see "## Findings"). Even with the hourly rate as the multiplier, the fee ignores the configured grace period. The settings screen (src/components/parking/ParkingSettings.tsx:179) promises that 1 h 05 min with a 5-minute grace is billed as one hour. `CalcFeeIgnoresGracePeriod` shows that the corrected fee bills it as two hours.

## Model

| member | source | states |
|---|---|---|
| JsLib.FindFirst | src/contexts/ParkingContext.tsx:100 | `find`: no match iff no element satisfies the predicate; otherwise the index of a match with none before it |
| JsLib.TrimShape | src/contexts/ParkingContext.tsx:95 | `trim`: the result neither starts nor ends with whitespace, and it is empty iff the input is all whitespace |
| JsLib.TrimInfix | src/contexts/ParkingContext.tsx:95 | `trim` returns an infix of the input, and everything cut off on either side is whitespace |
| JsLib.TrimIdempotent | src/contexts/ParkingContext.tsx:95 | trimming twice is trimming once |
| JsLib.DecInjective | src/lib/parking-utils.ts:60 | `toString` of different non-negative integers gives different strings; `ParseDecOfDec` reads them back |
| JsLib.DecShape | src/lib/parking-utils.ts:60 | only 0 prints with a leading zero; exactly the numbers below 10 print as one digit |
| ParkingTypes.DefaultRatesOrdered | src/lib/parking-types.ts:128-132 | every default rate is positive, and per type hour < night < day < 24h < monthly |
| ParkingTypes.DefaultSettings | src/lib/parking-types.ts:133-136 | the default pool is 20 cars, 10 motorcycles and 5 trucks; the grace period is 5; the currency is COP |
| ParkingUtils.CeilDiv | src/lib/parking-utils.ts:23 | `Math.ceil(a / d)` for a positive divisor: the result q satisfies (q-1)·d < a ≤ q·d, the least such integer; `CeilDivUnique` shows these bounds fix q |
| ParkingUtils.CalcDuration | src/lib/parking-utils.ts:21-24 | the billed duration is at least one minute |
| ParkingUtils.CalcDurationMinimum | src/lib/parking-utils.ts:21-24 | any stay of up to one minute, or with exit not after entry, bills one minute |
| ParkingUtils.CalcDurationExact | src/lib/parking-utils.ts:21-24 | the duration is k > 1 iff the elapsed time is in ((k-1) min, k min]; it is 1 iff the elapsed time is at most one minute |
| ParkingUtils.CalcDurationMonotone | src/lib/parking-utils.ts:21-24 | a later exit never bills fewer minutes |
| ParkingUtils.CalcFee | src/lib/parking-utils.ts:27-30 | no ensures of its own: its value is given by `CalcFeeBands` (k rates exactly for a stay in ((k-1) h, k h]) and bounded by the other `CalcFee*` lemmas |
| ParkingUtils.CalcFeeBands | src/lib/parking-utils.ts:27-30 | a stay in ((k-1) h, k h] costs k rates; for a positive rate, k rates means the stay is in that band |
| ParkingUtils.CalcFeeFirstHours | src/lib/parking-utils.ts:27-30 | minutes 1 to 60 cost one rate; minute 61 costs two |
| ParkingUtils.CalcFeeIgnoresGracePeriod | src/lib/parking-utils.ts:27-30 | under every configuration with non-negative hourly rates, whatever its grace period, 65 minutes cost two hourly rates |
| ParkingUtils.CalcFeeMonotone | src/lib/parking-utils.ts:27-30 | staying longer never costs less |
| ParkingUtils.CalcFeeMultipleOfRate | src/lib/parking-utils.ts:27-30 | the fee is a whole number of rates |
| ParkingUtils.CalcFeeAtLeastOneRate | src/lib/parking-utils.ts:27-30 | any stay of at least one minute costs at least one rate |
| ParkingUtils.ExitFee | src/contexts/ParkingContext.tsx:135-137 | the exit fee is max(1, elapsed time rounded up to whole hours) rates: rounding to minutes and then to hours is rounding to hours |
| ParkingUtils.CalcFeeAsWrittenIsNaN | src/lib/parking-utils.ts:29 | the fee as written, multiplying by a rate table, is NaN for every stay and configuration; derived from `ToNumber` (an object converts to NaN) and `JsMul` |
| ParkingUtils.HourlyRates | src/lib/parking-types.ts:51 | the corrected multiplier: each vehicle type's rate is its configured hourly rate |
| ParkingUtils.DefaultHourlyFee | src/lib/parking-types.ts:128-132 | with the default hourly rates, a first hour costs the hourly rate and a car's 2 h 05 min costs 15000 |
| ParkingUtils.HourlyProductIsFee | src/lib/parking-utils.ts:27-30 | the intended product, started hours times the hourly rate, is a number, and it equals `CalcFee` under `HourlyRates` |
| ParkingUtils.FormatDuration | src/lib/parking-utils.ts:44-49 | no ensures of its own: `FormatDurationSplit` states what the hours and minutes parts are |
| ParkingUtils.FormatDurationSplit | src/lib/parking-utils.ts:44-49 | for non-negative minutes: hours * 60 + remainder recomposes the input, the remainder is below 60, and the hours are shown exactly from 60 minutes on |
| ParkingUtils.GroupSnoc | src/lib/parking-utils.ts:57-64 | each loop step appends the next numbered space of the type |
| ParkingUtils.PushSpaces | src/lib/parking-utils.ts:57-64 | the inner loop appends spaces 1..n of one type, in order, to what was already built |
| ParkingUtils.InitSpaces | src/lib/parking-utils.ts:52-67 | the loop over car, motorcycle and truck builds exactly the reference pool `SpacePool` |
| ParkingUtils.SpacePool | src/lib/parking-utils.ts:52-67 | no ensures of its own: `InitSpaces` shows the loop builds it, and `SpacePoolLayout`, `SpacePoolAllFree` and `SpacePoolDistinct` state its contents |
| ParkingUtils.SpacePoolLayout | src/lib/parking-utils.ts:52-67 | the pool size is the sum of the non-negative counts; position k holds the space of its slot: car k+1, then motorcycles, then trucks |
| ParkingUtils.SpacePoolAllFree | src/lib/parking-utils.ts:62 | every new space is free and records no vehicle |
| ParkingUtils.SpaceId | src/lib/parking-utils.ts:59 | no ensures of its own: `SpaceIdInjective` states that different spaces get different ids |
| ParkingUtils.SpaceLabel | src/lib/parking-utils.ts:60 | no ensures of its own: `SpaceLabelShape` and `SpaceLabelInjective` state its form and that labels are distinct |
| ParkingUtils.SpaceIdInjective | src/lib/parking-utils.ts:59 | ids `<type>-<i>` of different (type, number) pairs differ |
| ParkingUtils.SpaceLabelShape | src/lib/parking-utils.ts:55-60 | a label is the type's prefix letter and then the number, zero-padded to two digits |
| ParkingUtils.SpaceLabelInjective | src/lib/parking-utils.ts:55-60 | labels of different (type, number) pairs with numbers from 1 differ |
| ParkingUtils.SpacePoolDistinct | src/lib/parking-utils.ts:52-67 | no two pool spaces share an id or a label |
| ParkingUtils.DefaultPoolSize | src/lib/parking-types.ts:133 | the default configuration yields 35 spaces |
| ParkingContext.NormalizePlate | src/contexts/ParkingContext.tsx:95 | the normalised plate is never longer than the plate; `NormalizePlateInfix` states its contents and `NormalizePlateShape` its shape |
| ParkingContext.NormalizePlateShape | src/contexts/ParkingContext.tsx:95-96 | the normalised plate is empty iff the plate is all whitespace; otherwise its ends are not whitespace; every character is upper-case |
| ParkingContext.NormalizePlateInfix | src/contexts/ParkingContext.tsx:95 | the normalised plate is the upper-cased plate with its leading and trailing whitespace cut off: character i is the upper case of plate character k + i, and all that is cut off is whitespace |
| ParkingContext.NormalizePlateIdempotent | src/contexts/ParkingContext.tsx:95 | normalising a normalised plate changes nothing |
| ParkingContext.FindParkedByPlate | src/contexts/ParkingContext.tsx:100 | none iff no parked vehicle holds the plate; otherwise the index of the first one that does |
| ParkingContext.FindParkedById | src/contexts/ParkingContext.tsx:130 | none iff no parked vehicle has the id; otherwise the index of the first one that does, whose record the exit bills |
| ParkingContext.FindFreeSpace | src/contexts/ParkingContext.tsx:105 | none iff no space of the type is free; otherwise the first free space of the type in pool order |
| ParkingContext.Admit | src/contexts/ParkingContext.tsx:95-109 | refusal for an empty plate iff the plate is empty; as already parked iff a parked vehicle holds it; for lack of space iff neither and no space of the type is free; an admission names the first free space of the type |
| ParkingContext.OccupySpace | src/contexts/ParkingContext.tsx:120-124 | no ensures of its own: `OccupyChangesOnlyChosen` shows it changes only the chosen space, which becomes occupied by the vehicle |
| ParkingContext.MarkExited | src/contexts/ParkingContext.tsx:150-154 | no ensures of its own: `ExitChangesOnlyTarget` and `ExitKeepsPlatesUnique` state its effect |
| ParkingContext.ReleaseSpaces | src/contexts/ParkingContext.tsx:155-159 | no ensures of its own: `ReleaseEffect` states its effect: every space recording the vehicle becomes free with no vehicle, and every other space is unchanged |
| ParkingContext.ToggleBlock | src/contexts/ParkingContext.tsx:165-173 | no ensures of its own: `ToggleBlockEffect` states its transitions, and `ToggleBlockSparesOccupied` and `ToggleBlockTwice` state what it keeps |
| ParkingContext.Reserve | src/contexts/ParkingContext.tsx:175-182 | no ensures of its own: `ReserveEffect` states its transitions, and `ReserveSparesOccupied`, `ReserveUnreserve` and `UnreserveReserve` what it keeps and undoes |
| ParkingContext.Unreserve | src/contexts/ParkingContext.tsx:184-190 | no ensures of its own: `UnreserveEffect` states its transitions, and `UnreserveSparesOccupied`, `ReserveUnreserve` and `UnreserveReserve` what it keeps and undoes |
| ParkingContext.OccupyChangesOnlyChosen | src/contexts/ParkingContext.tsx:120-124 | with distinct ids, occupying changes the chosen space alone; the layout, distinct ids and occupancy consistency are kept |
| ParkingContext.ReleaseEffect | src/contexts/ParkingContext.tsx:155-159 | every space recording the vehicle becomes free with no vehicle, so none records it afterwards; every other space is unchanged; the layout, distinct ids and occupancy consistency are kept |
| ParkingContext.EntryKeepsPlatesUnique | src/contexts/ParkingContext.tsx:100-119 | prepending a vehicle whose plate no parked vehicle holds keeps parked plates unique |
| ParkingContext.ExitKeepsPlatesUnique | src/contexts/ParkingContext.tsx:150-154 | marking vehicles exited keeps parked plates unique |
| ParkingContext.ExitChangesOnlyTarget | src/contexts/ParkingContext.tsx:150-154 | with distinct vehicle ids, an exit updates only the exiting vehicle's record |
| ParkingContext.ExitReleasesOwnSpace | src/contexts/ParkingContext.tsx:155-159 | under `Linked`, the spaces recording the exiting vehicle are exactly its own space |
| ParkingContext.EntryKeepsLinked | src/contexts/ParkingContext.tsx:110-124 | an entry with a fresh id into a free space keeps vehicles and spaces linked |
| ParkingContext.ExitKeepsLinked | src/contexts/ParkingContext.tsx:150-159 | an exit keeps vehicles and spaces linked |
| ParkingContext.OccupyReleaseRoundTrip | src/contexts/ParkingContext.tsx:120-159 | occupying a free space and then releasing the vehicle gives back the original pool |
| ParkingContext.ToggleBlockSparesOccupied | src/contexts/ParkingContext.tsx:165-173 | blocking and unblocking keep every space's recorded vehicle (so an occupied space stays occupied and nothing becomes occupied), occupancy consistency and the layout |
| ParkingContext.ReserveSparesOccupied | src/contexts/ParkingContext.tsx:175-182 | reserving keeps every space's recorded vehicle, occupancy consistency and the layout |
| ParkingContext.UnreserveSparesOccupied | src/contexts/ParkingContext.tsx:184-190 | releasing a reservation keeps every space's recorded vehicle, occupancy consistency and the layout |
| ParkingContext.ToggleBlockEffect | src/contexts/ParkingContext.tsx:165-173 | a blocked target becomes free; a free or reserved target becomes blocked; an occupied target and every space with another id are unchanged |
| ParkingContext.ReserveEffect | src/contexts/ParkingContext.tsx:175-182 | a free target becomes reserved; every other space, including a target that is not free, is unchanged |
| ParkingContext.UnreserveEffect | src/contexts/ParkingContext.tsx:184-190 | a reserved target becomes free; every other space, including a target that is not reserved, is unchanged |
| ParkingContext.ToggleBlockTwice | src/contexts/ParkingContext.tsx:165-173 | toggling twice restores the pool iff no space with the id is reserved |
| ParkingContext.ReserveUnreserve | src/contexts/ParkingContext.tsx:175-190 | reserving then unreserving restores the pool iff no space with the id was already reserved |
| ParkingContext.UnreserveReserve | src/contexts/ParkingContext.tsx:175-190 | unreserving then reserving restores the pool iff no space with the id was free |
| ParkingContext.MergeConfig | src/contexts/ParkingContext.tsx:89-92 | no ensures of its own: `MergeConfigFields` states the merge field by field, and `MergeConfigLaws` its laws |
| ParkingContext.MergeConfigFields | src/contexts/ParkingContext.tsx:90 | `{ ...prev, ...partial }`: each field the patch gives replaces the current one, and each field it leaves out is kept |
| ParkingContext.MergeConfigLaws | src/contexts/ParkingContext.tsx:89-92 | the shallow merge: an empty patch is the identity, a repeated patch changes nothing more, and two merges are one merge of the combined patch |
| ParkingContext.ParkingProvider.constructor | src/contexts/ParkingContext.tsx:43-56 | a fresh engine has no vehicles or payments and the pool built from the configuration; `Valid` and `Linked` hold |
| ParkingContext.ParkingProvider.UpdateConfig | src/contexts/ParkingContext.tsx:89-92 | the configuration becomes the merge of the old one with the patch; nothing else changes |
| ParkingContext.ParkingProvider.RegisterEntry | src/contexts/ParkingContext.tsx:94-127 | rejected exactly when `Admit` refuses, with its reason and no change. Otherwise the vehicle record as built, prepended, and only the chosen space occupied by it. `Valid`, the layout and (for a fresh id) `Linked` are kept |
| ParkingContext.ParkingProvider.RegisterExit | src/contexts/ParkingContext.tsx:129-163 | none, with no change, iff no parked vehicle has the id. Otherwise the payment with the billed duration and fee, prepended; the vehicle exited; its space freed. Under `Linked` only that vehicle and its own space change. `Valid`, the layout and `Linked` are kept |
| ParkingContext.ParkingProvider.ToggleSpaceBlock | src/contexts/ParkingContext.tsx:165-173 | the pool becomes `ToggleBlock` of the old one; the rest is unchanged; `Valid`, the layout and `Linked` are kept |
| ParkingContext.ParkingProvider.ReserveSpace | src/contexts/ParkingContext.tsx:175-182 | the pool becomes `Reserve` of the old one; the rest is unchanged; `Valid`, the layout and `Linked` are kept |
| ParkingContext.ParkingProvider.UnreserveSpace | src/contexts/ParkingContext.tsx:184-190 | the pool becomes `Unreserve` of the old one; the rest is unchanged; `Valid`, the layout and `Linked` are kept |

## Findings

| source | as written | input that shows it | evidently intended | confidence | as-written member | corrected member |
|---|---|---|---|---|---|---|
| src/lib/parking-utils.ts:29 | `hours * config.rates[type]` multiplies by the vehicle type's whole rate table (`RatesConfig` maps each type to a record of rates, src/lib/parking-types.ts:51), so the fee is NaN | any stay: 61 minutes for a car under `DEFAULT_CONFIG` gives NaN instead of 10000 | multiply the started hours by the hourly rate `config.rates[type].hour` | high, not executed | ParkingUtils.CalcFeeAsWrittenIsNaN | ParkingUtils.HourlyRates |

The rest of the model bills with the corrected fee, `CalcFee` over `FeeRates`. `HourlyRates(config)` is the instance the code means; `DefaultHourlyFee` and the `CalcFee*` lemmas state its properties.

## Left out

- ParkingUtils.CalcFee: does not model the NaN that the code as written produces; it multiplies by the abstract `FeeRates` (see "## Findings"). The grace period, the rate type (day, night, 24h), the convenio discount and the five-argument `calcFee(minutes, type, rateType, config, convenio)` called at src/components/parking/VehicleEntry.tsx:286-287 are not modelled; that function is not part of this model.
- ParkingContext.ParkingProvider.RegisterEntry: the vehicle id, the ticket code and the entry time come in as parameters. `generateId`, `generateTicketCode` and `Date` are random or clock-driven. `Linked` is promised only when the id is fresh.
- ParkingContext.ParkingProvider.RegisterExit: the payment id and the exit time are parameters. The `subtotal`, `discount`, `rateType` and `convenio` fields of a payment, which this operation does not set, are not modelled. The fee multiplier is the `rates` parameter and is not read from the engine's `config`, so a rates change made by `UpdateConfig` does not reach the fee in this model. A caller that passes `HourlyRates(config)` gets the fee the code means, as `HourlyProductIsFee` states.
- ParkingContext.ParkingProvider.constructor: builds the pool with `initSpaces`. Loading saved collections, configuration and role from browser storage (`loadState`, the `saved ?? initSpaces(config)` path) and saving after each change are I/O and not modelled. A pool loaded from storage need not satisfy `Valid`.
- ParkingContext.ParkingProvider.constructor: the demo data is not modelled. When a storage flag is absent, an effect on mount (src/contexts/ParkingContext.tsx:63-73) replaces the collections with those of `seedDemoData` (src/lib/parking-utils.ts:113-176). That function parks three vehicles and adds exited vehicles and payments, from the clock and from random numbers. Its exited vehicles name random spaces.
- ParkingTypes.Vehicle: the `rateType`, `convenio` and `helmetNumber` fields of a vehicle (src/lib/parking-types.ts:16, 22-23) are left out, because `registerEntry` does not assign them (src/contexts/ParkingContext.tsx:110-118).
- ParkingUtils.HourlyRates: requires every configured hourly rate to be non-negative, because the fee multiplier is a natural number. The rates form accepts any number, and negative configured rates are excluded.
- ParkingContext.NormalizePlate: `toUpperCase` maps only the ASCII letters; case mapping beyond ASCII is not modelled.
- ParkingContext.MergeConfig: a patch field that is present but `undefined` (which a spread copies) is not distinguished from an absent one.
- ParkingUtils.CalcDuration: instants are integer milliseconds, not ISO strings. Invalid dates (NaN) and non-integer minutes are not modelled.
- ParkingUtils.FormatDuration: only the split into hours and minutes; the text rendering is not modelled.
- React state semantics (functional updates, batching, stale closures between `vehicles` captured by a callback and the latest state) are not modelled. Each operation is one atomic step on the latest state.
- The display label maps (src/lib/parking-types.ts:100-118), alerts, the user role and its type, `formatCurrency`, `formatDateTime`, CSV/JSON export, printing and the user-interface components are presentation and not modelled.
- Monthly subscriptions, plate validation and vehicle-type detection belong to other parts of the application and are not part of this model.
- The remote database schema mirror is not part of this model.
