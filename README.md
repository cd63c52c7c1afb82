# Clockface in Dafny

Clockface is a Minecraft server plugin that builds analogue clocks out of
blocks. Each clock is a named record (world, anchor block, facing, radius and
two hand materials) kept in a registry. A repeating task redraws every clock:
it clears a filled disk of the face and an inner disk one block behind it,
then rasterises a long hand at depth 0 and a short hand at depth -1 from the
world's time of day. A `/clock add|delete` command edits the registry, and
its tab completer suggests subcommands, clock names and block materials.

This project models that core and proves properties of it:

- `geometry.dfy` (module `Geometry`) holds the voxel geometry kernel:
  - the Bresenham rasteriser `linePoints`, as `LinePoints` with its two loops `WalkAlongX` and `WalkAlongY`, proved equal to the reference definition `Line`;
  - the filled-disk scan `fillCirclePoints`, as `FillCirclePoints`, proved equal to the set `Disk`;
  - the midpoint-circle generator `circlePoints`, as `CirclePoints`;
  - exact quarter turns about the vertical axis.
- `host.dfy` (module `Host`) holds the slice of the server the plugin touches:
  - voxels and chunks;
  - a world as a map from block to material, where a missing block reads AIR;
  - a `Server` object whose `SetType` is `block.type = m`.
- `clocks.dfy` (module `Clocks`) holds `ClockData` and the plugin object `Clockface`:
  - the registry map, its LinkedHashMap key order, and a ghost snapshot of what was last saved;
  - `ClearClock`, `UpdateClock`, `CreateClock`, `RemoveClock`, and `Tick`, which is the body of the repeating task;
  - each of these is proved against a function on worlds (`ClearEffect`, `UpdateEffect`, `TickEffect`), and those functions carry the lemmas.
- `commands.dfy` (module `Commands`) holds the command:
  - `String.toInt` as `ParseInt`, with a round trip against `FormatInt`;
  - the material lookup;
  - `onTabComplete` as `TabComplete`;
  - `onCommand`'s validation tree as the decision function `Decide`;
  - the `ClockCommand` object, which applies the decision to the registry.

### Arithmetic

The floating-point parts of the source are restated exactly in integers:

- The error term of `linePoints` is doubled so that it stays an integer. The minor coordinate after `i` major steps is then the integer nearest to `i·minor/major`, with a tie rounded down (`RoundedRatio`).
- The test `sqrt(x²+y²) < r + 1.5` is `4(x²+y²) < (2r+3)²`.
- `roundToInt` of `0.8r` is `(8r+5)/10`, and of `0.75r` it is `(3r+2)/4`. Both use floor division.
- The initial `d` of `circlePoints` uses Kotlin's truncating `/` (`TruncDiv`).

### Behaviour of the code worth knowing

- `onCommand` accepts any Int as the radius, zero and negative ones included (`Commands.AnyRadiusAccepted`). With a negative radius nothing is cleared, yet the redraw still paints the centre of the long hand, and no later clear removes it (`Clocks.NegativeRadiusStrandsHands`).
- `clearClock` clears only the two disks and never recomputes the previous hand lines. For `radius ≥ 0` the disks cover both hands (`Clocks.HandsInsideTargets`), so no hand voxel outlives the next clear (`Clocks.ClearAfterUpdate`).
- The long hand, whose length is the radius, is at depth 0 and is painted with `hourHandMaterial`. The short hand, of length round(0.75·radius), is at depth -1 and is painted with `minuteHandMaterial`.
- The rotation is `rotateAroundAxis` in floating point, then the move to the clock's position, then flooring to a block. Because the flooring comes last, the rounding of a rotated point can depend on the anchor. The model takes the whole placement as a parameter (`Clocks.Placement`) that receives the facing, the point and the anchor. The exact quarter turn `ExactTurn` is offered as the idealised instance.
- The facing derived from the player's yaw can be 4 as well as 0–3. A quarter turn reduces it modulo 4.

## Model

| member | source | states |
|---|---|---|
| Geometry.RoundedRatioNearest | src/main/kotlin/Clockface.kt:169-179 | the doubled error term keeps the minor coordinate within half a step of the ideal line |
| Geometry.RoundedRatioBounds | src/main/kotlin/Clockface.kt:169-179 | the minor offset stays in 0..minor |
| Geometry.RoundedRatioEnds | src/main/kotlin/Clockface.kt:169-179 | the minor offset is 0 before the first step and exactly the minor extent after the last |
| Geometry.RoundedRatioStep | src/main/kotlin/Clockface.kt:172-178 | one major step moves the minor coordinate by 0 or 1 |
| Geometry.BresenhamStep | src/main/kotlin/Clockface.kt:172-178 | one loop pass keeps the error term in [0, 2·major) and the minor coordinate equal to the nearest-integer offset |
| Geometry.WalkAlongX | src/main/kotlin/Clockface.kt:169-179 | the x-dominant loop emits exactly the first dx points of the line and stops on the last one |
| Geometry.WalkAlongY | src/main/kotlin/Clockface.kt:180-191 | the y-dominant loop (including the single-point case) emits exactly the first dy points and stops on the last one |
| Geometry.LinePoints | src/main/kotlin/Clockface.kt:160-194 | linePoints returns exactly the reference line `Line` |
| Geometry.LineEnds | src/main/kotlin/Clockface.kt:160-193 | the line has max(\|dx\|,\|dy\|)+1 points, starts at (x0,y0,z) and ends at (x1,y1,z) |
| Geometry.LineSteps | src/main/kotlin/Clockface.kt:169-191 | consecutive points advance exactly one step along the dominant axis and 0 or 1 step along the other |
| Geometry.LineSimple | src/main/kotlin/Clockface.kt:169-192 | the points are pairwise distinct and consecutive points are 8-neighbours |
| Geometry.LineInBox | src/main/kotlin/Clockface.kt:169-192 | every point has the given z and lies in the bounding box of the endpoints |
| Geometry.DiskMember | src/main/kotlin/Clockface.kt:118-130 | a point is in the disk iff it is at depth cz, within the scanned square and passes the distance test |
| Geometry.FillCirclePoints | src/main/kotlin/Clockface.kt:118-130 | the nested scan returns exactly `Disk` |
| Geometry.DiskEmptyIffNegative | src/main/kotlin/Clockface.kt:121-127 | the disk is empty iff r < 0, and holds its centre otherwise |
| Geometry.DiskSymmetric | src/main/kotlin/Clockface.kt:121-127 | the disk is closed under both axis mirrors and the axis swap about its centre |
| Geometry.DiskMonotone | src/main/kotlin/Clockface.kt:121-123 | a disk of larger radius contains one of smaller radius |
| Geometry.InDiskTowardsCentre | src/main/kotlin/Clockface.kt:121-123 | moving a point towards the centre on each axis keeps it in the disk |
| Geometry.HandInsideDisk | src/main/kotlin/Clockface.kt:54-93 | a hand from the centre to a tip inside the disk of its length lies wholly in the disk of any radius at least that length |
| Geometry.OctantSymmetric | src/main/kotlin/Clockface.kt:139-148 | each group of eight is closed under both mirrors and the axis swap about the centre |
| Geometry.CircleGroupsAppend | src/main/kotlin/Clockface.kt:138-156 | one do-while pass keeps the group shape and leaves earlier groups untouched |
| Geometry.CirclePoints | src/main/kotlin/Clockface.kt:132-158 | the loop terminates; the output is a non-empty multiple of 8; the first group is the mirror set of (0, r); every group mirrors its (k, y_k) with k ≤ y_k ≤ r and y never increasing; for r ≥ 0 at most 8(r+1) points, all in the square of side 2r at depth cz |
| Geometry.FirstGroupOnAxes | src/main/kotlin/Clockface.kt:139-148 | the first group holds (cx, cy±r) and (cx±r, cy) |
| Geometry.CircleInSquare | src/main/kotlin/Clockface.kt:139-148 | groups of that shape lie in the square [-r, r]² around the centre |
| Geometry.QuarterTurnsCompose | src/main/kotlin/Clockface.kt:45-55 | turning by a then by b is turning by a + b, so four turns are the identity |
| Geometry.QuarterTurnInjective | src/main/kotlin/Clockface.kt:45-55 | a quarter turn maps distinct points to distinct points |
| Host.ChunkOf | src/main/kotlin/Clockface.kt:50 | the chunk of a block is the 16×16 column containing it, in the same world |
| Host.PaintedAllReads | src/main/kotlin/Clockface.kt:88-96 | after painting a set, its voxels read the material, the others are unchanged, and AIR is never stored |
| Host.Server.SetType | src/main/kotlin/Clockface.kt:61 | one voxel takes the material, no other changes, and the write is logged |
| Clocks.ExactTurnInjective | src/main/kotlin/Clockface.kt:55-57 | the exact quarter-turn placement, followed by the move to the anchor, is injective for every facing and anchor |
| Clocks.DepthsApart | src/main/kotlin/Clockface.kt:88-96 | with an injective placement, a face point at depth 0 and one at depth -1 never share a block |
| Clocks.Inset | src/main/kotlin/Clockface.kt:63 | the inner radius is round(0.8r), a tie rounded up |
| Clocks.HourLength | src/main/kotlin/Clockface.kt:93 | the short hand's length is round(0.75r), a tie rounded up |
| Clocks.HandLengths | src/main/kotlin/Clockface.kt:63-93 | for r ≥ 0, 0 ≤ short-hand length ≤ inner radius ≤ r; for r < 0 both are negative |
| Clocks.ClearReads | src/main/kotlin/Clockface.kt:44-73 | after a clear of a loaded clock every target reads AIR and every other voxel is unchanged; an unloaded clock changes nothing |
| Clocks.ClearIdempotent | src/main/kotlin/Clockface.kt:44-73 | clearing twice is clearing once |
| Clocks.HandsInsideTargets | src/main/kotlin/Clockface.kt:54-96 | for r ≥ 0 and tips the host can produce, both hands lie in the voxels the clear covers |
| Clocks.ClearAfterUpdate | src/main/kotlin/Clockface.kt:75-97 | no stale voxels: clearing after a redraw gives what clearing without it gives |
| Clocks.UpdateIdempotent | src/main/kotlin/Clockface.kt:75-97 | redrawing twice at the same time of day is redrawing once |
| Clocks.UpdateReads | src/main/kotlin/Clockface.kt:85-97 | after a redraw the long hand holds hourHandMaterial, the short hand minuteHandMaterial, the rest of the cleared voxels AIR, and everything else is unchanged |
| Clocks.NegativeRadiusStrandsHands | src/main/kotlin/Clockface.kt:54-96 | with r < 0 nothing is cleared, yet the long hand's centre is painted and survives every later clear |
| Clocks.TickFrame | src/main/kotlin/Clockface.kt:32-38 | the repeating task changes only voxels in the footprints of clocks whose anchor chunk is loaded |
| Clocks.Without | src/main/kotlin/Clockface.kt:114 | removing a key from the key order keeps every other key, drops that one and keeps keys distinct |
| Clocks.MoveToEnd | src/main/kotlin/Clockface.kt:100-105 | re-inserting a removed key puts it last and keeps keys distinct |
| Clocks.DistinctCount | src/main/kotlin/Clockface.kt:18 | a key order without repetitions has as many entries as there are keys |
| Clocks.InOrderVisitsEach | src/main/kotlin/Clockface.kt:36-38 | iterating the registry visits every registered clock exactly once: as many visits as clocks, each at its name's position in the key order, no name at two positions |
| Clocks.Clockface.constructor | src/main/kotlin/Clockface.kt:17-18 | the registry starts empty and consistent |
| Clocks.Clockface.ClearPoints | src/main/kotlin/Clockface.kt:54-72 | every placed point becomes AIR, and only the points that were not AIR are written |
| Clocks.Clockface.ClearClock | src/main/kotlin/Clockface.kt:44-73 | the world becomes `ClearEffect` of the old one; the writes are exactly the non-AIR targets, and none when the chunk is unloaded |
| Clocks.Clockface.PaintPoints | src/main/kotlin/Clockface.kt:88-96 | every placed point of the hand takes the material and each is written |
| Clocks.Clockface.UpdateClock | src/main/kotlin/Clockface.kt:75-97 | the world becomes `UpdateEffect` of the old one; writes are the non-AIR targets plus both hands, and none when unloaded |
| Clocks.Clockface.RemoveClock | src/main/kotlin/Clockface.kt:109-116 | an absent name changes nothing and writes nothing; a present one is deleted from map and order, saved, and its face cleared only if its chunk is loaded, writing exactly its non-AIR targets |
| Clocks.Clockface.Put | src/main/kotlin/Clockface.kt:105 | storing a new name adds that entry and appends the name to the key order |
| Clocks.Clockface.CreateClock | src/main/kotlin/Clockface.kt:100-107 | an existing clock of that name is cleared and removed first, writing exactly its non-AIR targets, and a new name writes nothing; the new clock is stored under its name, last in order, and saved; every registered clock's world still exists |
| Clocks.Clockface.Tick | src/main/kotlin/Clockface.kt:32-38 | the world becomes `TickEffect` over the clocks in registry order; an empty registry changes nothing and writes nothing |
| Commands.ParseInt | src/main/kotlin/ClockCommand.kt:66-72 | an accepted radius is an optional sign followed by digits and fits in a 32-bit Int |
| Commands.ParseFormat | src/main/kotlin/ClockCommand.kt:66-72 | every Int prints as a string toInt reads back |
| Commands.Upper | src/main/kotlin/ClockCommand.kt:74 | the result has the same length, no lower-case ASCII letter, every other character kept, and each letter at its place in the alphabet |
| Commands.Lower | src/main/kotlin/ClockCommand.kt:34 | the result has the same length, no upper-case ASCII letter, every other character kept, and each letter at its place in the alphabet |
| Commands.UpperIgnoresCase | src/main/kotlin/ClockCommand.kt:74 | upper-casing is idempotent and gives the same name whether or not the argument was lower-cased first |
| Commands.UpperLower | src/main/kotlin/ClockCommand.kt:34 | an upper-case name is recovered by upper-casing its lower-case form |
| Commands.BlockNamed | src/main/kotlin/ClockCommand.kt:74-86 | a found material is an upper-case block material of the catalog and is the argument upper-cased, and every upper-case block material matching the argument up to letter case is found: the lookup succeeds exactly for the block materials the argument names |
| Commands.BlockNames | src/main/kotlin/ClockCommand.kt:34 | the suggestions are exactly the lower-case names of block materials |
| Commands.TabComplete | src/main/kotlin/ClockCommand.kt:12-39 | every suggestion is a subcommand, a registered name or a lower-case block material name; one argument gets exactly `add` and `delete`; after `delete` the suggestions are exactly the registered names; three or four more arguments after `add` get exactly the lower-cased names of all block materials (also `DeleteSuggestionsAccepted`, `MaterialSuggestionsAccepted`, `TabCompleteOtherwiseEmpty`) |
| Commands.Decide | src/main/kotlin/ClockCommand.kt:41-124 | an unhandled command is silent and changes nothing; only permitted players cause a change; a removal names a registered clock and reports it deleted; a created clock stands in the sender's world with a 32-bit radius (the outcomes by case are `OutsidersRefused`, `UsageShown`, `AddCreates`, `AddNeverReplaces` and `DeleteRemoves`) |
| Commands.OutsidersRefused | src/main/kotlin/ClockCommand.kt:42-49 | the console and unpermitted players get true and no registry change |
| Commands.UsageShown | src/main/kotlin/ClockCommand.kt:51-124 | false is returned exactly for an empty, unknown or wrong-length subcommand of a permitted player, and then nothing changes |
| Commands.AddCreates | src/main/kotlin/ClockCommand.kt:55-102 | add creates a clock iff name is new, radius parses and both materials are blocks, with exactly the given fields |
| Commands.AddNeverReplaces | src/main/kotlin/ClockCommand.kt:61-64 | a created clock's name was not registered, so createClock's replace path is unreachable from the command |
| Commands.AnyRadiusAccepted | src/main/kotlin/ClockCommand.kt:66-72 | every Int radius, zero and negative included, is accepted and stored as typed |
| Commands.DeleteRemoves | src/main/kotlin/ClockCommand.kt:108-123 | delete removes iff the name is registered; a missing name gets true and no change |
| Commands.DeleteSuggestionsAccepted | src/main/kotlin/ClockCommand.kt:26-30 | every name suggested after delete is one the command deletes |
| Commands.MaterialSuggestionsAccepted | src/main/kotlin/ClockCommand.kt:32-36 | every material suggested for add is one the command accepts |
| Commands.TabCompleteOtherwiseEmpty | src/main/kotlin/ClockCommand.kt:18-38 | no arguments, three, more than five, or a mismatched subcommand get no suggestions |
| Commands.ClockCommand.constructor | src/main/kotlin/ClockCommand.kt:11 | the executor is bound to the plugin and the material catalog |
| Commands.ClockCommand.OnTabComplete | src/main/kotlin/ClockCommand.kt:26-30 | on a consistent registry, the suggestions after `delete` are exactly the registered clock names |
| Commands.ClockCommand.OnCommand | src/main/kotlin/ClockCommand.kt:41-125 | returns the decided value and performs exactly the decided registry change: none, a fresh insert last in order, or a removal with its clear |

## Left out

- Plugin lifecycle, command registration and the scheduler call (Clockface.kt:21-41). Only the repeating task's body is modelled, as `Tick`.
- `flushClocks` and `loadClocks` are file I/O and JSON. A ghost `saved` snapshot records what a flush writes. The registry starts empty.
- The world-time angle formulas and `lineAtAngle` use doubles, `cos`, `sin` and `floor`. The hand tips come in as `HandTips`. `TipsFit` states what real tips satisfy for `radius ≥ 0`: each coordinate is within the hand length, and the distance is at most length + √2.
- `rotateAroundAxis`, the move to the anchor and the flooring are floating point. The whole placement is the parameter `rotate`, which receives the facing, the point and the anchor, so rounding that depends on the anchor is allowed. The lemmas that need it require it to be injective at each facing and anchor.
- `Bukkit.getWorld(...)!!` becomes an invariant of `Clockface`: every registered clock's world exists. `CreateClock` requires this of the new clock, and `OnCommand` requires it of the player's world.
- The player's yaw-to-facing rounding and location flooring are floating point. They come in as fields of `Sender`.
- `sendMessage` text is modelled only as the `Notice` naming which check answered.
- `Material.values()`, `getMaterial` and `isBlock` are the `Catalog` parameter.
- Commands.ParseInt: accepts only ASCII digits, whereas the JVM also accepts other Unicode decimal digits.
- Commands.Upper: maps only ASCII letters, whereas the JVM also maps other Unicode letters and depends on the default locale.
- Commands.Lower: maps only ASCII letters, for the same reason.
- Geometry.CirclePoints: does not model 32-bit overflow of `radius * 4` or of the `2 * x` terms, because integers here are unbounded. The same goes for `-radius` in `FillCirclePoints`. These only matter for radii near the Int limits, where the loops would not finish in practice.
- The chunks that are loaded do not change while the plugin runs.
- Clocks.Clockface.Tick: for a non-empty registry it states only that the write log grows. The voxels written are stated per clock by `UpdateClock`.
- `fillCirclePoints` returns a `LinkedHashSet`, which iterates in insertion order, row by row. The model returns a set and `ClearPoints` takes its points in any order. The resulting world and the set of voxels written do not depend on the order; only the order of the writes is not captured.
