# Tower area-of-interest index, modelled in Dafny

The Go package `aoi` keeps a grid-based area-of-interest (AOI) index for a game world. The world map is cut into
an m x n grid of *towers*. Each tower records:

- the entities (objects) standing in it, indexed by id and by type;
- the watchers subscribed to it, indexed by type.

An object is registered in the one tower under its position. A watcher is subscribed to every tower of a square
window around its tower. The window's radius is in towers. It is shifted inward at the map edges and clamped when
the grid is smaller than the window. When a watcher moves, the old and new windows are diffed cell by cell.

The project has three files:

- `wrappers.dfy` (module `Wrappers`): an `Option` type. It stands for Go's `nil` results and the nil entries of
  tower slices.
- `tower.dfy` (module `Towers`): the tower.
  - `Tower` is a class whose methods update its fields in place.
  - Its abstract value is the datatype `TowerState`.
  - The pure transitions `Added`, `Removed`, `WatcherAdded` and `WatcherRemoved` are the specifications the
    methods are proved against.
  - Lemmas about the transitions state rejection, round-trip, idempotence, index separation, and that the type-0
    sentinel never gets in. Further lemmas say when a tower's consistency invariant is kept and show the two
    ways the code breaks it.
  - Go maps whose values equal their keys are modelled as `set<int>`.
- `tower_aoi.dfy` (module `TowerAoi`): the grid.
  - Coordinate translation and the window are plain functions, with their bounds proved.
  - The window diff is a method over grid positions. `None` stands for the nil placeholder each non-empty list
    starts with.
  - The class `TowerAOI` holds the grid of `Tower` objects. Its query and update methods run the same nested
    window loops as the Go code.
  - Queries are specified against a value snapshot of the grid (`Snapshot`), through the recursive aggregates
    `WindowBag`, `WindowTypes` and `WindowIds`. Lemmas characterise each aggregate cell by cell.
  - Updates are specified tower by tower through `At(q)`, the state of the tower at grid position `q`.

Absolute positions, grid positions and windows are all integer pairs. Division is Dafny's `/`. It agrees with
the Go `math.Floor` of a float quotient for every position, negative ones included: `transPos` is also reached
without a bounds check, from the watcher operations and from the off-map branch of `GetIdsByPos`. Dafny's `/`
by a positive divisor rounds down, as `math.Floor` does.

## Model

| member | source | states |
|---|---|---|
| `Towers.Tower.constructor` | towerAOI/tower.go:127-132 | a new tower has no ids, no type buckets, no watcher buckets and size 0 |
| `Towers.Tower.Add` | towerAOI/tower.go:22-41 | returns true exactly when the type is non-zero, the id is non-zero and the id is not yet in its type's bucket; the new state is `Added` of the old one |
| `Towers.AddUntypedRejected` | towerAOI/tower.go:26-40 | a type-0 object is rejected and leaves the tower unchanged: no bucket is created, ids and size are kept |
| `Towers.AddDuplicateRejected` | towerAOI/tower.go:27-33 | a typed object with id 0, or with an id already in its bucket, is rejected; ids, size and watchers are kept, but the type's bucket now exists, possibly empty |
| `Towers.AddAcceptedEffect` | towerAOI/tower.go:35-38 | an accepted add puts the id in `ids` and in its bucket, adds exactly 1 to size, and leaves watchers and every other bucket alone |
| `Towers.Tower.Remove` | towerAOI/tower.go:44-60 | the new state is `Removed` of the old one |
| `Towers.RemoveEffect` | towerAOI/tower.go:44-60 | remove drops the id from `ids` whatever its type; it drops the id from its bucket only for a non-zero type; it never deletes a bucket; it always subtracts 1 from size |
| `Towers.RemoveFromEmptyGoesNegative` | towerAOI/tower.go:59 | removing from an empty tower makes size -1: nothing checks that the object was there |
| `Towers.AddRemoveRoundTrip` | towerAOI/tower.go:22-60 | adding a fresh typed object with a non-zero id and removing it restores ids, size, watchers and the bucket's contents; the only trace is that the bucket exists |
| `Towers.Tower.GetIds` | towerAOI/tower.go:63-65 | returns the tower's id set |
| `Towers.Tower.AddWatcher` | towerAOI/tower.go:68-79 | the new state is `WatcherAdded` of the old one |
| `Towers.WatcherAddedEffect` | towerAOI/tower.go:68-79 | a type-0 watcher is ignored; a typed watcher ends up registered, and every other type's bucket is unchanged |
| `Towers.WatcherAddedIdempotent` | towerAOI/tower.go:68-79 | registering a watcher twice gives the same state as registering it once |
| `Towers.Tower.RemoveWatcher` | towerAOI/tower.go:82-92 | the new state is `WatcherRemoved` of the old one |
| `Towers.WatcherRemovedEffect` | towerAOI/tower.go:82-92 | afterwards the watcher is not registered under its type; only the (type, id) entry goes; the same id under other types stays; no bucket is deleted |
| `Towers.IndicesSeparated` | towerAOI/tower.go:22-92 | object add and remove never touch the watcher index; watcher add and remove never touch ids, type buckets or size |
| `Towers.ZeroFreePreserved` | towerAOI/tower.go:15-92 | the empty tower and every operation keep type 0 out of both the object and the watcher index, and id 0 out of `ids` and the object buckets; watcher id 0 can be registered, as in Go |
| `Towers.AddedKeepsConsistent` | towerAOI/tower.go:22-41 | the empty tower is consistent (buckets hold only tower ids, every id sits in a bucket, size counts the ids); an add of an id the tower does not hold keeps it consistent |
| `Towers.RemovedKeepsConsistent` | towerAOI/tower.go:44-60 | a remove under a non-zero type whose bucket holds the id, when no other bucket holds it, keeps the tower consistent |
| `Towers.ConsistencyBreaks` | towerAOI/tower.go:22-60 | the code does not keep consistency for every caller: after adding (5, 1), removing (5, 0) leaves 5 in bucket 1 but not in ids; adding (5, 2) is accepted and gives ids {5} with size 2 |
| `Towers.Tower.GetWatchers` | towerAOI/tower.go:95-108 | the keys are exactly the requested types that have a watcher bucket, even an empty one, each mapped to that bucket; no types gives an empty map |
| `Towers.Tower.GetIdsByTypes` | towerAOI/tower.go:111-124 | the keys are exactly the requested types that have an object bucket, even an emptied one, each mapped to that bucket |
| `Towers.FourObjects` | towerAOI/all_test.go:9-20 | after the four adds of the tower test, the tower holds ids {100, 101, 103, 104}: type 1 holds {100, 101}, type 2 holds {103}, type 3 holds {104}; size is 4 |
| `Towers.TowerFilterScenario` | towerAOI/all_test.go:21-22 | asking for type 2 gives {2: {103}}; asking for types 1 and 3 gives {1: {100, 101}, 3: {104}} |
| `Towers.ThreeObjects` | towerAOI/all_test.go:24 | after the four adds and the removal of object 101, the tower holds ids {100, 103, 104}, buckets {1: {100}, 2: {103}, 3: {104}} and size 3 |
| `Towers.TowerRemoveScenario` | towerAOI/all_test.go:24-28 | removing object 101 leaves {1: {100}}; removing 100 as well leaves {1: {}}, with ids {103, 104} |
| `Towers.TowerWatcherScenario` | towerAOI/all_test.go:30-37 | watcher 201 under types 21 and 22 gives {21: {201}, 22: {201}}; removing it under 22 gives {21: {201}, 22: {}} |
| `TowerAoi.CheckPosIsMapRect` | towerAOI/towerAOI.go:168-176 | the bounds check accepts exactly the points of the rectangle from (0, 0) to (mapWidth - 1, mapHeight - 1); an empty map accepts none |
| `TowerAoi.TransPosIsFloor` | towerAOI/towerAOI.go:179-184 | the translated position is the floor quotient on each axis, negative coordinates included: towerWidth * p.x <= pos.x < towerWidth * (p.x + 1), and the same for y |
| `TowerAoi.IsInRectNonEmpty` | towerAOI/towerAOI.go:365-367 | a rectangle holds some point exactly when it is non-empty on both axes, and then it holds both of its corners |
| `TowerAoi.TransPosBounds` | towerAOI/towerAOI.go:168-184 | a position that passes the bounds check translates to a grid position in [0, max + 1] on each axis |
| `TowerAoi.TransPosInGrid` | towerAOI/towerAOI.go:179-184 | when the tower dimensions divide the map dimensions, every position on the map translates into [0, max] |
| `TowerAoi.RemainderStripOffGrid` | towerAOI/towerAOI.go:54-60 | when a tower dimension does not divide the map dimension, the last map column (row) passes the bounds check but translates to column m (row n), one past the grid |
| `TowerAoi.ShiftClamp` | towerAOI/towerAOI.go:326-360 | on one axis the span lies in [0, mx]; its length is min(2r + 1, mx + 1); it contains a centre that is on the grid; it is [c - r, c + r] when that fits |
| `TowerAoi.GetPosLimit` | towerAOI/towerAOI.go:318-362 | the window lies on the grid for any centre, even an off-grid one; each side is min(2r + 1, max + 1) long; it contains an on-grid centre; it is the unshifted square when that fits |
| `TowerAoi.Appended` | towerAOI/towerAOI.go:284-288 | appending to a diff list first adds the nil placeholder when the list is nil; the result lists exactly the old entries plus the new tower, still in x-major order |
| `TowerAoi.GetChangedTowers` | towerAOI/towerAOI.go:277-311 | the removed list holds exactly the old-window cells outside the new window; the kept list holds those inside it; the added list holds exactly the new-window cells outside the old window; each list is nil or a placeholder followed by cells in x-major order |
| `TowerAoi.ScanOldWindow` | towerAOI/towerAOI.go:281-297 | the first double loop splits the old window's cells between the removed and kept lists by membership in the new window |
| `TowerAoi.ScanNewWindow` | towerAOI/towerAOI.go:299-309 | the second double loop lists exactly the new window's cells outside the old window |
| `TowerAoi.ListedOnce` | towerAOI/towerAOI.go:281-309 | an x-major diff list names no tower twice |
| `TowerAoi.NoChangeIffSameCells` | towerAOI/towerAOI.go:246-260 | the removed and added lists are both nil exactly when the two windows cover the same cells |
| `TowerAoi.SameCellsIffEqual` | towerAOI/towerAOI.go:365-367 | two non-empty windows contain the same cells exactly when their corners are equal |
| `TowerAoi.AddMap` | towerAOI/towerAOI.go:380-388 | the result is the input slice followed by a chunk holding each id of the map once, in some order |
| `TowerAoi.AddMapByTypes` | towerAOI/towerAOI.go:390-409 | each requested type the tower has a bucket for gets an entry, even an empty one; its ids are added to what the result already held; other entries are kept |
| `TowerAoi.WindowBagHolds` | towerAOI/towerAOI.go:107-112 | an id is in the collected ids of a window exactly when some tower of the window holds it |
| `TowerAoi.SingleCellBag` | towerAOI/towerAOI.go:107-112 | the ids collected from a one-tower window are that tower's ids |
| `TowerAoi.WindowTypesHold` | towerAOI/towerAOI.go:86-91 | a type is among a window's types exactly when some tower of the window has a bucket for it |
| `TowerAoi.WindowIdsHold` | towerAOI/towerAOI.go:86-91 | an id is in a window's merged type-t set exactly when some tower of the window holds it under type t |
| `TowerAoi.HandOver` | towerAOI/towerAOI.go:250-260 | for a watcher of non-zero type: a tower watched exactly when it was in the old window is, after the add/remove/keep step, watched exactly when it is in the new window |
| `TowerAoi.TowerAOI.constructor` | towerAOI/towerAOI.go:42-69 | rangeLimit is the configured limit, or 5 when that is 0; max is (mapWidth / towerWidth - 1, mapHeight / towerHeight - 1); every grid cell holds a fresh, empty tower, and the towers are distinct |
| `TowerAoi.TowerAOI.NewRow` | towerAOI/towerAOI.go:64-67 | the inner loop of `Init` yields one column of n fresh, empty, distinct towers, each recorded at its grid position in that column |
| `TowerAoi.TowerAOI.TowersDistinct` | towerAOI/towerAOI.go:62-68 | different grid positions hold different tower objects, so updating one tower leaves the others alone |
| `TowerAoi.TowerAOI.GetIdsByRange` | towerAOI/towerAOI.go:75-93 | nil exactly when the position is off the map or r is outside [0, rangeLimit]; otherwise a type is a key exactly when it was requested and some tower of the window has a bucket for it, and it maps to the union of that type's buckets over the window |
| `TowerAoi.TowerAOI.MergeWindow` | towerAOI/towerAOI.go:87-91 | the outer loop leaves the typed merge of every column of the window |
| `TowerAoi.TowerAOI.MergeColumn` | towerAOI/towerAOI.go:88-90 | the inner loop adds one column's typed buckets to the accumulated map |
| `TowerAoi.TowerAOI.MergeTower` | towerAOI/towerAOI.go:89 | one step adds the requested buckets of one tower to the accumulated map |
| `TowerAoi.TowerAOI.GetIdsByPos` | towerAOI/towerAOI.go:96-114 | as written: nil for every position on the map and for a negative radius; for a position off the map, the ids of every tower of the window (radius capped at 5), each tower's ids once, as a multiset |
| `TowerAoi.TowerAOI.GetIdsByPosIntended` | towerAOI/towerAOI.go:96-114 | with the bounds test the right way round: nil off the map or for a negative radius; otherwise the ids of the window's towers as a multiset |
| `TowerAoi.TowerAOI.CollectIds` | towerAOI/towerAOI.go:108-112 | the loops of `GetIdsByPos` collect, as a multiset, exactly the ids of the window's towers |
| `TowerAoi.TowerAOI.CollectColumn` | towerAOI/towerAOI.go:109-111 | the inner loop appends the ids of one column's towers |
| `TowerAoi.TowerAOI.AddObject` | towerAOI/towerAOI.go:117-125 | returns exactly whether the position is on the map, whatever the tower's add answered; only the tower under the position changes, and it becomes `Added` of its old state |
| `TowerAoi.TowerAOI.RemoveObject` | towerAOI/towerAOI.go:128-136 | returns exactly whether the position is on the map; only the tower under the position changes, and it becomes `Removed` of its old state |
| `TowerAoi.TowerAOI.UpdateObject` | towerAOI/towerAOI.go:138-164 | false when either position is off the map; true with no change when both are under the same tower; otherwise the old tower gets `Removed`, the new tower gets `Added`, and no other tower changes |
| `TowerAoi.TowerAOI.WatchOne` | towerAOI/towerAOI.go:200 | subscribing on one tower changes that tower only |
| `TowerAoi.TowerAOI.WatchColumn` | towerAOI/towerAOI.go:199-201 | the inner loop subscribes the watcher to one column of the window and changes nothing else |
| `TowerAoi.TowerAOI.AddWatcher` | towerAOI/towerAOI.go:186-203 | with no bounds check on the position: a negative radius changes nothing; otherwise the watcher is added to exactly the towers of the window (radius capped at 5, not the range limit), and every other tower is unchanged |
| `TowerAoi.TowerAOI.UnwatchOne` | towerAOI/towerAOI.go:219 | unsubscribing on one tower changes that tower only |
| `TowerAoi.TowerAOI.UnwatchColumn` | towerAOI/towerAOI.go:218-220 | the inner loop unsubscribes the watcher from one column of the window and changes nothing else |
| `TowerAoi.TowerAOI.RemoveWatcher` | towerAOI/towerAOI.go:205-222 | a negative radius changes nothing; otherwise the watcher is removed from exactly the towers of the window (radius capped at 5), and every other tower is unchanged |
| `TowerAoi.TowerAOI.UpdateWatcher` | towerAOI/towerAOI.go:224-268 | as written: false exactly when a position is off the map, or the tower changes and a radius is negative; true exactly when both positions are on the map and either the tower is the same (radii unchecked) or both windows cover the same cells; in every other case the walk panics on the nil placeholder |
| `TowerAoi.TowerAOI.UpdateWatcherIntended` | towerAOI/towerAOI.go:224-268 | with the placeholders skipped: the watcher is added to the towers only the new window covers and removed from those only the old window covers; nothing else changes; when the move changes tower and the watcher's type is non-zero, a watcher subscribed exactly to the old window ends up subscribed exactly to the new one (a type-0 watcher is never registered, and a same-tower move changes nothing) |
| `TowerAoi.TowerAOI.ApplyChanges` | towerAOI/towerAOI.go:250-260 | the two loops of the move, from exact diff lists: the added-only cells get `WatcherAdded`, the removed-only cells get `WatcherRemoved`, and every other tower is unchanged |
| `TowerAoi.TowerAOI.WatchListed` | towerAOI/towerAOI.go:250-254 | the first loop subscribes the watcher to each listed tower exactly once and skips the placeholder |
| `TowerAoi.TowerAOI.UnwatchListed` | towerAOI/towerAOI.go:256-260 | the second loop unsubscribes the watcher from each listed tower exactly once and skips the placeholder |
| `TowerAoi.TowerAOI.GetWatchers` | towerAOI/towerAOI.go:369-375 | nil exactly when the position is off the map; otherwise the requested watcher buckets of the tower under the position |
| `TowerAoi.WorldScenario` | towerAOI/all_test.go:42-58 | a 10000 x 10000 map with 100 x 100 towers and no limit gives max (99, 99), range limit 5, and all towers empty |
| `TowerAoi.InBoundsQueryScenario` | towerAOI/towerAOI.go:96-114 | with object 100 in the only tower: as written, the lookup from (50, 50) finds nothing, but the lookup from the off-map (150, 50) finds {100}; the corrected lookup from (50, 50) finds {100} |
| `TowerAoi.MoveScenario` | towerAOI/towerAOI.go:246-260 | on a 3 x 1 grid, moving a radius-0 watcher from the first tower to the third panics as written; the corrected move leaves only the third tower watching |

## Left out

- Diagnostic printing is not modelled (towerAOI/towerAOI.go:82, 150, 262). Neither are the commented-out notification hooks (121, 132, 160, 264). They are output only.
- `UpdateWatcher` builds `addObjs` and `removeObjs` from the towers' ids, but never returns them. The only consumer is a commented-out hook, so they are left out.
- The floating-point round trip in `transPos` is modelled as integer floor division. The two agree for every coordinate, negative ones included, up to the 53-bit float mantissa, which is ignored.
- Go `int` and `int64` are unbounded here. Overflow in `2 * r`, `pos.X + r` or `size++` is not modelled.
- Go map iteration order is randomised. `TowerAoi.AddMap`, `TowerAoi.TowerAOI.GetIdsByPos` and `TowerAoi.TowerAOI.GetIdsByPosIntended` state their result as a multiset, not as a sequence.
- Reference aliasing is not modelled. `GetIds`, `GetIdsByTypes` and `GetWatchers` return the tower's internal maps in Go, but value snapshots here. A caller that mutates the returned map and so changes the tower is outside the model. Likewise `Init` keeps the caller's `*Config` pointer (towerAOI/towerAOI.go:43), and `checkPos` and `transPos` read it on every call. A caller that changes the configuration after construction changes the bounds check and the translation while `towers` and `max` stay as built. Here `config` is fixed at construction.
- The window diff names towers by grid position rather than by `*Tower` pointer. The pointer entries of the Go slices are exactly `towers[x][y]` for those positions.
- Panics on a nil position, a nil configuration or nil rectangles are ruled out by the types: every `Pos` and `Config` exists.
- One kind of out-of-range indexing is a precondition rather than a modelled panic: `towers[m]` or `towers[..][n]` for a remainder-strip position.
  - `AddObject`, `RemoveObject`, `UpdateObject` and `GetWatchers` require that a position passing the bounds check translates onto the grid. `TowerAoi.RemainderStripOffGrid` shows the case this excludes.
  - `AddWatcher` and `RemoveWatcher` need no such precondition: they index only the cells of the `GetPosLimit` window, which always lies on the grid, even for an off-map centre.
- A zero tower dimension (a division by zero in Go) is excluded by `ValidConfig`. So are negative tower dimensions and negative map dimensions.
- The check `t.towers[p1.X] == nil` in `UpdateObject` (towerAOI/towerAOI.go:149) can never succeed, because `Init` fills every column. The model has no such branch.
- `width` and `height` are copied from the tower rectangle in `Init` but never read. `MapConfig.ID` (towerAOI/towerAOI.go:20) is never read either. None of them is modelled.
- The split of each nested loop into a method per loop (`MergeWindow`/`MergeColumn`/`MergeTower`, `CollectIds`/`CollectColumn`, `WatchColumn`/`WatchOne`, and so on) only structures the proof. The loops run in the same order over the same cells as the Go loops.
- Quirks of the code that the model keeps:
  - A type bucket emptied by `Remove` persists and is still reported.
  - A rejected add with a non-zero type creates an empty bucket, so add followed by remove restores the bucket's contents but not necessarily the key set.
  - `Add` also rejects id 0.
  - A remainder-strip position passes the bounds check instead of being unreachable.
  - `UpdateWatcher` returns true for a same-tower move before it looks at the radii.
  - A tower stays consistent (buckets hold only its ids, every id is in a bucket, `size` counts the ids) only for careful callers. `Remove` under a type other than the one the id was added with leaves the id in its bucket but drops it from `ids`. `Add` checks only the given type's bucket, so the same id added under a second type is accepted and counted twice. `Towers.ConsistencyBreaks` shows both.

## Findings

| source | as written | input that shows it | evidently intended | confidence | as-written member | corrected member |
|---|---|---|---|---|---|---|
| towerAOI/towerAOI.go:97 | `GetIdsByPos` returns nil when the position passes the bounds check, so every on-map query is empty and off-map queries search the grid | map 100 x 100, tower 100 x 100, object 100 at (50, 50): the query at (50, 50) with radius 1 gives nil, the query at (150, 50) with radius 0 gives [100] | return nil when the position fails the bounds check, otherwise collect the ids around it | high (not executed) | `TowerAoi.TowerAOI.GetIdsByPos`, shown by `TowerAoi.InBoundsQueryScenario` | `TowerAoi.TowerAOI.GetIdsByPosIntended` |
| towerAOI/towerAOI.go:250-260 | the diff lists start with a nil placeholder (lines 284-286, 290-292, 302-304), and the loops start at index 0, so a move that changes the window dereferences the nil `*Tower`: in `AddWatcher` or `RemoveWatcher` (tower.go:73, 87) for a typed watcher, and in any case in `GetIds` (tower.go:64), reached at towerAOI.go:252 and 258; either way it panics | map 300 x 100, tower 100 x 100, watcher (201, 21) with radius 0 moved from (50, 50) to (250, 50) | skip the placeholder, so the watcher is subscribed to the towers only the new window covers and unsubscribed from those only the old one covers | high (not executed) | `TowerAoi.TowerAOI.UpdateWatcher`, shown by `TowerAoi.MoveScenario` | `TowerAoi.TowerAOI.UpdateWatcherIntended` |
