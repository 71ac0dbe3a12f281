# Asset grid preheat window and change reconciliation, in Dafny

This project models the logic of the photo grid of the PhotosFrameworkSample
app: `AssetGridViewController` and its reusable cell `GridViewCell`.

- **Rectangle difference** (module `Geometry`). `differencesBetweenRects`
  is the function `Geometry.Differences` over `Geometry.Rect`, a CGRect with
  exact `real` coordinates. `minY = y`, `maxY = y + height` and
  `midY = y + height / 2`. For overlapping rects it returns the
  strips of the new rect not covered by the old one (`AddedStrips`) and the
  strips of the old rect no longer covered (`RemovedStrips`). For rects that
  do not intersect it returns `([new], [old])`. `CGRect.intersects` is the
  predicate `Geometry.Intersects`, with the edge rule stated under "Left out".
- **Preheat window** (class `AssetGrid.AssetGridViewController`, field
  `previousPreheatRect`). `UpdateCachedAssets` grows the view bounds by half
  their height above and below (`Geometry.PreheatRect`). It applies the
  one-third-height hysteresis test (`Geometry.MovedEnough`) and diffs against
  the previous rect. It then starts caching the assets in the added strips,
  stops caching those in the removed strips, and remembers the new rect.
  `ResetCachedAssets` stops all caching and zeroes the rect. The caching image
  manager is the ghost log `calls` of `Call` values. The log also records the
  calls to the collection view, so the relative order of all calls is
  kept. `indexPathsForElements(in:)` is a function parameter `layout`.
  `fetchResult.object(at:)` indexes the `fetchResult` sequence.
- **Change reconciliation** (`PhotoLibraryDidChange`). The method adopts
  `fetchResultAfterChanges` first. It then emits either one
  `PerformBatchUpdates` with the plan `BatchPlan` or one `ReloadData`, and
  finally resets the cache. The plan is deletes, then inserts, then reloads
  (each only when its index set is present and non-empty), then the moves in
  enumeration order. Each collection-view call records the item count the data
  source reports while it runs. That count shows the new fetch result was
  adopted before the update.
- **Stale-result guard** (module `GridCell`, `AssetGrid.DeliverThumbnail`). A
  cell remembers `representedAssetIdentifier`. `CellForItem` binds the cell
  and requests the thumbnail. The result handler stores the image only if the
  cell still represents the requested asset. `thumbnailImage` and
  `livePhotoBadgeImage` push their values into the displayed images.
  `PrepareForReuse` clears the displayed images.

Three facts about the code are worth stating up front:

- The preheat rect is twice the bounds' height (`insetBy(dx: 0, dy: -0.5 * height)`).
- The controller does not validate change indices.
- After a reset, an update recomputes exactly when |bounds.midY| > height/3
  (`Geometry.AfterResetMovedEnough`).

## Model

| member | source | states |
|---|---|---|
| Geometry.Intersects | Shared/AssetGridViewController.swift:171 | intersecting rects meet on the Y axis; IntersectsIffSharedPoint gives its meaning for rects of positive size |
| Geometry.AddedStrips | Shared/AssetGridViewController.swift:172-180 | at most two strips, each with new's x and width and positive height, none starting inside old; AddedCoverY proves their union is new \ old on the Y axis |
| Geometry.RemovedStrips | Shared/AssetGridViewController.swift:181-189 | at most two strips, each with positive height, none starting inside new; RemovedCoverY proves their union is old \ new on the Y axis |
| Geometry.Differences | Shared/AssetGridViewController.swift:170-194 | at most two strips per list, added strips lie within new's Y range and column, removed ones within old's Y range (in new's column when the rects intersect); intersecting rects with different Y extents give some strip; the branches are pinned down by DisjointReplacesWholeWindow, OverlapStripsShape and DifferencesCoverY |
| Geometry.IntersectsIffSharedPoint | Shared/AssetGridViewController.swift:171 | for rects of positive width and height, `Intersects` holds exactly when their interiors share a point (overlapping ranges intersect, disjoint or merely touching ones do not) |
| Geometry.DisjointReplacesWholeWindow | Shared/AssetGridViewController.swift:191-193 | rects that do not intersect give exactly `([new], [old])` |
| Geometry.OverlapStripsShape | Shared/AssetGridViewController.swift:172-189 | for intersecting rects each list has at most two strips; every strip has positive height and new's x and width; added strips start at old.maxY or end at old.minY, removed ones start at new.maxY or end at new.minY; a second strip lies wholly before the first |
| Geometry.AddedCoverY | Shared/AssetGridViewController.swift:172-180 | when the Y ranges meet, a point of the scroll axis lies in some added strip iff it lies in new and not in old |
| Geometry.RemovedCoverY | Shared/AssetGridViewController.swift:181-189 | when the Y ranges meet, a point lies in some removed strip iff it lies in old and not in new |
| Geometry.DifferencesCoverY | Shared/AssetGridViewController.swift:170-194 | on both branches, the union of added strips is new \ old and the union of removed strips is old \ new on the Y axis, unless the rects share Y extent but miss each other on X |
| Geometry.SameColumnOrZeroDecidesOnY | Shared/AssetGridViewController.swift:147-154 | the rects the controller diffs (CGRect.zero, or two preheat rects whose X ranges overlap, as after a rotation) meet the side condition of DifferencesCoverY |
| Geometry.PreheatDiffCoverY | Shared/AssetGridViewController.swift:147-154 | diffing the previous window (or CGRect.zero) against the new preheat window: added strips cover exactly new \ old and removed strips exactly old \ new on the scroll axis |
| Geometry.ZeroInsideWindow | Shared/AssetGridViewController.swift:170-189 | under the assumed edge rule, CGRect.zero intersects a rect whose interior strictly contains the origin, so the removed list is empty |
| Geometry.ResetWindowAroundOrigin | Shared/AssetGridViewController.swift:147-189 | after a reset, bounds (-8, 0, 320, 600) pass the hysteresis test and their preheat window intersects CGRect.zero, so no strip is removed |
| Geometry.AddedNonEmpty | Shared/AssetGridViewController.swift:172-180 | a new rect that reaches past the old one on either side yields at least one added strip |
| Geometry.InsetBy | Shared/AssetGridViewController.swift:147 | insetting keeps a standard rect and its centre, and moves minY and maxY in by dy (a negative dy grows the rect) |
| Geometry.MovedEnough | Shared/AssetGridViewController.swift:150-151 | the test holds iff the midY moved by more than a third of the view height, either way; no movement never passes it |
| Geometry.PreheatRect | Shared/AssetGridViewController.swift:147 | the preheat rect has the bounds' midY, twice their height, extends half a height beyond each edge, and keeps x and width |
| Geometry.ScrollThreshold | Shared/AssetGridViewController.swift:150-151 | scrolling by exactly a third of the view height does not recompute; scrolling further, either way, does |
| Geometry.SameBoundsNotMovedEnough | Shared/AssetGridViewController.swift:150-151 | unchanged bounds never pass the hysteresis test against their own preheat rect |
| Geometry.AfterResetMovedEnough | Shared/AssetGridViewController.swift:150-151 | against CGRect.zero the test passes iff the bounds' centre is more than a third of their height from y = 0 |
| Geometry.AfterResetAddsStrip | Shared/AssetGridViewController.swift:137-180 | after a reset, a recomputation with non-empty bounds always has an added strip |
| GridCell.GridViewCell.constructor | Shared/GridViewCell.swift:17-28 | a fresh cell has no identifier and no images, and its views mirror its properties |
| GridCell.GridViewCell.SetThumbnailImage | Shared/GridViewCell.swift:19-23 | setting `thumbnailImage` makes the displayed image equal to it; nothing else changes |
| GridCell.GridViewCell.SetLivePhotoBadgeImage | Shared/GridViewCell.swift:24-28 | setting `livePhotoBadgeImage` makes the displayed badge equal to it; nothing else changes |
| GridCell.GridViewCell.SetRepresentedAssetIdentifier | Shared/GridViewCell.swift:17 | binding sets the identifier and leaves every image unchanged |
| GridCell.GridViewCell.PrepareForReuse | Shared/GridViewCell.swift:30-34 | both displayed images are cleared; identifier and image properties keep their values, so the views mirror the properties only if those were nil |
| AssetGrid.IndexPathsIn | Shared/AssetGridViewController.swift:155-160 | the flat-mapped index paths are exactly the items the layout reports in some strip, and are in bounds when the layout is |
| AssetGrid.AssetsAt | Shared/AssetGridViewController.swift:157 | one asset per index path, in order, the one at that index of the fetch result |
| AssetGrid.AssetsIn | Shared/AssetGridViewController.swift:155-160 | every listed asset is in the fetch result and no strips list no assets; AssetsInMembership states exactly which assets are listed |
| AssetGrid.AssetsInMembership | Shared/AssetGridViewController.swift:155-160 | an asset is in a start/stop list iff the layout puts one of its items in one of the strips |
| AssetGrid.MoveOps | Shared/AssetGridViewController.swift:249-252 | one move operation per enumerated move, in enumeration order |
| AssetGrid.EnumerateMoves | Shared/AssetGridViewController.swift:249-252 | the loop emits one `moveItem` per enumerated pair, in order |
| AssetGrid.SetOps | Shared/AssetGridViewController.swift:240-248 | at most three operations, none a move, kinds in delete/insert/reload order; empty iff no index set is present and non-empty; SetOpsContents says which kinds occur and what they carry |
| AssetGrid.SetOpsContents | Shared/AssetGridViewController.swift:240-248 | a delete/insert/reload occurs iff its index set is present and non-empty, and carries exactly that set |
| AssetGrid.BatchPlan | Shared/AssetGridViewController.swift:238-253 | the plan has as many operations as moves plus at most three and is empty iff nothing changed; BatchPlanOrdered, BatchPlanSetOps and BatchPlanMoves give its order and contents |
| AssetGrid.ViewUpdate | Shared/AssetGridViewController.swift:236-256 | a batch update iff the details have incremental changes, a full reload otherwise, always reporting the new item count; ReconcileExample instantiates it |
| AssetGrid.BatchPlanOrdered | Shared/AssetGridViewController.swift:238-253 | deletes precede inserts precede reloads precede moves; each set operation occurs at most once |
| AssetGrid.BatchPlanSetOps | Shared/AssetGridViewController.swift:240-248 | a delete/insert/reload is emitted iff its index set is present and non-empty, and then carries exactly that set |
| AssetGrid.BatchPlanMoves | Shared/AssetGridViewController.swift:249-252 | all moves come last, in enumeration order, after at most three set operations |
| AssetGrid.ReconcileExample | Shared/AssetGridViewController.swift:236-253 | removed {2}, inserted {0}, changed {4}, moves [(1,3)] on five items give delete, insert, reload, move |
| AssetGrid.DeliverThumbnail | Shared/AssetGridViewController.swift:107-112 | the delivered image is stored and displayed iff the cell still represents the requested asset; otherwise the cell is untouched |
| AssetGrid.AssetGridViewController.constructor | Shared/AssetGridViewController.swift:30-37 | after loading, the preheat rect is CGRect.zero and all caching has been stopped once; establishes `Valid()`, the stored preheat rect having non-negative size |
| AssetGrid.AssetGridViewController.ResetCachedAssets | Shared/AssetGridViewController.swift:137-140 | logs `StopCachingAll` and zeroes the preheat rect; establishes `Valid()` |
| AssetGrid.AssetGridViewController.UpdateCachedAssets | Shared/AssetGridViewController.swift:142-168 | off screen or below the threshold, no call and no state change; otherwise start caching for the added strips' assets, then stop caching for the removed strips' assets, then store the preheat rect; afterwards the same bounds do not pass the test; keeps `Valid()` |
| AssetGrid.AssetGridViewController.PhotoLibraryDidChange | Shared/AssetGridViewController.swift:229-259 | no details: no effect; otherwise the new fetch result is adopted, then the batch plan (or a full reload) is emitted with the new item count, then the cache is reset; keeps `Valid()` |
| AssetGrid.AssetGridViewController.CellForItem | Shared/AssetGridViewController.swift:94-114 | binds the cell to the asset at the item, shows the live-photo badge for live photos, leaves the thumbnail, and requests the image |
| AssetGrid.AssetGridViewController.ReuseWithLateDelivery | Shared/AssetGridViewController.swift:106-111 | a slot reused for asset B shows B's thumbnail even when A's result arrives after B's |

## Left out

- `addAsset`: random image generation and a photo-library write; this is I/O and randomness.
- The checkbox overlay view: drawing code and colour constants.
- What `performBatchUpdates`, `deleteItems`, `insertItems`, `reloadItems` and `moveItem` do to the grid: UIKit does the index shifting. Only the emitted plan is modelled.
- `DispatchQueue.main.sync` and change-observer registration are concurrency and lifecycle plumbing. The handler body is one sequential step.
- `viewDidLoad` fetching all photos when no fetch result was set is a library query. The constructor takes the fetch result.
- Internals of the caching image manager and image decoding. Calls are only logged, without the target size and content mode.
- The thumbnail size computation, gestures, the segue and the add button's visibility are UI glue.
- `viewDidAppear` and `scrollViewDidScroll` only call `updateCachedAssets`, so they are not separate members.
- CGFloat rounding: coordinates are exact reals and nothing is claimed about floating point.
- Geometry.Intersects: no source line fixes `CGRect.intersects`' edge and zero-size rule. The model assumes both edges are compared strictly on each axis. Rects that only touch along an edge therefore do not intersect. A rect of zero size intersects a rect whose interior strictly contains its point. That zero-size case is reachable: the first recomputation after a reset diffs against CGRect.zero, and when the new preheat window contains the origin strictly, the assumption decides that the first `StopCaching` is empty rather than listing the assets `layout(CGRect.zero)` reports. `ZeroInsideWindow` and `ResetWindowAroundOrigin` state this case. The Y-coverage lemmas (`DifferencesCoverY`, `AddedCoverY`, `RemovedCoverY`) hold under either rule.
- Geometry.InsetBy: CoreGraphics standardizes a rect with negative size and returns the null rect when an inset would make the size negative. The model instead requires non-negative sizes, as view bounds have.
- AssetGrid.AssetGridViewController.UpdateCachedAssets: requires that the layout reports only items below `fetchResult.count`, because an out-of-range `object(at:)` traps.
- AssetGrid.AssetGridViewController.PhotoLibraryDidChange: the change indices are not checked against the snapshots, because the controller does not check them either.
- `indexPathsForElements(in:)` force-unwraps `layoutAttributesForElements(in:)` (Shared/AssetGridViewController.swift:16), which traps when the layout returns nil. The model takes `layout` as a total function, so it has no such failure.
- `updateCachedAssets` and `photoLibraryDidChange` trap when the controller has no collection view: `fatalError()` in the guard at Shared/AssetGridViewController.swift:237, and the force-unwraps `collectionView!` at :156, :159 and :255. The model assumes a loaded collection view controller, which always has one, so these failures are not modelled.
