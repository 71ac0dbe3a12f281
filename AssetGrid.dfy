/**
 * AssetGridViewController: keeps a preheat window of thumbnails warm in the
 * caching image manager while the grid scrolls, turns photo-library change
 * details into collection-view updates, and fills reusable cells with
 * asynchronously delivered thumbnails.
 *
 * Every call the controller makes into its collaborators (the caching image
 * manager and the collection view) is recorded, in issue order, in the
 * ghost log `calls`. The collection view's own handling of those calls is
 * not modelled.
 */
module AssetGrid {
  import opened Wrappers
  import opened Geometry
  import opened GridCell

  /** A PHAsset, as far as the controller looks at it. */
  datatype Asset = Asset(localIdentifier: string, isLivePhoto: bool)

  /** One update inside performBatchUpdates; items are section-0 item numbers. */
  datatype BatchOp =
    | DeleteItems(items: set<nat>)
    | InsertItems(items: set<nat>)
    | ReloadItems(items: set<nat>)
    | MoveItem(from: nat, to: nat)

  /** PHFetchResultChangeDetails for the current fetch result. */
  datatype ChangeDetails = ChangeDetails(
    removedIndexes: Option<set<nat>>,
    insertedIndexes: Option<set<nat>>,
    changedIndexes: Option<set<nat>>,
    moves: seq<(nat, nat)>,
    fetchResultAfterChanges: seq<Asset>,
    hasIncrementalChanges: bool)

  /** A call into a collaborator. The collection-view calls record the item
      count the data source reports (fetchResult.count) while they run. */
  datatype Call =
    | StartCaching(assets: seq<Asset>)
    | StopCaching(assets: seq<Asset>)
    | StopCachingAll
    | RequestImage(asset: Asset)
    | PerformBatchUpdates(ops: seq<BatchOp>, itemCount: nat)
    | ReloadData(itemCount: nat)

  /** PHLivePhotoView.livePhotoBadgeImage(options: .overContent) */
  const LivePhotoBadge := Image(0)

  // ---------------------------------------------------------------------
  // From preheat strips to assets

  /** The collection view's layout only reports items that exist:
      numberOfItemsInSection answers fetchResult.count. */
  ghost predicate LayoutInBounds(layout: Rect -> seq<nat>, count: nat) {
    forall r, k :: 0 <= k < |layout(r)| ==> layout(r)[k] < count
  }

  /** rects.flatMap(indexPathsForElements(in:)) */
  function IndexPathsIn(rects: seq<Rect>, layout: Rect -> seq<nat>): (items: seq<nat>)
    ensures forall item :: item in items <==> exists i :: 0 <= i < |rects| && item in layout(rects[i])
    ensures forall count: nat :: LayoutInBounds(layout, count) ==> forall k :: 0 <= k < |items| ==> items[k] < count
  {
    if rects == [] then []
    else
      var rest := IndexPathsIn(rects[1..], layout);
      assert forall item :: item in rest <==> exists i :: 1 <= i < |rects| && item in layout(rects[i]) by {
        forall item | item in rest ensures exists i :: 1 <= i < |rects| && item in layout(rects[i]) {
          var j :| 0 <= j < |rects[1..]| && item in layout(rects[1..][j]);
          assert item in layout(rects[j + 1]);
        }
        forall item | exists i :: 1 <= i < |rects| && item in layout(rects[i]) ensures item in rest {
          var i :| 1 <= i < |rects| && item in layout(rects[i]);
          assert rects[1..][i - 1] == rects[i];
        }
      }
      layout(rects[0]) + rest
  }

  /** items.map { fetchResult.object(at: $0) } */
  function AssetsAt(items: seq<nat>, assets: seq<Asset>): (r: seq<Asset>)
    requires forall k :: 0 <= k < |items| ==> items[k] < |assets|
    ensures |r| == |items|
    ensures forall k :: 0 <= k < |items| ==> r[k] == assets[items[k]]
  {
    if items == [] then [] else [assets[items[0]]] + AssetsAt(items[1..], assets)
  }

  /** The assets laid out in any of `rects`. */
  function AssetsIn(rects: seq<Rect>, layout: Rect -> seq<nat>, assets: seq<Asset>): (r: seq<Asset>)
    requires LayoutInBounds(layout, |assets|)
    ensures forall k :: 0 <= k < |r| ==> r[k] in assets
    ensures rects == [] ==> r == []
  {
    AssetsAt(IndexPathsIn(rects, layout), assets)
  }

  /** An asset is cached or uncached by a recomputation exactly when the
      layout puts one of its items in one of the strips. */
  lemma AssetsInMembership(rects: seq<Rect>, layout: Rect -> seq<nat>, assets: seq<Asset>, a: Asset)
    requires LayoutInBounds(layout, |assets|)
    ensures a in AssetsIn(rects, layout, assets) <==>
      exists i, item :: 0 <= i < |rects| && item in layout(rects[i]) && item < |assets| && assets[item] == a
  {
    var items := IndexPathsIn(rects, layout);
    var r := AssetsIn(rects, layout, assets);
    if a in r {
      var k :| 0 <= k < |r| && r[k] == a;
      assert items[k] in items;
    }
    if exists i, item :: 0 <= i < |rects| && item in layout(rects[i]) && item < |assets| && assets[item] == a {
      var i, item :| 0 <= i < |rects| && item in layout(rects[i]) && item < |assets| && assets[item] == a;
      assert item in items;
      var k :| 0 <= k < |items| && items[k] == item;
      assert r[k] == a;
    }
  }

  // ---------------------------------------------------------------------
  // Change reconciliation plan

  /** An index set that is present and not empty. */
  predicate Given(indexes: Option<set<nat>>) {
    indexes.Some? && |indexes.value| > 0
  }

  /** changes.enumerateMoves, as move operations in enumeration order. */
  function MoveOps(moves: seq<(nat, nat)>): (ops: seq<BatchOp>)
    ensures |ops| == |moves|
    ensures forall k :: 0 <= k < |moves| ==> ops[k] == MoveItem(moves[k].0, moves[k].1)
  {
    if moves == [] then [] else [MoveItem(moves[0].0, moves[0].1)] + MoveOps(moves[1..])
  }

  /** The deleteItems step of performBatchUpdates: present only for a
      non-nil, non-empty removedIndexes. */
  function DeleteOps(changes: ChangeDetails): (ops: seq<BatchOp>)
    ensures |ops| <= 1 && (ops == [] <==> !Given(changes.removedIndexes))
    ensures forall i :: 0 <= i < |ops| ==> ops[i] == DeleteItems(changes.removedIndexes.value)
    ensures forall i :: 0 <= i < |ops| ==> Rank(ops[i]) == 0
  {
    if Given(changes.removedIndexes) then [DeleteItems(changes.removedIndexes.value)] else []
  }

  /** The insertItems step, likewise for insertedIndexes. */
  function InsertOps(changes: ChangeDetails): (ops: seq<BatchOp>)
    ensures |ops| <= 1 && (ops == [] <==> !Given(changes.insertedIndexes))
    ensures forall i :: 0 <= i < |ops| ==> ops[i] == InsertItems(changes.insertedIndexes.value)
    ensures forall i :: 0 <= i < |ops| ==> Rank(ops[i]) == 1
  {
    if Given(changes.insertedIndexes) then [InsertItems(changes.insertedIndexes.value)] else []
  }

  /** The reloadItems step, likewise for changedIndexes. */
  function ReloadOps(changes: ChangeDetails): (ops: seq<BatchOp>)
    ensures |ops| <= 1 && (ops == [] <==> !Given(changes.changedIndexes))
    ensures forall i :: 0 <= i < |ops| ==> ops[i] == ReloadItems(changes.changedIndexes.value)
    ensures forall i :: 0 <= i < |ops| ==> Rank(ops[i]) == 2
  {
    if Given(changes.changedIndexes) then [ReloadItems(changes.changedIndexes.value)] else []
  }

  /** The delete, insert and reload steps of performBatchUpdates: at most
      one of each, in that order, and no move. */
  function SetOps(changes: ChangeDetails): (ops: seq<BatchOp>)
    ensures |ops| <= 3
    ensures forall i :: 0 <= i < |ops| ==> Rank(ops[i]) < 3
    ensures KindsInOrder(ops)
    ensures ops == [] <==>
      !Given(changes.removedIndexes) && !Given(changes.insertedIndexes) && !Given(changes.changedIndexes)
  {
    var deletes := DeleteOps(changes);
    var inserts := InsertOps(changes);
    var reloads := ReloadOps(changes);
    RunsInOrder(deletes, inserts, reloads);
    deletes + inserts + reloads
  }

  /** The body of performBatchUpdates for incremental change details. */
  function BatchPlan(changes: ChangeDetails): (ops: seq<BatchOp>)
    ensures |changes.moves| <= |ops| <= |changes.moves| + 3
    ensures ops == [] <==>
      changes.moves == [] && !Given(changes.removedIndexes) && !Given(changes.insertedIndexes) && !Given(changes.changedIndexes)
  {
    SetOps(changes) + MoveOps(changes.moves)
  }

  /** What photoLibraryDidChange asks of the collection view. */
  function ViewUpdate(changes: ChangeDetails): (call: Call)
    ensures call.PerformBatchUpdates? <==> changes.hasIncrementalChanges
    ensures call.PerformBatchUpdates? || call.ReloadData?
    ensures call.itemCount == |changes.fetchResultAfterChanges|
  {
    if changes.hasIncrementalChanges then
      PerformBatchUpdates(BatchPlan(changes), |changes.fetchResultAfterChanges|)
    else
      ReloadData(|changes.fetchResultAfterChanges|)
  }

  /** The position of each kind of operation in a batch. */
  function Rank(op: BatchOp): nat {
    match op
    case DeleteItems(_) => 0
    case InsertItems(_) => 1
    case ReloadItems(_) => 2
    case MoveItem(_, _) => 3
  }

  /** Deletes come before inserts, inserts before reloads, reloads before
      moves; only moves may repeat a kind. */
  predicate KindsInOrder(ops: seq<BatchOp>) {
    forall i, j :: 0 <= i < j < |ops| ==> Rank(ops[i]) < Rank(ops[j]) || (ops[i].MoveItem? && ops[j].MoveItem?)
  }

  /** A delete run, an insert run and a reload run of at most one operation
      each, concatenated, are in order and contain no move. */
  lemma RunsInOrder(deletes: seq<BatchOp>, inserts: seq<BatchOp>, reloads: seq<BatchOp>)
    requires |deletes| <= 1 && |inserts| <= 1 && |reloads| <= 1
    requires forall i :: 0 <= i < |deletes| ==> Rank(deletes[i]) == 0
    requires forall i :: 0 <= i < |inserts| ==> Rank(inserts[i]) == 1
    requires forall i :: 0 <= i < |reloads| ==> Rank(reloads[i]) == 2
    ensures forall i :: 0 <= i < |deletes + inserts + reloads| ==> Rank((deletes + inserts + reloads)[i]) < 3
    ensures KindsInOrder(deletes + inserts + reloads)
  {
    KindsInOrderAppend(deletes, inserts);
    KindsInOrderAppend(deletes + inserts, reloads);
  }

  /** Two ordered runs stay ordered when every kind in the first ranks
      below every kind in the second. */
  lemma KindsInOrderAppend(a: seq<BatchOp>, b: seq<BatchOp>)
    requires KindsInOrder(a) && KindsInOrder(b)
    requires forall i, j :: 0 <= i < |a| && 0 <= j < |b| ==> Rank(a[i]) < Rank(b[j])
    ensures KindsInOrder(a + b)
  {
    var ab := a + b;
    forall i, j | 0 <= i < j < |ab|
      ensures Rank(ab[i]) < Rank(ab[j]) || (ab[i].MoveItem? && ab[j].MoveItem?)
    {
      if j < |a| {
        assert ab[i] == a[i] && ab[j] == a[j];
      } else if i < |a| {
        assert ab[i] == a[i] && ab[j] == b[j - |a|];
      } else {
        assert ab[i] == b[i - |a|] && ab[j] == b[j - |a|];
      }
    }
  }

  /** The batch plan is in delete, insert, reload, move order, with each set
      operation at most once. */
  lemma {:induction false} BatchPlanOrdered(changes: ChangeDetails)
    ensures KindsInOrder(BatchPlan(changes))
  {
    var moves := MoveOps(changes.moves);
    assert forall i :: 0 <= i < |moves| ==> moves[i].MoveItem?;
    KindsInOrderAppend(SetOps(changes), moves);
  }

  /** A set operation carries exactly the present, non-empty index set of
      its kind. */
  predicate CarriesItsSet(changes: ChangeDetails, op: BatchOp) {
    match op
    case DeleteItems(s) => changes.removedIndexes == Some(s) && s != {}
    case InsertItems(s) => changes.insertedIndexes == Some(s) && s != {}
    case ReloadItems(s) => changes.changedIndexes == Some(s) && s != {}
    case MoveItem(_, _) => true
  }

  /** Every set operation carries its kind's index set. */
  lemma SetOpsCarry(changes: ChangeDetails)
    ensures forall i :: 0 <= i < |SetOps(changes)| ==> CarriesItsSet(changes, SetOps(changes)[i])
  {
    var deletes := DeleteOps(changes);
    var inserts := InsertOps(changes);
    var reloads := ReloadOps(changes);
    var sets := SetOps(changes);
    assert sets == deletes + inserts + reloads;
    forall i | 0 <= i < |sets|
      ensures CarriesItsSet(changes, sets[i])
    {
      if i < |deletes| {
        assert sets[i] == deletes[i];
      } else if i < |deletes| + |inserts| {
        assert sets[i] == inserts[i - |deletes|];
      } else {
        assert sets[i] == reloads[i - |deletes| - |inserts|];
      }
    }
  }

  /** BatchPlanSetOps for the set operations alone. */
  lemma SetOpsContents(changes: ChangeDetails)
    ensures Given(changes.removedIndexes) <==> exists i :: 0 <= i < |SetOps(changes)| && SetOps(changes)[i].DeleteItems?
    ensures Given(changes.insertedIndexes) <==> exists i :: 0 <= i < |SetOps(changes)| && SetOps(changes)[i].InsertItems?
    ensures Given(changes.changedIndexes) <==> exists i :: 0 <= i < |SetOps(changes)| && SetOps(changes)[i].ReloadItems?
    ensures forall i :: 0 <= i < |SetOps(changes)| ==> CarriesItsSet(changes, SetOps(changes)[i])
  {
    var deletes := DeleteOps(changes);
    var inserts := InsertOps(changes);
    var reloads := ReloadOps(changes);
    var sets := SetOps(changes);
    assert sets == deletes + inserts + reloads;
    SetOpsCarry(changes);
    if Given(changes.removedIndexes) {
      assert sets[0] == deletes[0];
    }
    if Given(changes.insertedIndexes) {
      assert sets[|deletes|] == inserts[0];
    }
    if Given(changes.changedIndexes) {
      assert sets[|deletes| + |inserts|] == reloads[0];
    }
  }

  /** The plan starts with the set operations; everything after them is a
      move. */
  lemma PlanSplitsAtSetOps(changes: ChangeDetails)
    ensures forall i :: 0 <= i < |SetOps(changes)| ==> BatchPlan(changes)[i] == SetOps(changes)[i]
    ensures forall i :: |SetOps(changes)| <= i < |BatchPlan(changes)| ==> BatchPlan(changes)[i].MoveItem?
  {
    var sets := SetOps(changes);
    var moves := MoveOps(changes.moves);
    var ops := BatchPlan(changes);
    assert ops == sets + moves;
    forall i | |sets| <= i < |ops|
      ensures ops[i].MoveItem?
    {
      assert ops[i] == moves[i - |sets|];
    }
  }

  /** A delete, insert or reload appears exactly when its index set is
      present and not empty, and then carries exactly that set. */
  lemma BatchPlanSetOps(changes: ChangeDetails)
    ensures Given(changes.removedIndexes) <==> exists i :: 0 <= i < |BatchPlan(changes)| && BatchPlan(changes)[i].DeleteItems?
    ensures Given(changes.insertedIndexes) <==> exists i :: 0 <= i < |BatchPlan(changes)| && BatchPlan(changes)[i].InsertItems?
    ensures Given(changes.changedIndexes) <==> exists i :: 0 <= i < |BatchPlan(changes)| && BatchPlan(changes)[i].ReloadItems?
    ensures forall i :: 0 <= i < |BatchPlan(changes)| ==> CarriesItsSet(changes, BatchPlan(changes)[i])
  {
    var sets := SetOps(changes);
    var ops := BatchPlan(changes);
    SetOpsContents(changes);
    PlanSplitsAtSetOps(changes);
    forall i | 0 <= i < |ops|
      ensures CarriesItsSet(changes, ops[i])
      ensures ops[i].DeleteItems? ==> Given(changes.removedIndexes)
      ensures ops[i].InsertItems? ==> Given(changes.insertedIndexes)
      ensures ops[i].ReloadItems? ==> Given(changes.changedIndexes)
    {
      if i < |sets| {
        assert ops[i] == sets[i];
      }
    }
  }

  /** The moves come last, all of them, in enumeration order. */
  lemma BatchPlanMoves(changes: ChangeDetails)
    ensures |changes.moves| <= |BatchPlan(changes)| <= |changes.moves| + 3
    ensures forall i :: 0 <= i < |BatchPlan(changes)| - |changes.moves| ==> !BatchPlan(changes)[i].MoveItem?
    ensures forall k :: 0 <= k < |changes.moves| ==>
      BatchPlan(changes)[|BatchPlan(changes)| - |changes.moves| + k] == MoveItem(changes.moves[k].0, changes.moves[k].1)
  {
    var sets := SetOps(changes);
    var moves := MoveOps(changes.moves);
    var ops := BatchPlan(changes);
    assert ops == sets + moves;
    forall i | 0 <= i < |sets|
      ensures !ops[i].MoveItem?
    {
      assert ops[i] == sets[i];
    }
    forall k | 0 <= k < |changes.moves|
      ensures ops[|sets| + k] == MoveItem(changes.moves[k].0, changes.moves[k].1)
    {
      assert ops[|sets| + k] == moves[k];
    }
  }

  /** One removal, one insertion, one change and one move on a five-item
      result become delete, insert, reload and move, in that order. */
  lemma ReconcileExample(after: seq<Asset>)
    requires |after| == 5
    ensures ViewUpdate(ChangeDetails(Some({2}), Some({0}), Some({4}), [(1, 3)], after, true))
         == PerformBatchUpdates([DeleteItems({2}), InsertItems({0}), ReloadItems({4}), MoveItem(1, 3)], 5)
  {
  }

  /** enumerateMoves { from, to in moveItem(at: from, to: to) } */
  method EnumerateMoves(moves: seq<(nat, nat)>) returns (ops: seq<BatchOp>)
    ensures |ops| == |moves|
    ensures forall k :: 0 <= k < |moves| ==> ops[k] == MoveItem(moves[k].0, moves[k].1)
  {
    ops := [];
    var i := 0;
    while i < |moves|
      invariant 0 <= i <= |moves|
      invariant |ops| == i
      invariant forall k :: 0 <= k < i ==> ops[k] == MoveItem(moves[k].0, moves[k].1)
    {
      var (fromIndex, toIndex) := moves[i];
      ops := ops + [MoveItem(fromIndex, toIndex)];
      i := i + 1;
    }
  }

  /** The thumbnail result handler of collectionView(_:cellForItemAt:): the
      image is stored only if the cell still represents the requested asset. */
  method DeliverThumbnail(cell: GridViewCell, requested: Asset, image: Option<Image>)
    modifies cell
    ensures cell.representedAssetIdentifier == old(cell.representedAssetIdentifier)
    ensures cell.livePhotoBadgeImage == old(cell.livePhotoBadgeImage) && cell.displayedBadge == old(cell.displayedBadge)
    ensures old(cell.representedAssetIdentifier) == Some(requested.localIdentifier) ==>
      cell.thumbnailImage == image && cell.displayedImage == image
    ensures old(cell.representedAssetIdentifier) != Some(requested.localIdentifier) ==>
      cell.thumbnailImage == old(cell.thumbnailImage) && cell.displayedImage == old(cell.displayedImage)
  {
    if cell.representedAssetIdentifier == Some(requested.localIdentifier) {
      cell.SetThumbnailImage(image);
    }
  }

  class AssetGridViewController {
    var fetchResult: seq<Asset>
    var previousPreheatRect: Rect
    ghost var calls: seq<Call>

    /** The remembered preheat window is CGRect.zero or a preheat window of
        the view, so it always has a non-negative size. */
    ghost predicate Valid()
      reads this
    {
      previousPreheatRect.Standard()
    }

    /** A controller after viewDidLoad with the given fetch result: the
        cache has been reset once. */
    constructor (fetchResult: seq<Asset>)
      ensures this.fetchResult == fetchResult
      ensures previousPreheatRect == Zero
      ensures calls == [StopCachingAll]
      ensures Valid()
    {
      this.fetchResult := fetchResult;
      previousPreheatRect := Zero;
      calls := [];
      new;
      ResetCachedAssets();
    }

    /** resetCachedAssets */
    method ResetCachedAssets()
      modifies this
      ensures calls == old(calls) + [StopCachingAll]
      ensures previousPreheatRect == Zero
      ensures fetchResult == old(fetchResult)
      ensures Valid()
    {
      calls := calls + [StopCachingAll];
      previousPreheatRect := Zero;
    }

    /**
     * updateCachedAssets. `visible` is isViewLoaded && view.window != nil,
     * `bounds` is view.bounds and `layout` is indexPathsForElements(in:).
     * Nothing happens while the view is off screen or while the preheat
     * window has not moved enough; otherwise caching starts for the assets in
     * the added strips, then stops for those in the removed strips, and the
     * preheat window is remembered, so the same bounds again change nothing.
     */
    method UpdateCachedAssets(visible: bool, bounds: Rect, layout: Rect -> seq<nat>)
      requires visible ==> bounds.Standard()
      requires LayoutInBounds(layout, |fetchResult|)
      modifies this
      ensures fetchResult == old(fetchResult)
      ensures !visible || !MovedEnough(PreheatRect(bounds), old(previousPreheatRect), bounds.height) ==>
        previousPreheatRect == old(previousPreheatRect) && calls == old(calls)
      ensures visible && MovedEnough(PreheatRect(bounds), old(previousPreheatRect), bounds.height) ==>
        var diff := Differences(old(previousPreheatRect), PreheatRect(bounds));
        previousPreheatRect == PreheatRect(bounds) &&
        calls == old(calls) + [StartCaching(AssetsIn(diff.0, layout, fetchResult)),
                               StopCaching(AssetsIn(diff.1, layout, fetchResult))]
      ensures visible ==> !MovedEnough(PreheatRect(bounds), previousPreheatRect, bounds.height)
      ensures old(Valid()) ==> Valid()
    {
      if !visible {
        return;
      }
      var preheatRect := PreheatRect(bounds);
      var delta := Abs(preheatRect.MidY() - previousPreheatRect.MidY());
      if !(delta > bounds.height / 3.0) {
        return;
      }
      var (addedRects, removedRects) := Differences(previousPreheatRect, preheatRect);
      var addedAssets := AssetsAt(IndexPathsIn(addedRects, layout), fetchResult);
      var removedAssets := AssetsAt(IndexPathsIn(removedRects, layout), fetchResult);
      calls := calls + [StartCaching(addedAssets)];
      calls := calls + [StopCaching(removedAssets)];
      previousPreheatRect := preheatRect;
      SameBoundsNotMovedEnough(bounds);
    }

    /**
     * photoLibraryDidChange, with `details` the change details for the
     * current fetch result (None when there are none). The new fetch result
     * is adopted before the collection view is updated; the cache is reset
     * afterwards.
     */
    method PhotoLibraryDidChange(details: Option<ChangeDetails>)
      modifies this
      ensures details.None? ==>
        fetchResult == old(fetchResult) && previousPreheatRect == old(previousPreheatRect) && calls == old(calls)
      ensures details.Some? ==>
        fetchResult == details.value.fetchResultAfterChanges &&
        previousPreheatRect == Zero &&
        calls == old(calls) + [ViewUpdate(details.value), StopCachingAll]
      ensures old(Valid()) ==> Valid()
    {
      if details.None? {
        return;
      }
      var changes := details.value;
      fetchResult := changes.fetchResultAfterChanges;
      if changes.hasIncrementalChanges {
        ghost var deletes := DeleteOps(changes);
        ghost var inserts := InsertOps(changes);
        ghost var reloads := ReloadOps(changes);
        var ops: seq<BatchOp> := [];
        if Given(changes.removedIndexes) {
          ops := ops + [DeleteItems(changes.removedIndexes.value)];
        }
        assert ops == deletes;
        if Given(changes.insertedIndexes) {
          ops := ops + [InsertItems(changes.insertedIndexes.value)];
        }
        assert ops == deletes + inserts;
        if Given(changes.changedIndexes) {
          ops := ops + [ReloadItems(changes.changedIndexes.value)];
        }
        assert ops == deletes + inserts + reloads;
        var moveOps := EnumerateMoves(changes.moves);
        assert moveOps == MoveOps(changes.moves);
        ops := ops + moveOps;
        assert ops == BatchPlan(changes);
        calls := calls + [PerformBatchUpdates(ops, |fetchResult|)];
      } else {
        calls := calls + [ReloadData(|fetchResult|)];
      }
      ResetCachedAssets();
    }

    /**
     * collectionView(_:cellForItemAt:) for a dequeued `cell`: shows the
     * live-photo badge when the asset is a live photo, binds the cell to the
     * asset and requests its thumbnail. The returned asset is what the
     * result handler (DeliverThumbnail) is later called with.
     */
    method CellForItem(cell: GridViewCell, item: nat) returns (requested: Asset)
      requires item < |fetchResult|
      modifies this, cell
      ensures fetchResult == old(fetchResult) && previousPreheatRect == old(previousPreheatRect)
      ensures requested == fetchResult[item]
      ensures cell.representedAssetIdentifier == Some(requested.localIdentifier)
      ensures requested.isLivePhoto ==>
        cell.livePhotoBadgeImage == Some(LivePhotoBadge) && cell.displayedBadge == Some(LivePhotoBadge)
      ensures !requested.isLivePhoto ==>
        cell.livePhotoBadgeImage == old(cell.livePhotoBadgeImage) && cell.displayedBadge == old(cell.displayedBadge)
      ensures cell.thumbnailImage == old(cell.thumbnailImage) && cell.displayedImage == old(cell.displayedImage)
      ensures calls == old(calls) + [RequestImage(requested)]
      ensures old(Valid()) ==> Valid()
    {
      requested := fetchResult[item];
      if requested.isLivePhoto {
        cell.SetLivePhotoBadgeImage(Some(LivePhotoBadge));
      }
      cell.SetRepresentedAssetIdentifier(requested.localIdentifier);
      calls := calls + [RequestImage(requested)];
    }

    /**
     * The cell-reuse race: a slot is bound to asset `first`, reused for asset
     * `second`, and the two thumbnails arrive out of order. The late result
     * for `first` does not overwrite the image shown for `second`.
     */
    method ReuseWithLateDelivery(cell: GridViewCell, first: nat, second: nat, firstImage: Option<Image>, secondImage: Option<Image>)
      requires first < |fetchResult| && second < |fetchResult|
      requires fetchResult[first].localIdentifier != fetchResult[second].localIdentifier
      modifies this, cell
      ensures fetchResult == old(fetchResult)
      ensures cell.representedAssetIdentifier == Some(fetchResult[second].localIdentifier)
      ensures cell.thumbnailImage == secondImage && cell.displayedImage == secondImage
      ensures old(Valid()) ==> Valid()
    {
      var a := CellForItem(cell, first);
      cell.PrepareForReuse();
      var b := CellForItem(cell, second);
      DeliverThumbnail(cell, b, secondImage);
      DeliverThumbnail(cell, a, firstImage);
    }
  }
}
