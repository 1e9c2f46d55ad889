/**
 * Local view and local collections of the 3D viewport: the 16 local-view
 * bits handed out to views, the per-base and per-collection bit masks they
 * set and clear, and the state of the selection draw loop.
 * All 3D view spaces of every screen and area are given as one sequence,
 * in the order the screens, areas and space lists are walked.
 */
module LocalView {
  import opened Wrappers

  /** An object, as the camera a view points at. */
  type ObjectId = nat

  newtype int32 = x: int | -0x8000_0000 <= x < 0x8000_0000
  newtype uint32 = x: int | 0 <= x < 0x1_0000_0000

  /** The part of the saved local-view copy of a view that exit reads back. */
  datatype SavedView = SavedView(camera: Option<ObjectId>)

  class View3D {
    /** `localvd`: the copy of the view taken on entering local view. */
    var localvd: Option<SavedView>
    var localViewUuid: Mask
    var camera: Option<ObjectId>
    /** The V3D_LOCAL_COLLECTIONS bit of the view's flags. */
    var localCollections: bool
    var localCollectionsUuid: Mask
  }

  class Base {
    var localViewBits: Mask
    /** BASE_SELECTED for the view the operator runs in. */
    var selected: bool
    /** Whether the edit-mode base iteration visits this base. */
    var inEditMode: bool
  }

  class ViewLayer {
    var bases: seq<Base>
    /** BASACT: the active base, if any. */
    var basact: Option<Base>
    /** Whether the layer has an object in edit mode. */
    var hasEditObject: bool
  }

  /** The bases of a view layer form a list of distinct nodes. */
  ghost predicate Distinct(bases: seq<Base>)
  {
    forall i, j :: 0 <= i < j < |bases| ==> bases[i] != bases[j]
  }

  // ---------------------------------------------------------------------
  // The sixteen bits

  /** A bit position of an `unsigned short`. */
  type BitIndex = i: nat | i < 16

  /** An `unsigned short` bit mask, as the set of its bit positions: `a | b`
      is `a + b`, `a & ~b` is `a - b`, `(a & b) == 0` is `a !! b`, and the
      single bit `1 << i` is `{i}`. */
  type Mask = set<BitIndex>

  /** Every one of the sixteen bits is set in `used`. */
  predicate AllUsed(used: Mask)
  {
    forall j: BitIndex :: j in used
  }

  /** `bit` is the lowest single bit not in `used`, or no bit at all (0) when
      all sixteen are taken. */
  predicate IsLowestFree(used: Mask, bit: Mask)
  {
    (bit == {} && AllUsed(used)) ||
    (exists k: BitIndex :: bit == {k} && k !in used && forall j: BitIndex :: j < k ==> j in used)
  }

  function LowestFreeFrom(used: Mask, i: nat): Mask
    requires i <= 16
    decreases 16 - i
  {
    if i == 16 then {}
    else if i !in used then {i}
    else LowestFreeFrom(used, i + 1)
  }

  /** The first free bit, searched from the lowest. */
  function LowestFreeBit(used: Mask): Mask
  {
    LowestFreeFrom(used, 0)
  }

  lemma {:induction false} LowestFreeFromIsLowest(used: Mask, i: nat)
    requires i <= 16
    requires forall j: BitIndex :: j < i ==> j in used
    ensures IsLowestFree(used, LowestFreeFrom(used, i))
    decreases 16 - i
  {
    if i < 16 && i in used {
      LowestFreeFromIsLowest(used, i + 1);
    }
  }

  lemma LowestFreeBitIsLowest(used: Mask)
    ensures IsLowestFree(used, LowestFreeBit(used))
  {
    LowestFreeFromIsLowest(used, 0);
  }

  /** There is only one lowest free bit. */
  lemma LowestFreeUnique(used: Mask, a: Mask, b: Mask)
    requires IsLowestFree(used, a) && IsLowestFree(used, b)
    ensures a == b
  {
    if a != {} && b != {} {
      var ka: BitIndex :| a == {ka} && ka !in used && forall j: BitIndex :: j < ka ==> j in used;
      var kb: BitIndex :| b == {kb} && kb !in used && forall j: BitIndex :: j < kb ==> j in used;
      assert ka == kb;
    }
  }

  // ---------------------------------------------------------------------
  // Bits in use

  /** The OR of `local_view_uuid` over the views that are in local view. */
  function UsedLocalViewBits(views: seq<View3D>): Mask
    reads views
  {
    if views == [] then {}
    else
      var v := views[|views| - 1];
      UsedLocalViewBits(views[..|views| - 1]) + (if v.localvd.Some? then v.localViewUuid else {})
  }

  /** A bit is in use exactly when some view in local view holds it. */
  lemma {:induction false} UsedLocalViewBitsHeld(views: seq<View3D>, i: BitIndex)
    ensures i in UsedLocalViewBits(views) <==>
      exists v :: v in views && v.localvd.Some? && i in v.localViewUuid
  {
    if views != [] {
      var init := views[..|views| - 1];
      UsedLocalViewBitsHeld(init, i);
      assert forall v :: v in views <==> v in init || v == views[|views| - 1];
    }
  }

  /** The OR of `local_collections_uuid` over the views with local collections
      on, leaving out `skip`. */
  function UsedCollectionBitsExcept(views: seq<View3D>, skip: Option<View3D>): Mask
    reads set v | v in views && skip != Some(v)
  {
    if views == [] then {}
    else
      var v := views[|views| - 1];
      UsedCollectionBitsExcept(views[..|views| - 1], skip) +
        (if skip != Some(v) && v.localCollections then v.localCollectionsUuid else {})
  }

  /** A view whose local-collections flag is off adds nothing to the bits in
      use, so leaving it out changes nothing. */
  lemma {:induction false} UsedCollectionBitsSkipCleared(views: seq<View3D>, v3d: View3D)
    requires !v3d.localCollections
    ensures UsedCollectionBitsExcept(views, None) == UsedCollectionBitsExcept(views, Some(v3d))
  {
    if views != [] {
      UsedCollectionBitsSkipCleared(views[..|views| - 1], v3d);
    }
  }

  /** free_localview_bit: the lowest bit no view in local view is using. */
  method FreeLocalViewBit(views: seq<View3D>) returns (bit: Mask)
    ensures bit == LowestFreeBit(UsedLocalViewBits(views))
  {
    var used: Mask := {};
    var n := 0;
    while n < |views|
      invariant 0 <= n <= |views|
      invariant used == UsedLocalViewBits(views[..n])
    {
      assert views[..n + 1][..n] == views[..n];
      if views[n].localvd.Some? {
        used := used + views[n].localViewUuid;
      }
      n := n + 1;
    }
    assert views[..n] == views;
    bit := FirstFreeBit(used);
  }

  /** The search loop shared by both allocators: the first `1 << i` not in
      `used`, or 0. */
  method FirstFreeBit(used: Mask) returns (bit: Mask)
    ensures bit == LowestFreeBit(used)
  {
    var i: nat := 0;
    while i < 16
      invariant i <= 16
      invariant LowestFreeFrom(used, i) == LowestFreeFrom(used, 0)
    {
      if i !in used {
        return {i};
      }
      i := i + 1;
    }
    return {};
  }

  /** free_localcollection_bit: keep the view's old uuid when it is set and no
      other view uses it; otherwise take the lowest free bit and ask for a
      reset of the collections. `reset` is only ever raised. */
  method FreeLocalCollectionBit(views: seq<View3D>, uuid: Mask, resetIn: bool)
    returns (bit: Mask, reset: bool)
    ensures var used := UsedCollectionBitsExcept(views, None);
      if uuid != {} && uuid !! used then bit == uuid && reset == resetIn
      else bit == LowestFreeBit(used) && reset == (resetIn || bit != {})
  {
    var used: Mask := {};
    var n := 0;
    while n < |views|
      invariant 0 <= n <= |views|
      invariant used == UsedCollectionBitsExcept(views[..n], None)
    {
      assert views[..n + 1][..n] == views[..n];
      if views[n].localCollections {
        used := used + views[n].localCollectionsUuid;
      }
      n := n + 1;
    }
    assert views[..n] == views;
    reset := resetIn;
    if uuid != {} && uuid !! used {
      return uuid, reset;
    }
    bit := FirstFreeBit(used);
    if bit != {} {
      reset := true;
    }
  }

  /** What free_localcollection_bit hands out is a bit no other view holds,
      and it hands out nothing only when the old uuid is unusable and all
      sixteen bits are taken. */
  lemma CollectionBitIsFree(used: Mask, uuid: Mask)
    ensures var bit := if uuid != {} && uuid !! used then uuid else LowestFreeBit(used);
      bit !! used && (bit == {} <==> (uuid == {} || !(uuid !! used)) && AllUsed(used))
  {
    LowestFreeBitIsLowest(used);
  }

  // ---------------------------------------------------------------------
  // Layer collections

  datatype LayerCollection = LayerCollection(hidden: bool, bits: Mask, children: seq<LayerCollection>)

  /** The result of a reset agrees with the original node by node: hidden
      collections lose `bit`, the others gain it, nothing else changes. */
  ghost predicate ResetAgrees(t: LayerCollection, r: LayerCollection, bit: Mask)
    decreases t
  {
    r.hidden == t.hidden &&
    r.bits - bit == t.bits - bit &&
    r.bits * bit == (if t.hidden then {} else bit) &&
    |r.children| == |t.children| &&
    forall i :: 0 <= i < |t.children| ==> ResetAgrees(t.children[i], r.children[i], bit)
  }

  /** local_collections_reset_uuid, applied to a collection and its subtree. */
  function ResetUuid(lc: LayerCollection, bit: Mask): LayerCollection
    decreases lc
  {
    LayerCollection(lc.hidden,
                    if lc.hidden then lc.bits - bit else lc.bits + bit,
                    seq(|lc.children|, i requires 0 <= i < |lc.children| => ResetUuid(lc.children[i], bit)))
  }

  lemma {:induction false} ResetUuidAgrees(lc: LayerCollection, bit: Mask)
    ensures ResetAgrees(lc, ResetUuid(lc, bit), bit)
    decreases lc
  {
    forall i | 0 <= i < |lc.children|
      ensures ResetAgrees(lc.children[i], ResetUuid(lc, bit).children[i], bit)
    {
      ResetUuidAgrees(lc.children[i], bit);
    }
  }

  /** Every scene's view layers, each with its top-level layer collections. */
  datatype SceneLayers = SceneLayers(viewLayers: seq<seq<LayerCollection>>)

  function ResetRoots(roots: seq<LayerCollection>, bit: Mask): (r: seq<LayerCollection>)
    ensures |r| == |roots|
    ensures forall i :: 0 <= i < |roots| ==> ResetAgrees(roots[i], r[i], bit)
  {
    if roots == [] then []
    else
      ResetUuidAgrees(roots[0], bit);
      [ResetUuid(roots[0], bit)] + ResetRoots(roots[1..], bit)
  }

  /** view3d_local_collections_reset: every layer collection of every view
      layer of every scene. */
  function ResetScenes(scenes: seq<SceneLayers>, bit: Mask): (r: seq<SceneLayers>)
    ensures |r| == |scenes|
    ensures forall s :: 0 <= s < |scenes| ==> |r[s].viewLayers| == |scenes[s].viewLayers|
    ensures forall s, l :: 0 <= s < |scenes| && 0 <= l < |scenes[s].viewLayers| ==>
      |r[s].viewLayers[l]| == |scenes[s].viewLayers[l]|
    ensures forall s, l, i ::
      (0 <= s < |scenes| && 0 <= l < |scenes[s].viewLayers| && 0 <= i < |scenes[s].viewLayers[l]|) ==>
        ResetAgrees(scenes[s].viewLayers[l][i], r[s].viewLayers[l][i], bit)
  {
    seq(|scenes|, s requires 0 <= s < |scenes| =>
      SceneLayers(seq(|scenes[s].viewLayers|, l requires 0 <= l < |scenes[s].viewLayers| =>
        ResetRoots(scenes[s].viewLayers[l], bit))))
  }

  /** The file's screens (as their 3D views) and scenes. */
  class MainData {
    var views: seq<View3D>
    var scenes: seq<SceneLayers>
  }

  /** ED_view3d_local_collections_set. The view's own flag is cleared before
      the search, so its own uuid does not count as taken; when no bit is
      free the flag stays cleared. */
  method LocalCollectionsSet(bmain: MainData, v3d: View3D) returns (ok: bool)
    modifies v3d, bmain`scenes
    ensures v3d.localvd == old(v3d.localvd) && v3d.localViewUuid == old(v3d.localViewUuid)
    ensures v3d.camera == old(v3d.camera)
    ensures !old(v3d.localCollections) ==>
      ok && unchanged(v3d) && bmain.scenes == old(bmain.scenes)
    ensures old(v3d.localCollections) ==>
      var used := old(UsedCollectionBitsExcept(bmain.views, Some(v3d)));
      var uuid := old(v3d.localCollectionsUuid);
      var keep := uuid != {} && uuid !! used;
      var bit := if keep then uuid else LowestFreeBit(used);
      ok == (bit != {}) &&
      v3d.localCollections == ok &&
      v3d.localCollectionsUuid == (if ok then bit else uuid) &&
      bmain.scenes == (if ok && !keep then ResetScenes(old(bmain.scenes), bit) else old(bmain.scenes))
  {
    if !v3d.localCollections {
      return true;
    }
    v3d.localCollections := false;
    UsedCollectionBitsSkipCleared(bmain.views, v3d);
    var bit, reset := FreeLocalCollectionBit(bmain.views, v3d.localCollectionsUuid, false);
    if bit == {} {
      return false;
    }
    v3d.localCollectionsUuid := bit;
    v3d.localCollections := true;
    if reset {
      bmain.scenes := ResetScenes(bmain.scenes, bit);
    }
    ok := true;
  }

  // ---------------------------------------------------------------------
  // Entering and leaving local view

  /** The base is one the view takes into local view: in edit mode the bases
      being edited, otherwise the selected ones. */
  ghost predicate Taken(b: Base, editMode: bool)
    reads b
  {
    if editMode then b.inEditMode else b.selected
  }

  /** The first loop of the edit-mode branch: the bit leaves every base. */
  method ClearBitOnAll(bases: seq<Base>, bit: Mask)
    requires Distinct(bases)
    modifies bases
    ensures forall b :: b in bases ==>
      b.localViewBits == old(b.localViewBits) - bit &&
      b.selected == old(b.selected) && b.inEditMode == old(b.inEditMode)
  {
    var i := 0;
    while i < |bases|
      invariant 0 <= i <= |bases|
      invariant forall k :: 0 <= k < i ==> bases[k].localViewBits == old(bases[k].localViewBits) - bit
      invariant forall k :: i <= k < |bases| ==> bases[k].localViewBits == old(bases[k].localViewBits)
      invariant forall b :: b in bases ==> b.selected == old(b.selected) && b.inEditMode == old(b.inEditMode)
    {
      bases[i].localViewBits := bases[i].localViewBits - bit;
      i := i + 1;
    }
  }

  /** The second loop of the edit-mode branch: the bases being edited gain the
      bit; `ok` says whether there was one. */
  method AddBitToEditBases(bases: seq<Base>, bit: Mask) returns (ok: bool)
    requires Distinct(bases)
    modifies bases
    ensures ok <==> exists k :: 0 <= k < |bases| && bases[k].inEditMode
    ensures forall b :: b in bases ==>
      b.localViewBits == (if b.inEditMode then old(b.localViewBits) + bit else old(b.localViewBits)) &&
      b.selected == old(b.selected) && b.inEditMode == old(b.inEditMode)
  {
    ok := false;
    var i := 0;
    while i < |bases|
      invariant 0 <= i <= |bases|
      invariant ok <==> exists k :: 0 <= k < i && bases[k].inEditMode
      invariant forall k :: 0 <= k < i ==>
        bases[k].localViewBits == if bases[k].inEditMode then old(bases[k].localViewBits) + bit
                                  else old(bases[k].localViewBits)
      invariant forall k :: i <= k < |bases| ==> bases[k].localViewBits == old(bases[k].localViewBits)
      invariant forall b :: b in bases ==> b.selected == old(b.selected) && b.inEditMode == old(b.inEditMode)
    {
      if bases[i].inEditMode {
        bases[i].localViewBits := bases[i].localViewBits + bit;
        ok := true;
      }
      i := i + 1;
    }
  }

  /** The object-mode branch: selected bases gain the bit and the others lose
      it; `ok` says whether any base was selected. */
  method AssignBitBySelection(bases: seq<Base>, bit: Mask) returns (ok: bool)
    requires Distinct(bases)
    modifies bases
    ensures ok <==> exists k :: 0 <= k < |bases| && bases[k].selected
    ensures forall b :: b in bases ==>
      b.localViewBits == (if b.selected then old(b.localViewBits) + bit else old(b.localViewBits) - bit) &&
      b.selected == old(b.selected) && b.inEditMode == old(b.inEditMode)
  {
    ok := false;
    var i := 0;
    while i < |bases|
      invariant 0 <= i <= |bases|
      invariant ok <==> exists k :: 0 <= k < i && bases[k].selected
      invariant forall k :: 0 <= k < i ==>
        bases[k].localViewBits == if bases[k].selected then old(bases[k].localViewBits) + bit
                                  else old(bases[k].localViewBits) - bit
      invariant forall k :: i <= k < |bases| ==> bases[k].localViewBits == old(bases[k].localViewBits)
      invariant forall b :: b in bases ==> b.selected == old(b.selected) && b.inEditMode == old(b.inEditMode)
    {
      if bases[i].selected {
        bases[i].localViewBits := bases[i].localViewBits + bit;
        ok := true;
      } else {
        bases[i].localViewBits := bases[i].localViewBits - bit;
      }
      i := i + 1;
    }
  }

  /** view3d_localview_init, its bit bookkeeping. Bases are updated before
      success is known, so a failed call may still have changed them. */
  method LocalViewInit(views: seq<View3D>, v3d: View3D, layer: ViewLayer)
    returns (ok: bool, report: Option<string>)
    requires Distinct(layer.bases)
    modifies v3d, layer.bases
    ensures old(v3d.localvd).Some? ==>
      !ok && report == None && unchanged(v3d) &&
      forall b :: b in layer.bases ==> unchanged(b)
    ensures old(v3d.localvd).None? ==>
      var bit := old(LowestFreeBit(UsedLocalViewBits(views)));
      var edit := layer.hasEditObject;
      (report.Some? <==> bit == {}) &&
      (report.Some? ==> report.value == "No more than 16 local views") &&
      (bit == {} ==> !ok && unchanged(v3d) && forall b :: b in layer.bases ==> unchanged(b)) &&
      (bit != {} ==>
         (ok <==> exists k :: 0 <= k < |layer.bases| && old(Taken(layer.bases[k], edit))) &&
         forall b :: b in layer.bases ==>
           b.selected == old(b.selected) && b.inEditMode == old(b.inEditMode) &&
           b.localViewBits == if old(Taken(b, edit)) then old(b.localViewBits) + bit
                              else old(b.localViewBits) - bit) &&
      (ok ==> v3d.localvd == Some(SavedView(old(v3d.camera))) && v3d.localViewUuid == bit &&
              v3d.camera == old(v3d.camera) && v3d.localCollections == old(v3d.localCollections) &&
              v3d.localCollectionsUuid == old(v3d.localCollectionsUuid)) &&
      (!ok ==> unchanged(v3d))
  {
    report := None;
    if v3d.localvd.Some? {
      return false, report;
    }
    var bit := FreeLocalViewBit(views);
    ok := false;
    if bit == {} {
      report := Some("No more than 16 local views");
      return;
    }
    if layer.hasEditObject {
      ClearBitOnAll(layer.bases, bit);
      ok := AddBitToEditBases(layer.bases, bit);
    } else {
      ok := AssignBitBySelection(layer.bases, bit);
    }
    if !ok {
      return;
    }
    v3d.localvd := Some(SavedView(v3d.camera));
    v3d.localViewUuid := bit;
  }

  /** view3d_localview_exit, its bit bookkeeping: the view's bit leaves every
      base, the uuid is released and the saved camera comes back. */
  method LocalViewExit(v3d: View3D, layer: ViewLayer)
    requires Distinct(layer.bases)
    modifies v3d, layer.bases
    ensures old(v3d.localvd).None? ==> unchanged(v3d) && forall b :: b in layer.bases ==> unchanged(b)
    ensures old(v3d.localvd).Some? ==>
      v3d.localvd == None && v3d.localViewUuid == {} &&
      v3d.camera == old(v3d.localvd).value.camera &&
      v3d.localCollections == old(v3d.localCollections) &&
      v3d.localCollectionsUuid == old(v3d.localCollectionsUuid) &&
      forall b :: b in layer.bases ==>
        b.localViewBits == old(b.localViewBits) - old(v3d.localViewUuid) &&
        b.selected == old(b.selected) && b.inEditMode == old(b.inEditMode)
  {
    if v3d.localvd.None? {
      return;
    }
    var bases := layer.bases;
    var i := 0;
    while i < |bases|
      invariant 0 <= i <= |bases|
      invariant forall k :: 0 <= k < i ==> bases[k].localViewBits == old(bases[k].localViewBits) - v3d.localViewUuid
      invariant forall k :: i <= k < |bases| ==> bases[k].localViewBits == old(bases[k].localViewBits)
      invariant forall b :: b in bases ==> b.selected == old(b.selected) && b.inEditMode == old(b.inEditMode)
      invariant unchanged(v3d)
    {
      if !(bases[i].localViewBits !! v3d.localViewUuid) {
        bases[i].localViewBits := bases[i].localViewBits - v3d.localViewUuid;
      }
      i := i + 1;
    }
    v3d.localViewUuid := {};
    v3d.camera := v3d.localvd.value.camera;
    v3d.localvd := None;
  }

  /** localview_exec: the operator toggles local view; it finishes when it
      left local view or entered it, and is cancelled otherwise. */
  method LocalViewToggle(views: seq<View3D>, v3d: View3D, layer: ViewLayer)
    returns (finished: bool, report: Option<string>)
    requires Distinct(layer.bases)
    modifies v3d, layer.bases
    ensures old(v3d.localvd).Some? ==> finished && v3d.localvd == None
    ensures old(v3d.localvd).None? ==> (finished <==> v3d.localvd.Some?)
  {
    report := None;
    if v3d.localvd.Some? {
      LocalViewExit(v3d, layer);
      finished := true;
    } else {
      finished, report := LocalViewInit(views, v3d, layer);
    }
  }

  /** localview_remove_from_exec: every selected base leaves the view's local
      view and is deselected, and stops being the active base. */
  method LocalViewRemoveFrom(v3d: View3D, layer: ViewLayer)
    returns (finished: bool, report: Option<string>)
    requires Distinct(layer.bases)
    modifies layer`basact, layer.bases
    ensures finished <==> exists b :: b in layer.bases && old(b.selected)
    ensures report == if finished then None else Some("No object selected")
    ensures forall b :: b in layer.bases ==>
      b.inEditMode == old(b.inEditMode) &&
      if old(b.selected) then !b.selected && b.localViewBits == old(b.localViewBits) - v3d.localViewUuid
      else b.selected == old(b.selected) && b.localViewBits == old(b.localViewBits)
    ensures layer.basact ==
      if old(layer.basact).Some? && old(layer.basact).value in layer.bases && old(layer.basact.value.selected)
      then None else old(layer.basact)
  {
    var bases := layer.bases;
    var changed := false;
    var i := 0;
    while i < |bases|
      invariant 0 <= i <= |bases|
      invariant layer.bases == bases
      invariant changed <==> exists k :: 0 <= k < i && old(bases[k].selected)
      invariant forall k :: 0 <= k < i ==>
        bases[k].inEditMode == old(bases[k].inEditMode) &&
        if old(bases[k].selected) then !bases[k].selected && bases[k].localViewBits == old(bases[k].localViewBits) - v3d.localViewUuid
        else unchanged(bases[k])
      invariant forall k :: i <= k < |bases| ==> unchanged(bases[k])
      invariant layer.basact ==
        if old(layer.basact).Some? && (exists k :: 0 <= k < i && bases[k] == old(layer.basact).value) && old(layer.basact.value.selected)
        then None else old(layer.basact)
    {
      if bases[i].selected {
        bases[i].localViewBits := bases[i].localViewBits - v3d.localViewUuid;
        bases[i].selected := false;
        if layer.basact == Some(bases[i]) {
          layer.basact := None;
        }
        changed := true;
      }
      i := i + 1;
    }
    if changed {
      return true, None;
    }
    return false, Some("No object selected");
  }

  // ---------------------------------------------------------------------
  // The selection draw loop

  datatype SelectStage = PassPre | PassPost

  datatype SelectMode = SelectAll | NearestFirstPass | NearestSecondPass | PickAll | PickNearest

  /** DrawSelectLoopUserData: the pass counter, the hit count kept from the
      first pass and the GPU selection mode. */
  class DrawSelectLoopData {
    var pass: uint32
    var hits: uint32
    var mode: SelectMode

    /** drw_select_loop_pass. `gpuHits` is what GPU_select_end returns after
        a pass; the answer says whether to draw another pass. */
    method LoopPass(stage: SelectStage, gpuHits: int32) returns (continuePass: bool)
      modifies this
      ensures stage == PassPre ==> continuePass && unchanged(this)
      ensures stage == PassPost ==>
        pass as int == (old(pass) as int + 1) % 0x1_0000_0000 &&
        hits == (if old(pass) == 0 then (gpuHits as int % 0x1_0000_0000) as uint32 else old(hits)) &&
        mode == (if old(mode) == NearestFirstPass then NearestSecondPass else old(mode)) &&
        continuePass == (old(mode) == NearestFirstPass && gpuHits > 0)
    {
      continuePass := false;
      if stage == PassPre {
        continuePass := true;
      } else {
        var h := gpuHits;
        if pass == 0 {
          hits := (h as int % 0x1_0000_0000) as uint32;
        }
        if mode == NearestFirstPass {
          mode := NearestSecondPass;
          continuePass := h > 0;
        }
        pass := ((pass as int + 1) % 0x1_0000_0000) as uint32;
      }
    }
  }

  /** A nearest-first selection draws exactly two passes when the first one
      hits something, keeping the first pass's hit count. */
  method NearestSelectionRuns(data: DrawSelectLoopData, firstHits: int32, secondHits: int32)
    returns (passes: nat)
    requires data.pass == 0 && data.mode == NearestFirstPass
    modifies data
    ensures passes == if firstHits > 0 then 2 else 1
    ensures data.hits as int == firstHits as int % 0x1_0000_0000
    ensures data.mode == NearestSecondPass && data.pass as int == passes
  {
    var more := data.LoopPass(PassPre, 0);
    more := data.LoopPass(PassPost, firstHits);
    passes := 1;
    if more {
      more := data.LoopPass(PassPre, 0);
      more := data.LoopPass(PassPost, secondHits);
      passes := 2;
      assert !more;
    }
  }
}
