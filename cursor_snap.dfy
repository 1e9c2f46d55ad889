/**
 * The snap cursor of the 3D viewport: a pool of three snap states handed out
 * to tools, a default state used when none is active, and the element mask
 * and element index worked out on each update.
 * Snap-mode bit masks (`short`/`ushort` in the code) are sets of snap
 * elements; SCE_SNAP_MODE_* are distinct single bits.
 */
module CursorSnap {
  import opened Wrappers

  /** STATE_LEN */
  const StateLen: nat := 3

  type SlotIndex = i: nat | i < StateLen

  datatype SnapElement = Vertex | Edge | Face | Volume | EdgeMidpoint | EdgePerpendicular | Increment

  type SnapMask = set<SnapElement>

  datatype Vec3 = Vec3(x: real, y: real, z: real)

  /** V3DSnapCursorState, the fields this code reads or writes. `prevpoint`
      stands for the pointer and the three floats it points at. */
  datatype SnapState = SnapState(prevpoint: Option<Vec3>, snapElemForce: SnapMask, planeAxis: int,
                                 drawPoint: bool, drawPlane: bool)

  /** The statically initialised default state. */
  const DefaultState: SnapState :=
    SnapState(None, {Vertex, Edge, Face, EdgePerpendicular, EdgeMidpoint}, 2, true, false)

  /** SnapStateIntern: a pool slot. */
  datatype Slot = Slot(state: SnapState, prevpointStack: Vec3, activePrev: int, isActive: bool)

  /** The `V3DSnapCursorState *` handed to callers: the default state or a slot. */
  datatype StateRef = DefaultRef | SlotRef(index: SlotIndex)

  /** V3DSnapCursorData, the fields the bit-mask part of the update sets. */
  datatype SnapData = SnapData(isEnabled: bool, snapElem: SnapMask, elemIndex: seq<int>)

  /** What the snap projection reports: the elements snapped to and the index
      of the element found. */
  datatype Projection = Projection(elem: SnapMask, index: int)

  /** The elements the projection looks for at all. */
  const ProjectedElements: SnapMask := {Vertex, Edge, Face, EdgeMidpoint, EdgePerpendicular}

  /** The three element indices (vertex, edge, face) kept for the snapped element. */
  function ElemIndex(snapElem: SnapMask, index: int): (r: seq<int>)
    ensures |r| == 3
    ensures forall a, b :: 0 <= a < b < 3 ==> r[a] == -1 || r[b] == -1
    ensures r[0] != -1 ==> snapElem == {Vertex}
    ensures r[1] != -1 ==> snapElem * {Edge, EdgeMidpoint, EdgePerpendicular} != {}
    ensures r[2] != -1 ==> snapElem == {Face}
    ensures snapElem == {} ==> r == [-1, -1, -1]
    ensures index != -1 && snapElem == {Vertex} ==> r[0] == index
    ensures index != -1 && snapElem == {Face} ==> r[2] == index
  {
    if snapElem == {Vertex} then [index, -1, -1]
    else if snapElem * {Edge, EdgeMidpoint, EdgePerpendicular} != {} then [-1, index, -1]
    else if snapElem == {Face} then [-1, -1, index]
    else [-1, -1, -1]
  }

  /** The elements an update looks for: the state's forced ones, or else
      the scene's snap mode. */
  function SnapElements(state: SnapState, sceneSnapMode: SnapMask): SnapMask
  {
    if state.snapElemForce != {} then state.snapElemForce else sceneSnapMode
  }

  /** Faces are looked for but hidden when the plane is drawn and faces are
      not among the elements. */
  function HiddenElements(state: SnapState, sceneSnapMode: SnapMask): (r: SnapMask)
    ensures r <= {Face}
    ensures r == {Face} <==> state.drawPlane && Face !in SnapElements(state, sceneSnapMode)
  {
    if state.drawPlane && Face !in SnapElements(state, sceneSnapMode) then {Face} else {}
  }

  /** The snap data an update leaves: the projection is asked only when a
      projected element is looked for, and without a previous point not for
      the perpendicular edge; hidden elements are then removed. */
  function UpdatedData(state: SnapState, sceneSnapMode: SnapMask, project: SnapMask -> Projection): (r: SnapData)
    ensures r.isEnabled
    ensures r.snapElem !! HiddenElements(state, sceneSnapMode)
    ensures |r.elemIndex| == 3 && (forall k :: 0 <= k < 3 && r.elemIndex[k] != -1 ==> r.snapElem != {})
  {
    var requested := SnapElements(state, sceneSnapMode) + HiddenElements(state, sceneSnapMode);
    var sent := if state.prevpoint.Some? then requested else requested - {EdgePerpendicular};
    var p := if requested * ProjectedElements != {} then project(sent) else Projection({}, -1);
    var elems := p.elem - HiddenElements(state, sceneSnapMode);
    SnapData(true, elems, ElemIndex(elems, p.index))
  }

  /** SnapCursorDataIntern, the global that holds the pool. */
  class SnapCursor {
    var stateDefault: SnapState
    var slots: array<Slot>
    var activeLen: int
    var active: int
    var hasHandle: bool
    var hasSnapContext: bool
    var elemHidden: SnapMask
    var lastX: int
    var lastY: int
    var snapData: SnapData
    /** The active slots in the order they were handed out. */
    ghost var order: seq<SlotIndex>

    ghost predicate Valid()
      reads this, slots
    {
      slots.Length == StateLen &&
      0 <= active < StateLen &&
      forall i :: 0 <= i < StateLen ==> 0 <= slots[i].activePrev < StateLen
    }

    function CountActive(): nat
      reads this, slots
      requires Valid()
    {
      (if slots[0].isActive then 1 else 0) +
      (if slots[1].isActive then 1 else 0) +
      (if slots[2].isActive then 1 else 0)
    }

    /** The active count agrees with the slots. */
    ghost predicate Consistent()
      reads this, slots
      requires Valid()
    {
      activeLen == CountActive()
    }

    /** The slots were handed out and given back last-in first-out: the active
        slots, in activation order, each record the one before as their
        previous, and the newest is the current one. */
    ghost predicate Stacked()
      reads this, slots
      requires Valid()
    {
      |order| == activeLen &&
      (forall a, b :: 0 <= a < b < |order| ==> order[a] != order[b]) &&
      (forall i: SlotIndex :: slots[i].isActive <==> i in order) &&
      (|order| > 0 ==> active == order[|order| - 1]) &&
      (forall k :: 1 <= k < |order| ==> slots[order[k]].activePrev == order[k - 1])
    }

    /** The static initialiser: the default state set, every slot clear. */
    constructor ()
      ensures Valid() && fresh(slots) && Consistent() && Stacked()
      ensures stateDefault == DefaultState && activeLen == 0 && active == 0
      ensures !hasHandle && !hasSnapContext
    {
      stateDefault := DefaultState;
      slots := new Slot[StateLen](_ => Slot(SnapState(None, {}, 0, false, false), Vec3(0.0, 0.0, 0.0), 0, false));
      activeLen := 0;
      active := 0;
      hasHandle := false;
      hasSnapContext := false;
      elemHidden := {};
      lastX := 0;
      lastY := 0;
      snapData := SnapData(false, {}, [0, 0, 0]);
      order := [];
    }

    /** ED_view3d_cursor_snap_state_get: the default state while no slot is
        active, else the current slot. */
    method StateGet() returns (r: StateRef)
      requires Valid()
      ensures activeLen == 0 <==> r == DefaultRef
      ensures r.SlotRef? ==> r.index == active
      ensures r.SlotRef? && Stacked() ==> slots[r.index].isActive
    {
      if activeLen == 0 {
        return DefaultRef;
      }
      return SlotRef(active);
    }

    /** v3d_cursor_snap_free: the paint cursor and the snap context go, and
        every slot is marked inactive; the active count is left as it was. */
    method Free(windowManagerExists: bool)
      requires Valid()
      modifies this, slots
      ensures Valid() && slots == old(slots)
      ensures forall i :: 0 <= i < StateLen ==> slots[i] == old(slots[i]).(isActive := false)
      ensures CountActive() == 0
      ensures hasHandle == (old(hasHandle) && !windowManagerExists)
      ensures !hasSnapContext
      ensures activeLen == old(activeLen) && active == old(active) && stateDefault == old(stateDefault)
      ensures snapData == old(snapData) && lastX == old(lastX) && lastY == old(lastY)
      ensures elemHidden == old(elemHidden)
      ensures order == []
    {
      var i := 0;
      while i < StateLen
        invariant 0 <= i <= StateLen
        invariant unchanged(this)
        invariant forall j :: 0 <= j < i ==> slots[j] == old(slots[j]).(isActive := false)
        invariant forall j :: i <= j < StateLen ==> slots[j] == old(slots[j])
      {
        slots[i] := slots[i].(isActive := false);
        i := i + 1;
      }
      if hasHandle && windowManagerExists {
        hasHandle := false;
      }
      hasSnapContext := false;
      order := [];
    }

    /** ED_view3d_cursor_snap_active: the first inactive slot gets a copy of
        the default state, remembers the current slot as its previous one and
        becomes current. With every slot taken nothing is handed out and the
        count is put back. */
    method Active() returns (r: Option<SlotIndex>)
      requires Valid()
      modifies this, slots
      ensures Valid() && slots == old(slots)
      ensures old(activeLen) == 0 ==> hasHandle
      ensures old(activeLen) != 0 ==> hasHandle == old(hasHandle)
      ensures stateDefault == old(stateDefault) && hasSnapContext == old(hasSnapContext)
      ensures snapData == old(snapData) && elemHidden == old(elemHidden)
      ensures r.Some? ==>
        var i := r.value;
        !old(slots[i].isActive) &&
        (forall j :: 0 <= j < i ==> old(slots[j].isActive)) &&
        slots[i] == Slot(old(stateDefault), old(slots[i].prevpointStack), old(active), true) &&
        (forall j :: 0 <= j < StateLen && j != i ==> slots[j] == old(slots[j])) &&
        active == i && activeLen == old(activeLen) + 1
      ensures r.None? ==>
        (forall j :: 0 <= j < StateLen ==> old(slots[j].isActive)) &&
        slots[..] == old(slots[..]) && active == old(active) && activeLen == old(activeLen)
      ensures old(Consistent()) ==> Consistent()
      ensures old(Stacked()) ==> Stacked()
    {
      if activeLen == 0 && !hasHandle {
        hasHandle := true;
      }
      activeLen := activeLen + 1;
      var i := 0;
      while i < StateLen
        invariant 0 <= i <= StateLen
        invariant forall j :: 0 <= j < i ==> slots[j].isActive
        invariant unchanged(slots) && unchanged(this`active, this`order)
      {
        if !slots[i].isActive {
          slots[i] := Slot(stateDefault, slots[i].prevpointStack, active, true);
          order := order + [i];
          active := i;
          return Some(i);
        }
        i := i + 1;
      }
      activeLen := activeLen - 1;
      return None;
    }

    /** ED_view3d_cursor_snap_deactive: a no-op while nothing is active or
        for a slot already given back; otherwise the slot is given back, the
        count drops, and the slot's previous one becomes current again, or,
        when the count reaches zero, everything is freed. */
    method Deactive(s: SlotIndex, windowManagerExists: bool)
      requires Valid()
      modifies this, slots
      ensures Valid() && slots == old(slots)
      ensures stateDefault == old(stateDefault) && snapData == old(snapData)
      ensures old(activeLen) == 0 || !old(slots[s].isActive) ==>
        slots[..] == old(slots[..]) && activeLen == old(activeLen) && active == old(active) &&
        hasHandle == old(hasHandle) && hasSnapContext == old(hasSnapContext)
      ensures old(activeLen) != 0 && old(slots[s].isActive) ==>
        activeLen == old(activeLen) - 1 &&
        slots[s] == old(slots[s]).(isActive := false) &&
        if activeLen == 0 then
          CountActive() == 0 && active == old(active) && !hasSnapContext &&
          hasHandle == (old(hasHandle) && !windowManagerExists) &&
          (forall j :: 0 <= j < StateLen ==> slots[j] == old(slots[j]).(isActive := false))
        else
          active == old(slots[s].activePrev) &&
          (forall j :: 0 <= j < StateLen && j != s ==> slots[j] == old(slots[j])) &&
          hasHandle == old(hasHandle) && hasSnapContext == old(hasSnapContext)
      ensures old(Consistent()) ==> Consistent()
      ensures old(Stacked()) && old(activeLen) != 0 && s == old(active) ==> Stacked()
    {
      if activeLen == 0 {
        return;
      }
      if !slots[s].isActive {
        return;
      }
      slots[s] := slots[s].(isActive := false);
      activeLen := activeLen - 1;
      if activeLen == 0 {
        Free(windowManagerExists);
      } else {
        active := slots[s].activePrev;
        if |order| > 0 && order[|order| - 1] == s {
          order := order[..|order| - 1];
        } else {
          order := RemoveSlot(order, s);
        }
      }
    }

    /** ED_view3d_cursor_snap_prevpoint_set: a point is copied into the
        slot's own storage and the state points there; no point clears it. */
    method PrevpointSet(s: SlotIndex, point: Option<Vec3>)
      requires Valid()
      modifies slots
      ensures Valid()
      ensures forall j :: 0 <= j < StateLen && j != s ==> slots[j] == old(slots[j])
      ensures point.Some? ==>
        slots[s] == old(slots[s]).(prevpointStack := point.value,
                                   state := old(slots[s].state).(prevpoint := point))
      ensures point.None? ==>
        slots[s] == old(slots[s]).(state := old(slots[s].state).(prevpoint := None))
    {
      if point.Some? {
        slots[s] := slots[s].(prevpointStack := point.value);
        slots[s] := slots[s].(state := slots[s].state.(prevpoint := Some(slots[s].prevpointStack)));
      } else {
        slots[s] := slots[s].(state := slots[s].state.(prevpoint := None));
      }
    }

    /** ED_view3d_cursor_snap_state_default_set */
    method DefaultSet(state: SnapState)
      modifies this`stateDefault
      ensures stateDefault == state
    {
      stateDefault := state;
    }

    /** ED_view3d_cursor_snap_exit: frees, but leaves the active count alone. */
    method Exit(windowManagerExists: bool)
      requires Valid()
      modifies this, slots
      ensures Valid() && slots == old(slots)
      ensures CountActive() == 0 && activeLen == old(activeLen)
      ensures old(activeLen) != 0 ==> !Consistent()
    {
      Free(windowManagerExists);
    }

    /** v3d_cursor_eventstate_has_changed, with the modifier-key check
        compiled out: a new position seen while a window is active. */
    predicate EventStateHasChanged(windowActive: bool, x: int, y: int)
      reads this
    {
      windowActive && (x != lastX || y != lastY)
    }

    /** v3d_cursor_eventstate_save_xy: after it, the same position is no
        longer a change. */
    method SaveXY(x: int, y: int)
      modifies this`lastX, this`lastY
      ensures lastX == x && lastY == y
      ensures forall w :: !EventStateHasChanged(w, x, y)
    {
      lastX := x;
      lastY := y;
    }

    /** v3d_cursor_snap_update, its element-mask part. `sceneSnapMode` is the
        scene's snap mode and `project` the snap projection, which is given
        the elements to look for. The snap context is made sure to exist. */
    method Update(state: SnapState, sceneSnapMode: SnapMask, project: SnapMask -> Projection, x: int, y: int)
      modifies this
      ensures elemHidden == HiddenElements(state, sceneSnapMode)
      ensures snapData == UpdatedData(state, sceneSnapMode, project)
      ensures snapData.snapElem !! elemHidden
      ensures lastX == x && lastY == y && hasSnapContext
      ensures slots == old(slots) && activeLen == old(activeLen) && active == old(active)
      ensures stateDefault == old(stateDefault) && order == old(order)
    {
      hasSnapContext := true;
      var snapElem: SnapMask := {};
      var index := -1;
      var elements := if state.snapElemForce != {} then state.snapElemForce else sceneSnapMode;
      elemHidden := {};
      if state.drawPlane && Face !in elements {
        elemHidden := {Face};
        elements := elements + {Face};
      }
      assert elements == SnapElements(state, sceneSnapMode) + HiddenElements(state, sceneSnapMode);
      var enabled := true;
      if elements * ProjectedElements != {} {
        if state.prevpoint.None? {
          elements := elements - {EdgePerpendicular};
        }
        var p := project(elements);
        snapElem, index := p.elem, p.index;
      }
      snapElem := snapElem - elemHidden;
      snapData := SnapData(enabled, snapElem, ElemIndex(snapElem, index));
      SaveXY(x, y);
    }

    /** The state the update works on: the given one, or else the current
        slot's (some slot is active whenever the update runs). */
    ghost function StateFor(state: Option<StateRef>): SnapState
      reads this, slots
      requires Valid()
    {
      var ref := if state.Some? then state.value else SlotRef(active);
      if ref.SlotRef? then slots[ref.index].state else stateDefault
    }

    /** ED_view3d_cursor_snap_data_get: updates only when there is a context,
        some slot is active and the event position changed; `state` None
        means the current state. */
    method DataGet(state: Option<StateRef>, hasContext: bool, windowActive: bool,
                   sceneSnapMode: SnapMask, project: SnapMask -> Projection, x: int, y: int)
      returns (data: SnapData)
      requires Valid()
      modifies this
      ensures Valid() && slots == old(slots) && slots[..] == old(slots[..])
      ensures data == snapData
      ensures !(hasContext && old(activeLen) != 0 && old(EventStateHasChanged(windowActive, x, y))) ==>
        snapData == old(snapData) && lastX == old(lastX) && lastY == old(lastY)
      ensures hasContext && old(activeLen) != 0 && old(EventStateHasChanged(windowActive, x, y)) ==>
        lastX == x && lastY == y && hasSnapContext &&
        elemHidden == HiddenElements(old(StateFor(state)), sceneSnapMode) &&
        snapData == UpdatedData(old(StateFor(state)), sceneSnapMode, project) && snapData.isEnabled
    {
      if hasContext && activeLen != 0 && EventStateHasChanged(windowActive, x, y) {
        var ref := if state.Some? then state.value else SlotRef(active);
        var st := if ref.SlotRef? then slots[ref.index].state else stateDefault;
        Update(st, sceneSnapMode, project, x, y);
      }
      data := snapData;
    }
  }

  function RemoveSlot(order: seq<SlotIndex>, s: SlotIndex): seq<SlotIndex>
  {
    if order == [] then []
    else if order[0] == s then RemoveSlot(order[1..], s)
    else [order[0]] + RemoveSlot(order[1..], s)
  }

  /** Giving back a slot that is not the newest one leaves a slot that is no
      longer active as the current one: the previous-slot link assumes the
      slots come back in the reverse order of being handed out. */
  method OutOfOrderDeactivation() returns (c: SnapCursor)
    ensures c.Valid() && c.activeLen == 1
    ensures c.active == 0 && !c.slots[0].isActive && c.slots[1].isActive
  {
    c := new SnapCursor();
    var a := c.Active();
    var b := c.Active();
    assert a == Some(0) && b == Some(1);
    c.Deactive(0, true);
  }
}
