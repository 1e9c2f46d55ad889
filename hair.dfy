/**
 * Hair geometry (hair.cpp): curves as runs of keys in one key array, the
 * lookup of a curve's keys at a motion step, and the packing of curves,
 * segments and shader-evaluation inputs into the flat arrays the kernel
 * reads.
 */
module Hair {
  import opened Wrappers
  import opened CyclesShader

  /** A key position; coordinates are kept exact. */
  datatype Point = Point(x: real, y: real, z: real)

  /** A float4 holding a key position and its radius. */
  datatype Key4 = Key4(co: Point, radius: real)

  /** Hair::Curve: the curve's keys are `firstKey .. firstKey + numKeys - 1`
      of the key array. */
  datatype Curve = Curve(firstKey: nat, numKeys: nat)
  {
    function NumSegments(): int
    {
      numKeys - 1
    }
  }

  // ---------------------------------------------------------------------
  // Keys at a motion step

  /** The motion steps other than the centre one are stored one after the
      other in `key_steps`, each holding all `numCurveKeys` keys; the centre
      step is the key array itself. */
  function CenterStep(numSteps: nat): nat
    requires numSteps >= 1
  {
    (numSteps - 1) / 2
  }

  /** Where a step other than the centre one is stored among the stored
      steps. */
  function StoredStep(step: nat, center: nat): nat
    requires step != center
  {
    if step > center then step - 1 else step
  }

  /** Where the key with global index `g` of motion step `step` is read
      from. */
  datatype KeySource = CurveKey(index: nat) | StepKey(index: nat)

  function KeySourceOf(numCurveKeys: nat, numSteps: nat, step: nat, g: nat): (r: KeySource)
    requires numSteps >= 1 && step < numSteps && g < numCurveKeys
    ensures r.CurveKey? ==> r.index < numCurveKeys
    ensures r.StepKey? ==> r.index < numCurveKeys * (numSteps - 1)
  {
    var center := CenterStep(numSteps);
    if step == center then CurveKey(g)
    else
      var s := StoredStep(step, center);
      MulMonotone(s, numSteps - 2, numCurveKeys);
      assert numCurveKeys * (numSteps - 1) == numCurveKeys * (numSteps - 2) + numCurveKeys;
      StepKey(s * numCurveKeys + g)
  }

  lemma DivMod(i: nat, n: nat)
    requires n > 0
    ensures i == (i / n) * n + i % n && 0 <= i % n < n
  {
  }

  lemma MulMonotone(a: nat, b: nat, n: nat)
    requires a <= b
    ensures a * n <= b * n
  {
  }

  /** The step and global key index whose key the stored-step array holds at
      position `i`: the inverse of KeySourceOf on the non-centre steps. */
  function StepAndKeyAt(numCurveKeys: nat, numSteps: nat, i: nat): (nat, nat)
    requires numSteps >= 1 && numCurveKeys > 0
  {
    var s := i / numCurveKeys;
    (if s >= CenterStep(numSteps) then s + 1 else s, i % numCurveKeys)
  }

  lemma DivModOfSum(s: nat, n: nat, g: nat)
    requires g < n
    ensures (s * n + g) / n == s && (s * n + g) % n == g
  {
    var q, r := (s * n + g) / n, (s * n + g) % n;
    assert q * n + r == s * n + g;
    if q < s {
      MulMonotone(q + 1, s, n);
    } else if q > s {
      MulMonotone(s + 1, q, n);
    }
  }

  /** Each stored position belongs to exactly one non-centre step and key:
      reading a key at a step and looking up its position round-trip. */
  lemma StepKeyRoundTrip(numCurveKeys: nat, numSteps: nat, step: nat, g: nat)
    requires numSteps >= 1 && step < numSteps && step != CenterStep(numSteps) && g < numCurveKeys
    ensures StepAndKeyAt(numCurveKeys, numSteps, KeySourceOf(numCurveKeys, numSteps, step, g).index) == (step, g)
  {
    DivModOfSum(StoredStep(step, CenterStep(numSteps)), numCurveKeys, g);
  }

  lemma StepPositionRoundTrip(numCurveKeys: nat, numSteps: nat, i: nat)
    requires numSteps >= 1 && numCurveKeys > 0 && i < numCurveKeys * (numSteps - 1)
    ensures StepAndKeyAt(numCurveKeys, numSteps, i).0 < numSteps
    ensures StepAndKeyAt(numCurveKeys, numSteps, i).0 != CenterStep(numSteps)
    ensures StepAndKeyAt(numCurveKeys, numSteps, i).1 < numCurveKeys
    ensures KeySourceOf(numCurveKeys, numSteps, StepAndKeyAt(numCurveKeys, numSteps, i).0,
                        StepAndKeyAt(numCurveKeys, numSteps, i).1) == StepKey(i)
  {
    var s, g := i / numCurveKeys, i % numCurveKeys;
    DivMod(i, numCurveKeys);
    StoredStepBound(numCurveKeys, numSteps, i, s, g);
    var step := StepAndKeyAt(numCurveKeys, numSteps, i).0;
    assert StoredStep(step, CenterStep(numSteps)) == s;
  }

  /** A position in the stored-step array lies in one of the stored steps. */
  lemma StoredStepBound(numCurveKeys: nat, numSteps: nat, i: nat, s: nat, g: nat)
    requires numSteps >= 1 && i < numCurveKeys * (numSteps - 1) && i == s * numCurveKeys + g
    ensures s < numSteps - 1
  {
    if s >= numSteps - 1 {
      MulMonotone(numSteps - 1, s, numCurveKeys);
    }
  }

  /** The key a source names, with the radius of the key at the centre
      step: radii do not move. */
  function Fetch(keys: seq<Point>, radius: seq<real>, keySteps: seq<Point>, src: KeySource, g: nat): Key4
    requires g < |radius|
    requires src.CurveKey? ==> src.index < |keys|
    requires src.StepKey? ==> src.index < |keySteps|
  {
    Key4(if src.CurveKey? then keys[src.index] else keySteps[src.index], radius[g])
  }

  /** What a call of keys_for_step may assume: the curve lies in the key
      array and the step array holds every non-centre step. */
  predicate StepArrays(c: Curve, keys: seq<Point>, radius: seq<real>, keySteps: seq<Point>,
                       numCurveKeys: nat, numSteps: nat, step: nat)
  {
    numSteps >= 1 && step < numSteps && c.numKeys >= 1 && c.firstKey + c.numKeys <= numCurveKeys &&
    |keys| == numCurveKeys && |radius| == numCurveKeys && |keySteps| == numCurveKeys * (numSteps - 1)
  }

  /** A key index clamped to the last key of the curve. */
  function ClampKey(c: Curve, k: nat): (r: nat)
    requires c.numKeys >= 1
    ensures r < c.numKeys && (k < c.numKeys ==> r == k) && (k >= c.numKeys ==> r == c.numKeys - 1)
  {
    if k < c.numKeys - 1 then k else c.numKeys - 1
  }

  /** Key `k` of curve `c` at motion step `step`. */
  function KeyAtStep(c: Curve, keys: seq<Point>, radius: seq<real>, keySteps: seq<Point>,
                     numCurveKeys: nat, numSteps: nat, step: nat, k: nat): Key4
    requires StepArrays(c, keys, radius, keySteps, numCurveKeys, numSteps, step) && k < c.numKeys
  {
    Fetch(keys, radius, keySteps, KeySourceOf(numCurveKeys, numSteps, step, c.firstKey + k), c.firstKey + k)
  }

  /** The key array holds the centre step, and the step array every other
      step at the position its key has in the round trip above. */
  lemma KeyAtStepMeaning(c: Curve, keys: seq<Point>, radius: seq<real>, keySteps: seq<Point>,
                         numCurveKeys: nat, numSteps: nat, step: nat, k: nat)
    requires StepArrays(c, keys, radius, keySteps, numCurveKeys, numSteps, step) && k < c.numKeys
    ensures var key := KeyAtStep(c, keys, radius, keySteps, numCurveKeys, numSteps, step, k);
            key.radius == radius[c.firstKey + k] &&
            (step == CenterStep(numSteps) ==> key.co == keys[c.firstKey + k]) &&
            (step != CenterStep(numSteps) ==>
               exists i | 0 <= i < |keySteps| :: StepAndKeyAt(numCurveKeys, numSteps, i) == (step, c.firstKey + k) &&
                                                key.co == keySteps[i])
  {
    if step != CenterStep(numSteps) {
      var i := KeySourceOf(numCurveKeys, numSteps, step, c.firstKey + k).index;
      StepKeyRoundTrip(numCurveKeys, numSteps, step, c.firstKey + k);
    }
  }

  /** The position keys_for_step reads a non-centre step's key from is the
      one KeySourceOf names. */
  lemma StepOffset(c: Curve, numCurveKeys: nat, numSteps: nat, step: nat, k: nat, s: nat)
    requires numSteps >= 1 && step < numSteps && c.firstKey + k < numCurveKeys
    requires step != CenterStep(numSteps) && s == (if step > CenterStep(numSteps) then step - 1 else step)
    ensures KeySourceOf(numCurveKeys, numSteps, step, c.firstKey + k) == StepKey(c.firstKey + s * numCurveKeys + k)
  {
  }

  /** Hair::Curve::keys_for_step: keys k0 and k1 (clamped to the curve) of
      the curve at motion step `step`. */
  function KeysForStep(c: Curve, keys: seq<Point>, radius: seq<real>, keySteps: seq<Point>,
                       numCurveKeys: nat, numSteps: nat, step: nat, k0: nat, k1: nat): (r: seq<Key4>)
    requires StepArrays(c, keys, radius, keySteps, numCurveKeys, numSteps, step) && k0 < c.numKeys
    ensures r == [KeyAtStep(c, keys, radius, keySteps, numCurveKeys, numSteps, step, k0),
                  KeyAtStep(c, keys, radius, keySteps, numCurveKeys, numSteps, step, ClampKey(c, k1))]
  {
    var k1 := ClampKey(c, k1);
    var center := (numSteps - 1) / 2;
    if step == center then
      [Key4(keys[c.firstKey + k0], radius[c.firstKey + k0]), Key4(keys[c.firstKey + k1], radius[c.firstKey + k1])]
    else
      var s := if step > center then step - 1 else step;
      var offset := c.firstKey + s * numCurveKeys;
      StepOffset(c, numCurveKeys, numSteps, step, k0, s);
      StepOffset(c, numCurveKeys, numSteps, step, k1, s);
      [Key4(keySteps[offset + k0], radius[c.firstKey + k0]), Key4(keySteps[offset + k1], radius[c.firstKey + k1])]
  }

  /** Hair::Curve::cardinal_keys_for_step: keys k0, k1, k2 and k3 (clamped
      to the curve) of the curve at motion step `step`. */
  function CardinalKeysForStep(c: Curve, keys: seq<Point>, radius: seq<real>, keySteps: seq<Point>,
                               numCurveKeys: nat, numSteps: nat, step: nat, k0: nat, k1: nat, k2: nat, k3: nat)
    : (r: seq<Key4>)
    requires StepArrays(c, keys, radius, keySteps, numCurveKeys, numSteps, step)
    requires k0 < c.numKeys && k1 < c.numKeys && k2 < c.numKeys
    ensures r == [KeyAtStep(c, keys, radius, keySteps, numCurveKeys, numSteps, step, k0),
                  KeyAtStep(c, keys, radius, keySteps, numCurveKeys, numSteps, step, k1),
                  KeyAtStep(c, keys, radius, keySteps, numCurveKeys, numSteps, step, k2),
                  KeyAtStep(c, keys, radius, keySteps, numCurveKeys, numSteps, step, ClampKey(c, k3))]
  {
    var k3 := ClampKey(c, k3);
    var center := (numSteps - 1) / 2;
    if step == center then
      [Key4(keys[c.firstKey + k0], radius[c.firstKey + k0]), Key4(keys[c.firstKey + k1], radius[c.firstKey + k1]),
       Key4(keys[c.firstKey + k2], radius[c.firstKey + k2]), Key4(keys[c.firstKey + k3], radius[c.firstKey + k3])]
    else
      var s := if step > center then step - 1 else step;
      var offset := c.firstKey + s * numCurveKeys;
      StepOffset(c, numCurveKeys, numSteps, step, k0, s);
      StepOffset(c, numCurveKeys, numSteps, step, k1, s);
      StepOffset(c, numCurveKeys, numSteps, step, k2, s);
      StepOffset(c, numCurveKeys, numSteps, step, k3, s);
      [Key4(keySteps[offset + k0], radius[c.firstKey + k0]), Key4(keySteps[offset + k1], radius[c.firstKey + k1]),
       Key4(keySteps[offset + k2], radius[c.firstKey + k2]), Key4(keySteps[offset + k3], radius[c.firstKey + k3])]
  }

  /** The four control points Hair::Curve::bounds_grow reads for segment
      `k`: the segment's two keys and their neighbours, a missing
      neighbour replaced by the end key it would lie beyond. */
  function BoundsKeys(c: Curve, k: nat): (r: seq<nat>)
    requires k + 1 < c.numKeys
    ensures |r| == 4 && r[1] == c.firstKey + k && r[2] == c.firstKey + k + 1
    ensures r[0] == (if k > 0 then c.firstKey + k - 1 else c.firstKey)
    ensures r[3] == (if k + 2 < c.numKeys then c.firstKey + k + 2 else c.firstKey + c.numKeys - 1)
    ensures forall j | 0 <= j < 4 :: c.firstKey <= r[j] < c.firstKey + c.numKeys
    ensures r[0] <= r[1] < r[2] <= r[3]
  {
    var first := c.firstKey;
    [Max(first + k - 1, first), first + k, first + k + 1, Min(first + k + 2, first + c.numKeys - 1)]
  }

  function Max(a: int, b: int): int { if a < b then b else a }
  function Min(a: int, b: int): int { if a < b then a else b }

  // ---------------------------------------------------------------------
  // Curves of a hair

  /** The first keys of the curves increase strictly and lie in the key
      array, so every curve has at least one key. */
  predicate ValidFirstKeys(first: seq<int>, numKeys: nat)
  {
    (forall i | 0 <= i < |first| - 1 :: first[i] < first[i + 1]) &&
    (|first| > 0 ==> 0 <= first[0] && first[|first| - 1] < numKeys)
  }

  /** Where curve `i` ends: the next curve's first key, or the end of the
      key array after the last curve. */
  function CurveEnd(first: seq<int>, numKeys: nat, i: nat): int
    requires i < |first|
  {
    if i + 1 < |first| then first[i + 1] else numKeys
  }

  /** Each curve has at least one key, so first keys grow at least by
      the number of curves between them. */
  lemma {:induction false} FirstKeysIncrease(first: seq<int>, numKeys: nat, i: nat, j: nat)
    requires ValidFirstKeys(first, numKeys) && i <= j < |first|
    ensures first[j] - first[i] >= j - i
    decreases j - i
  {
    if i < j {
      FirstKeysIncrease(first, numKeys, i + 1, j);
    }
  }

  /** Curve `i` starts in the key array and ends no later than its end. */
  lemma CurveWithinKeys(first: seq<int>, numKeys: nat, i: nat)
    requires ValidFirstKeys(first, numKeys) && i < |first|
    ensures 0 <= first[i] < CurveEnd(first, numKeys, i) <= numKeys
  {
    FirstKeysIncrease(first, numKeys, 0, i);
    FirstKeysIncrease(first, numKeys, i, |first| - 1);
    if i + 1 < |first| {
      FirstKeysIncrease(first, numKeys, i + 1, |first| - 1);
    }
  }

  /** Hair::get_curve (hair.h): curve `i` runs from its first key to where
      it ends. */
  function CurveOf(first: seq<int>, numKeys: nat, i: nat): (r: Curve)
    requires ValidFirstKeys(first, numKeys) && i < |first|
    ensures r.numKeys >= 1 && r.firstKey == first[i] && r.firstKey + r.numKeys == CurveEnd(first, numKeys, i)
    ensures r.firstKey + r.numKeys <= numKeys
  {
    CurveWithinKeys(first, numKeys, i);
    Curve(first[i], CurveEnd(first, numKeys, i) - first[i])
  }

  /** The number of segments of the first `n` curves. */
  function SegmentsBefore(first: seq<int>, numKeys: nat, n: nat): int
    requires ValidFirstKeys(first, numKeys) && n <= |first|
  {
    if n == 0 then 0 else SegmentsBefore(first, numKeys, n - 1) + CurveOf(first, numKeys, n - 1).NumSegments()
  }

  /** The segments of the first `n` curves are the keys they cover less
      one per curve. */
  lemma {:induction false} SegmentsBeforeCount(first: seq<int>, numKeys: nat, n: nat)
    requires ValidFirstKeys(first, numKeys) && 0 < n <= |first|
    ensures SegmentsBefore(first, numKeys, n) == CurveEnd(first, numKeys, n - 1) - first[0] - n
  {
    if n > 1 {
      SegmentsBeforeCount(first, numKeys, n - 1);
    }
  }

  /** All curves together have one segment less per curve than keys. */
  function TotalSegments(first: seq<int>, numKeys: nat): int
    requires ValidFirstKeys(first, numKeys)
  {
    if |first| == 0 then 0 else numKeys - first[0] - |first|
  }

  lemma TotalSegmentsIsSum(first: seq<int>, numKeys: nat)
    requires ValidFirstKeys(first, numKeys)
    ensures SegmentsBefore(first, numKeys, |first|) == TotalSegments(first, numKeys) >= 0
  {
    if |first| > 0 {
      SegmentsBeforeCount(first, numKeys, |first|);
      SegmentsNonNegative(first, numKeys, |first|);
    }
  }

  lemma {:induction false} SegmentsNonNegative(first: seq<int>, numKeys: nat, n: nat)
    requires ValidFirstKeys(first, numKeys) && n <= |first|
    ensures SegmentsBefore(first, numKeys, n) >= 0
  {
    if n > 0 {
      SegmentsNonNegative(first, numKeys, n - 1);
    }
  }

  /** The number of keys of the first `n` curves. */
  function KeysBefore(first: seq<int>, numKeys: nat, n: nat): int
    requires ValidFirstKeys(first, numKeys) && n <= |first|
  {
    if n == 0 then 0 else KeysBefore(first, numKeys, n - 1) + CurveOf(first, numKeys, n - 1).numKeys
  }

  /** The curves together hold every key from the first curve's first key
      on, one more than they have segments each. */
  lemma {:induction false} KeysBeforeCount(first: seq<int>, numKeys: nat, n: nat)
    requires ValidFirstKeys(first, numKeys) && n <= |first|
    ensures KeysBefore(first, numKeys, n) == SegmentsBefore(first, numKeys, n) + n
    ensures n > 0 ==> KeysBefore(first, numKeys, n) == CurveEnd(first, numKeys, n - 1) - first[0]
    ensures n == |first| ==> KeysBefore(first, numKeys, n) == KeysCovered(first, numKeys)
  {
    if n > 0 {
      KeysBeforeCount(first, numKeys, n - 1);
    }
  }

  /** No two segments share a slot. */
  lemma SegmentSlotsDistinct(first: seq<int>, numKeys: nat, i: nat, k: nat, i': nat, k': nat)
    requires ValidFirstKeys(first, numKeys) && i < |first| && i' < |first|
    requires k < CurveOf(first, numKeys, i).NumSegments() && k' < CurveOf(first, numKeys, i').NumSegments()
    requires (i, k) != (i', k')
    ensures SegmentSlot(first, i, k) != SegmentSlot(first, i', k')
  {
    if i < i' {
      FirstKeysIncrease(first, numKeys, i + 1, i');
    } else if i' < i {
      FirstKeysIncrease(first, numKeys, i' + 1, i);
    }
  }

  /** No two keys share a shader input. */
  lemma KeySlotsDistinct(first: seq<int>, numKeys: nat, i: nat, j: nat, i': nat, j': nat)
    requires ValidFirstKeys(first, numKeys) && i < |first| && i' < |first|
    requires j < CurveOf(first, numKeys, i).numKeys && j' < CurveOf(first, numKeys, i').numKeys
    requires (i, j) != (i', j')
    ensures KeySlot(first, i, j) != KeySlot(first, i', j')
  {
    if i < i' {
      FirstKeysIncrease(first, numKeys, i + 1, i');
    } else if i' < i {
      FirstKeysIncrease(first, numKeys, i' + 1, i);
    }
  }

  // ---------------------------------------------------------------------
  // Kernel data

  /** Where segment `k` of curve `i` is packed: after the segments of the
      curves before it. */
  function SegmentSlot(first: seq<int>, i: nat, k: int): int
    requires i < |first|
  {
    first[i] - first[0] - i + k
  }

  datatype CurveShape = CurveRibbon | CurveThick

  datatype PrimitiveType = PrimitiveCurveRibbon | PrimitiveCurveThick
                         | PrimitiveMotionCurveRibbon | PrimitiveMotionCurveThick

  /** Hair::primitive_type: motion blur and shape each decide one half of
      the type. */
  function PrimitiveTypeOf(motionBlur: bool, shape: CurveShape): (r: PrimitiveType)
    ensures (r.PrimitiveMotionCurveRibbon? || r.PrimitiveMotionCurveThick?) <==> motionBlur
    ensures (r.PrimitiveCurveRibbon? || r.PrimitiveMotionCurveRibbon?) <==> shape == CurveRibbon
  {
    if motionBlur then
      (if shape == CurveRibbon then PrimitiveMotionCurveRibbon else PrimitiveMotionCurveThick)
    else
      (if shape == CurveRibbon then PrimitiveCurveRibbon else PrimitiveCurveThick)
  }

  /** KernelCurve. */
  datatype KernelCurve = KernelCurve(shaderId: int, firstKey: int, numKeys: int, primType: PrimitiveType)

  /** KernelCurveSegment; PRIMITIVE_PACK_SEGMENT packs the primitive type
      and the segment number into one field, kept here as the pair. */
  datatype KernelSegment = KernelSegment(prim: int, primType: PrimitiveType, segment: int)

  /** KernelShaderEvalInput for a curve key: `u` is 1 at the last key and 0
      elsewhere; `segment` is the integer the kernel receives in `v`. */
  datatype EvalInput = EvalInput(objectIndex: int, prim: int, u: real, segment: int)

  /** Where the shader input of key `j` of curve `i` goes: the key's
      index counted from the first curve's first key. */
  function KeySlot(first: seq<int>, i: nat, j: int): int
    requires i < |first|
  {
    first[i] - first[0] + j
  }

  /** How many keys the curves cover: all keys from the first curve's
      first key on. */
  function KeysCovered(first: seq<int>, numKeys: nat): int
  {
    if |first| == 0 then 0 else numKeys - first[0]
  }

  /** A shader that makes shadows of hair transparent. */
  predicate CastsTransparentShadow(s: Shader)
    reads s
  {
    HasSurfaceTransparent in s.caps && s.useTransparentShadow
  }

  /** read_shader_output: copies every value and reports the hair fully
      opaque when no value is above zero. */
  method ReadShaderOutput(shadowTransparency: array<real>, output: seq<real>) returns (isFullyOpaque: bool)
    requires shadowTransparency.Length >= |output|
    modifies shadowTransparency
    ensures shadowTransparency[..|output|] == output
    ensures shadowTransparency[|output|..] == old(shadowTransparency[|output|..])
    ensures isFullyOpaque <==> forall i | 0 <= i < |output| :: !(output[i] > 0.0)
  {
    var isOpaque := true;
    for i := 0 to |output|
      invariant shadowTransparency[..i] == output[..i]
      invariant shadowTransparency[|output|..] == old(shadowTransparency[|output|..])
      invariant isOpaque <==> forall i' | 0 <= i' < i :: !(output[i'] > 0.0)
    {
      shadowTransparency[i] := output[i];
      if shadowTransparency[i] > 0.0 {
        isOpaque := false;
      }
    }
    isFullyOpaque := isOpaque;
  }

  /** fill_shader_input: one input per key of every curve, the inputs of
      the curves one after the other; returns how many it wrote, which is
      the number of keys the curves cover. */
  method FillShaderInput(hair: Hair, objectIndex: int, dInput: array<EvalInput>) returns (size: int)
    requires hair.Valid() && dInput.Length >= KeysCovered(hair.curveFirstKey, |hair.curveKeys|)
    modifies dInput
    ensures size == KeysCovered(hair.curveFirstKey, |hair.curveKeys|)
    ensures hair.InputsFilled(dInput, objectIndex, |hair.curveFirstKey|, size)
  {
    size := 0;
    var numCurves := |hair.curveFirstKey|;
    for i := 0 to numCurves
      invariant i < numCurves ==> size == KeySlot(hair.curveFirstKey, i, 0)
      invariant i == numCurves ==> size == KeysCovered(hair.curveFirstKey, |hair.curveKeys|)
      invariant hair.InputsFilled(dInput, objectIndex, i, size)
    {
      size := hair.FillCurveInputs(objectIndex, i, size, dInput);
    }
  }

  class Hair {
    var curveKeys: seq<Point>
    var curveRadius: seq<real>
    var curveFirstKey: seq<int>
    var curveShader: seq<int>
    var curveKeyOffset: nat
    var primOffset: nat
    var curveShape: CurveShape
    /** has_motion_blur() */
    var motionBlur: bool
    var usedShaders: seq<Shader>
    /** The shadow transparency attribute, when the hair has one. */
    var shadowTransparency: Option<seq<real>>

    predicate Valid()
      reads this
    {
      |curveRadius| == |curveKeys| && |curveShader| == |curveFirstKey| &&
      ValidFirstKeys(curveFirstKey, |curveKeys|)
    }

    /** The shader of curve `i`: its used shader, or the default surface
        when its index is not one. */
    function CurveShaderOf(i: nat, defaultSurface: Shader): (r: Shader)
      reads this
      requires i < |curveShader|
      ensures 0 <= curveShader[i] < |usedShaders| ==> r == usedShaders[curveShader[i]]
      ensures !(0 <= curveShader[i] < |usedShaders|) ==> r == defaultSurface
    {
      var shaderIndex := curveShader[i];
      // the int index is compared with an unsigned size, so a negative one is out of range
      if 0 <= shaderIndex < |usedShaders| then usedShaders[shaderIndex] else defaultSurface
    }

    /** The first loop of Hair::pack_curves: a float4 per key. */
    method PackKeys(curveKeyCo: array<Key4>)
      requires Valid() && curveKeyCo.Length >= |curveKeys|
      modifies curveKeyCo
      ensures forall i | 0 <= i < |curveKeys| :: curveKeyCo[i] == Key4(curveKeys[i], curveRadius[i])
      ensures forall i | |curveKeys| <= i < curveKeyCo.Length :: curveKeyCo[i] == old(curveKeyCo[i])
    {
      for i := 0 to |curveKeys|
        invariant forall j | 0 <= j < i :: curveKeyCo[j] == Key4(curveKeys[j], curveRadius[j])
        invariant forall j | i <= j < curveKeyCo.Length :: curveKeyCo[j] == old(curveKeyCo[j])
      {
        curveKeyCo[i] := Key4(curveKeys[i], curveRadius[i]);
      }
    }

    /** The segments of curve `i`, written from position `index`. */
    method PackSegments(segments: array<KernelSegment>, i: nat, primType: PrimitiveType, index: nat, numSegments: nat)
      requires index + numSegments <= segments.Length
      modifies segments
      ensures forall e | index <= e < index + numSegments :: segments[e] == KernelSegment(primOffset + i, primType, e - index)
      ensures forall e | 0 <= e < segments.Length && !(index <= e < index + numSegments) :: segments[e] == old(segments[e])
    {
      for k := 0 to numSegments
        invariant forall e | index <= e < index + k :: segments[e] == KernelSegment(primOffset + i, primType, e - index)
        invariant forall e | 0 <= e < segments.Length && !(index <= e < index + k) :: segments[e] == old(segments[e])
      {
        segments[index + k] := KernelSegment(primOffset + i, primType, k);
      }
    }

    /** The KernelCurve of curve `i`: its shader's id (`shaderId` stands
        for the shader manager's get_shader_id), its first key moved by the
        hair's key offset, its number of keys and the primitive type. */
    function CurveRecord(i: nat, defaultSurface: Shader, shaderId: Shader -> int, primType: PrimitiveType): KernelCurve
      reads this
      requires Valid() && i < |curveFirstKey|
    {
      var c := CurveOf(curveFirstKey, |curveKeys|, i);
      KernelCurve(shaderId(CurveShaderOf(i, defaultSurface)), curveKeyOffset + c.firstKey, c.numKeys, primType)
    }

    /** The first `n` curves are packed. */
    ghost predicate CurvesPacked(curves: array<KernelCurve>, n: nat, defaultSurface: Shader, shaderId: Shader -> int,
                                 primType: PrimitiveType)
      reads this, curves
      requires Valid() && n <= |curveFirstKey| <= curves.Length
    {
      forall i | 0 <= i < n :: curves[i] == CurveRecord(i, defaultSurface, shaderId, primType)
    }

    /** The segments of the first `n` curves are packed, each segment at
        its slot, all slots below `bound`. */
    ghost predicate SegmentsPacked(segments: array<KernelSegment>, n: nat, primType: PrimitiveType, bound: int)
      reads this, segments
      requires Valid() && n <= |curveFirstKey|
    {
      bound <= segments.Length &&
      forall i, k | 0 <= i < n && 0 <= k < CurveOf(curveFirstKey, |curveKeys|, i).NumSegments() ::
        0 <= SegmentSlot(curveFirstKey, i, k) < bound &&
        segments[SegmentSlot(curveFirstKey, i, k)] == KernelSegment(primOffset + i, primType, k)
    }

    /** The curve half of a round of the curve loop of Hair::pack_curves. */
    method PackCurveRecord(i: nat, defaultSurface: Shader, shaderId: Shader -> int, primType: PrimitiveType,
                           curves: array<KernelCurve>)
      requires Valid() && i < |curveFirstKey| <= curves.Length
      requires CurvesPacked(curves, i, defaultSurface, shaderId, primType)
      modifies curves
      ensures CurvesPacked(curves, i + 1, defaultSurface, shaderId, primType)
    {
      var curve := CurveOf(curveFirstKey, |curveKeys|, i);
      var shader := CurveShaderOf(i, defaultSurface);
      curves[i] := KernelCurve(shaderId(shader), curveKeyOffset + curve.firstKey, curve.numKeys, primType);
    }

    /** The segment half of a round of the curve loop: the segments of
        curve `i` start where those of the curves before it end. */
    method PackCurveSegments(i: nat, index: int, primType: PrimitiveType, segments: array<KernelSegment>)
      returns (next: int)
      requires Valid() && i < |curveFirstKey|
      requires segments.Length >= TotalSegments(curveFirstKey, |curveKeys|)
      requires index == SegmentsBefore(curveFirstKey, |curveKeys|, i) && SegmentsPacked(segments, i, primType, index)
      modifies segments
      ensures next == SegmentsBefore(curveFirstKey, |curveKeys|, i + 1) && 0 <= index <= next
      ensures SegmentsPacked(segments, i + 1, primType, next)
      ensures forall e | next <= e < segments.Length :: segments[e] == old(segments[e])
    {
      SegmentsOfCurve(i);
      var curve := CurveOf(curveFirstKey, |curveKeys|, i);
      PackSegments(segments, i, primType, index, curve.NumSegments());
      next := index + curve.NumSegments();
      forall i', k | 0 <= i' < i + 1 && 0 <= k < CurveOf(curveFirstKey, |curveKeys|, i').NumSegments()
        ensures 0 <= SegmentSlot(curveFirstKey, i', k) < next
        ensures segments[SegmentSlot(curveFirstKey, i', k)] == KernelSegment(primOffset + i', primType, k)
      {
        if i' < i {
          assert old(segments[SegmentSlot(curveFirstKey, i', k)]) == KernelSegment(primOffset + i', primType, k);
        } else {
          assert SegmentSlot(curveFirstKey, i', k) == index + k;
        }
      }
    }

    /** Hair::pack_curves: a float4 per key, a KernelCurve per curve, and a
        KernelSegment per segment, the segments of the curves one after the
        other and nothing written past them. */
    method PackCurves(defaultSurface: Shader, shaderId: Shader -> int, curveKeyCo: array<Key4>,
                      curves: array<KernelCurve>, segments: array<KernelSegment>)
      requires Valid()
      requires curveKeyCo.Length >= |curveKeys| && curves.Length >= |curveFirstKey|
      requires segments.Length >= TotalSegments(curveFirstKey, |curveKeys|)
      modifies curveKeyCo, curves, segments
      ensures forall i | 0 <= i < |curveKeys| :: curveKeyCo[i] == Key4(curveKeys[i], curveRadius[i])
      ensures CurvesPacked(curves, |curveFirstKey|, defaultSurface, shaderId, PrimitiveTypeOf(motionBlur, curveShape))
      ensures SegmentsPacked(segments, |curveFirstKey|, PrimitiveTypeOf(motionBlur, curveShape),
                             TotalSegments(curveFirstKey, |curveKeys|))
      ensures forall e | 0 <= TotalSegments(curveFirstKey, |curveKeys|) <= e < segments.Length :: segments[e] == old(segments[e])
    {
      PackKeys(curveKeyCo);
      var primType := if motionBlur then
                        (if curveShape == CurveRibbon then PrimitiveMotionCurveRibbon else PrimitiveMotionCurveThick)
                      else
                        (if curveShape == CurveRibbon then PrimitiveCurveRibbon else PrimitiveCurveThick);
      var numCurves := |curveFirstKey|;
      var index := 0;
      TotalSegmentsIsSum(curveFirstKey, |curveKeys|);
      for i := 0 to numCurves
        invariant 0 <= index && index == SegmentsBefore(curveFirstKey, |curveKeys|, i)
        invariant CurvesPacked(curves, i, defaultSurface, shaderId, primType)
        invariant SegmentsPacked(segments, i, primType, index)
        invariant forall e | index <= e < segments.Length :: segments[e] == old(segments[e])
        invariant forall i | 0 <= i < |curveKeys| :: curveKeyCo[i] == Key4(curveKeys[i], curveRadius[i])
      {
        PackCurveRecord(i, defaultSurface, shaderId, primType, curves);
        index := PackCurveSegments(i, index, primType, segments);
      }
    }

    /** The segments of curve `i` start at its slot 0, after those of the
        curves before it, and end inside the segment array. */
    lemma SegmentsOfCurve(i: nat)
      requires Valid() && i < |curveFirstKey|
      ensures 0 <= SegmentsBefore(curveFirstKey, |curveKeys|, i) == SegmentSlot(curveFirstKey, i, 0)
      ensures SegmentsBefore(curveFirstKey, |curveKeys|, i + 1) ==
              SegmentsBefore(curveFirstKey, |curveKeys|, i) + CurveOf(curveFirstKey, |curveKeys|, i).NumSegments()
      ensures SegmentsBefore(curveFirstKey, |curveKeys|, i + 1) <= TotalSegments(curveFirstKey, |curveKeys|)
    {
      SegmentsNonNegative(curveFirstKey, |curveKeys|, i);
      SegmentsPrefix(i + 1);
      if i > 0 {
        SegmentsBeforeCount(curveFirstKey, |curveKeys|, i);
      }
    }

    /** The segments of the first `n` curves fit the segment array. */
    lemma SegmentsPrefix(n: nat)
      requires Valid() && 0 < n <= |curveFirstKey|
      ensures SegmentsBefore(curveFirstKey, |curveKeys|, n) <= TotalSegments(curveFirstKey, |curveKeys|)
    {
      SegmentsBeforeCount(curveFirstKey, |curveKeys|, n);
      SegmentsBeforeCount(curveFirstKey, |curveKeys|, |curveFirstKey|);
      if n < |curveFirstKey| {
        FirstKeysIncrease(curveFirstKey, |curveKeys|, n, |curveFirstKey| - 1);
        CurveWithinKeys(curveFirstKey, |curveKeys|, |curveFirstKey| - 1);
      }
    }

    /** The shader input for key `j` of curve `i`: u is 1 at the curve's
        last key and 0 before it, and the segment is the one the key
        starts, or ends for the last key. */
    function InputFor(objectIndex: int, i: nat, j: nat): (r: EvalInput)
      reads this
      requires Valid() && i < |curveFirstKey| && j < CurveOf(curveFirstKey, |curveKeys|, i).numKeys
      ensures r.prim == primOffset + i && r.objectIndex == objectIndex
      ensures (r.u == 1.0) <==> j == CurveOf(curveFirstKey, |curveKeys|, i).numKeys - 1
      ensures r.u == 0.0 || r.u == 1.0
      ensures r.segment == Min(j, CurveOf(curveFirstKey, |curveKeys|, i).NumSegments() - 1)
    {
      var numSegments := CurveOf(curveFirstKey, |curveKeys|, i).NumSegments();
      EvalInput(objectIndex, primOffset + i, if j < numSegments then 0.0 else 1.0, if j < numSegments then j else j - 1)
    }

    /** The shader inputs of the keys of the first `n` curves are filled,
        the input of a key at the key's place counted from the first
        curve's first key, all places below `bound`. */
    ghost predicate InputsFilled(dInput: array<EvalInput>, objectIndex: int, n: nat, bound: int)
      reads this, dInput
      requires Valid() && n <= |curveFirstKey|
    {
      bound <= dInput.Length &&
      forall i, j | 0 <= i < n && 0 <= j < CurveOf(curveFirstKey, |curveKeys|, i).numKeys ::
        0 <= KeySlot(curveFirstKey, i, j) < bound && dInput[KeySlot(curveFirstKey, i, j)] == InputFor(objectIndex, i, j)
    }

    /** The inner loop of fill_shader_input for curve `i`. */
    method FillCurveInputs(objectIndex: int, i: nat, index: int, dInput: array<EvalInput>) returns (next: int)
      requires Valid() && i < |curveFirstKey| && dInput.Length >= KeysCovered(curveFirstKey, |curveKeys|)
      requires index == KeySlot(curveFirstKey, i, 0) && InputsFilled(dInput, objectIndex, i, index)
      modifies dInput
      ensures next == CurveEnd(curveFirstKey, |curveKeys|, i) - curveFirstKey[0] && 0 <= index < next
      ensures InputsFilled(dInput, objectIndex, i + 1, next)
    {
      CurveWithinKeys(curveFirstKey, |curveKeys|, i);
      FirstKeysIncrease(curveFirstKey, |curveKeys|, 0, i);
      var numSegments := CurveOf(curveFirstKey, |curveKeys|, i).NumSegments();
      next := index;
      for j := 0 to numSegments + 1
        invariant next == index + j
        invariant InputsFilled(dInput, objectIndex, i, index)
        invariant forall j' | 0 <= j' < j :: dInput[KeySlot(curveFirstKey, i, j')] == InputFor(objectIndex, i, j')
      {
        dInput[next] := EvalInput(objectIndex, primOffset + i, if j < numSegments then 0.0 else 1.0,
                                  if j < numSegments then j else j - 1);
        next := next + 1;
      }
    }

    /** Whether a shader of the hair makes shadows transparent. */
    ghost predicate AnyTransparentShadow()
      reads this`usedShaders, usedShaders
    {
      exists i | 0 <= i < |usedShaders| :: CastsTransparentShadow(usedShaders[i])
    }

    /** Hair::need_shadow_transparency. */
    method NeedShadowTransparency() returns (r: bool)
      ensures r <==> AnyTransparentShadow()
    {
      for i := 0 to |usedShaders|
        invariant forall i' | 0 <= i' < i :: !CastsTransparentShadow(usedShaders[i'])
      {
        var shader := usedShaders[i];
        if HasSurfaceTransparent in shader.caps && shader.useTransparentShadow {
          return true;
        }
      }
      return false;
    }

    /** Hair::update_shadow_transparency as intended, given what the
        shader evaluation yields per key (`output`): the attribute is kept,
        with those values, exactly when some shader makes shadows
        transparent and some key is not fully opaque, and the result says
        whether the attribute existed before or exists now. */
    method UpdateShadowTransparency(output: seq<real>) returns (changed: bool)
      requires Valid() && |output| == |curveKeys|
      modifies this`shadowTransparency
      ensures shadowTransparency.Some? <==> AnyTransparentShadow() && exists i | 0 <= i < |output| :: output[i] > 0.0
      ensures shadowTransparency.Some? ==> shadowTransparency.value == output
      ensures changed <==> old(shadowTransparency).Some? || shadowTransparency.Some?
    {
      var need := NeedShadowTransparency();
      if !need {
        if shadowTransparency.Some? {
          shadowTransparency := None;
          return true;
        } else {
          return false;
        }
      }
      var attributeExists := shadowTransparency.Some?;
      var data := new real[|curveKeys|];
      var isFullyOpaque := ReadShaderOutput(data, output);
      if isFullyOpaque {
        shadowTransparency := None;
        return attributeExists;
      }
      assert data[..] == data[..|output|];
      assert exists i | 0 <= i < |output| :: output[i] > 0.0;
      shadowTransparency := Some(data[..]);
      return true;
    }

    /** Hair::update_shadow_transparency as written. The opacity flag is
        handed to read_shader_output through function_bind, which stores a
        copy of it: the reader sets the copy, the caller's flag stays false,
        and its test never removes the attribute. */
    method UpdateShadowTransparencyAsWritten(output: seq<real>) returns (changed: bool)
      requires Valid() && |output| == |curveKeys|
      modifies this`shadowTransparency
      ensures shadowTransparency.Some? <==> AnyTransparentShadow()
      ensures shadowTransparency.Some? ==> shadowTransparency.value == output
      ensures changed <==> old(shadowTransparency).Some? || shadowTransparency.Some?
    {
      var need := NeedShadowTransparency();
      if !need {
        if shadowTransparency.Some? {
          shadowTransparency := None;
          return true;
        } else {
          return false;
        }
      }
      var data := new real[|curveKeys|];
      // the flag the reader sets belongs to the bound copy
      var boundFlag := ReadShaderOutput(data, output);
      assert data[..] == data[..|output|];
      shadowTransparency := Some(data[..]);
      return true;
    }
  }
  /** Hair whose shaders cast transparent shadows but whose every key
      evaluates to zero transparency: the code as written keeps an
      all-opaque attribute and reports a change, where the intended update
      drops the attribute and reports only whether it existed. */
  method OpaqueHairKeepsAttribute(h: Hair, output: seq<real>)
    returns (asWritten: bool, kept: Option<seq<real>>, intended: bool)
    requires h.Valid() && h.AnyTransparentShadow() && |output| == |h.curveKeys|
    requires forall i | 0 <= i < |output| :: output[i] == 0.0
    modifies h
    ensures asWritten && kept == Some(output)
    ensures intended == old(h.shadowTransparency).Some? && h.shadowTransparency.None?
  {
    var before := h.shadowTransparency;
    asWritten := h.UpdateShadowTransparencyAsWritten(output);
    kept := h.shadowTransparency;
    h.shadowTransparency := before;
    intended := h.UpdateShadowTransparency(output);
  }
}
