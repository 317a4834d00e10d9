/** Marker aggregation: the id shift `publishMarker` applies to each live
    observer's markers, and the id blocks it produces. */
module MarkerIds {
  import opened ModuleTypes
  import opened ObserverList

  /** `std::numeric_limits<uint8_t>::max()`: the width of one id block. */
  const MARKER_OFFSET: nat := 255

  /** Reduction of an integer to `uint32_t`, as unsigned arithmetic does. */
  function Wrap32(x: int): uint32
  {
    (x % TWO_POW_32) as uint32
  }

  /** Conversion of a `uint32_t` back to `int32_t` (two's complement). */
  function ToInt32(u: uint32): int32
  {
    if u < 0x8000_0000 then u as int as int32 else (u as int - TWO_POW_32) as int32
  }

  /** `marker.id += marker_id`: the `int32_t` id is converted to unsigned,
      added modulo 2^32, and converted back. */
  function ShiftId(id: int32, offset: uint32): (r: int32)
    ensures (r as int - (id as int + offset as int)) % TWO_POW_32 == 0
  {
    var x := id as int + offset as int;
    WrapCongruent(x);
    ModShift(Wrap32(x) as int - x, -1);
    ToInt32(Wrap32(x))
  }

  /** Reduction to `uint32_t` changes a value by a multiple of 2^32. */
  lemma WrapCongruent(x: int)
    ensures (Wrap32(x) as int - x) % TWO_POW_32 == 0
  {
    var q := x / TWO_POW_32;
    assert Wrap32(x) as int - x == -q * TWO_POW_32;
    ModShift(0, -q);
  }

  /** The value of `marker_id` while the k-th live observer (k from 1) is
      visited: it starts at 255 and grows by 255, wrapping as a `uint32_t`. */
  function Offset(k: nat): (r: uint32)
    ensures (r as int - MARKER_OFFSET * k) % TWO_POW_32 == 0
  {
    WrapCongruent(MARKER_OFFSET * k);
    Wrap32(MARKER_OFFSET * k)
  }

  /** The copies of `ms` whose ids are shifted by `offset`. */
  function Shift(ms: seq<Marker>, offset: uint32): seq<Marker>
  {
    seq(|ms|, i requires 0 <= i < |ms| => ms[i].(id := ShiftId(ms[i].id, offset)))
  }

  /** The markers of kind `kind` contributed by the k-th live observer. */
  function Block(m: SceneModule, kind: MarkerKind, k: nat): seq<Marker>
  {
    Shift(MarkersOf(m, kind), Offset(k))
  }

  ghost predicate InModules(L: seq<Handle>, modules: map<Handle, SceneModule>)
  {
    forall i :: 0 <= i < |L| ==> L[i] in modules
  }

  /** The live observers' markers of one kind, concatenated in list order
      with their ids untouched: what the batch is before shifting. */
  function Unshifted(L: seq<Handle>, modules: map<Handle, SceneModule>, kind: MarkerKind): seq<Marker>
    requires InModules(L, modules)
  {
    if L == [] then [] else MarkersOf(modules[L[0]], kind) + Unshifted(L[1..], modules, kind)
  }

  /** The batch built from the live observers `L`, the first of which is the
      k-th live observer of the list. */
  function Batch(L: seq<Handle>, modules: map<Handle, SceneModule>, kind: MarkerKind, k: nat): (r: seq<Marker>)
    requires InModules(L, modules)
    ensures |r| == |Unshifted(L, modules, kind)|
    ensures forall p :: 0 <= p < |r| ==> r[p].shape == Unshifted(L, modules, kind)[p].shape
  {
    if L == [] then [] else Block(modules[L[0]], kind, k) + Batch(L[1..], modules, kind, k + 1)
  }

  /** One published marker array of `publishMarker`: the live observers'
      shifted blocks, then the idle probe's markers unshifted, but only when
      the observer list is empty and the probe exists. */
  function Published(obs: seq<Handle>, live: set<Handle>, modules: map<Handle, SceneModule>,
                     idle: Option<SceneModule>, kind: MarkerKind): (r: seq<Marker>)
    requires live <= modules.Keys
    ensures |obs| == 0 && idle.Some? ==> r == MarkersOf(idle.value, kind)
    ensures |obs| != 0 || idle.None? ==>
      InModules(Live(obs, live), modules) && |r| == |Unshifted(Live(obs, live), modules, kind)|
  {
    Batch(Live(obs, live), modules, kind, 1) + (if |obs| == 0 && idle.Some? then MarkersOf(idle.value, kind) else [])
  }

  lemma LiveInModules(obs: seq<Handle>, live: set<Handle>, modules: map<Handle, SceneModule>)
    requires live <= modules.Keys
    ensures InModules(Live(obs, live), modules)
  {
    var L := Live(obs, live);
    forall i | 0 <= i < |L| ensures L[i] in modules {
      assert L[i] in L;
    }
  }

  /** One step of the `publishMarker` loop at a live entry: it contributes
      its block and consumes an offset. */
  lemma BatchStepLive(obs: seq<Handle>, i: nat, live: set<Handle>, modules: map<Handle, SceneModule>, k: nat)
    requires live <= modules.Keys && i < |obs| && obs[i] in live
    ensures InModules(Live(obs[i..], live), modules) && InModules(Live(obs[i + 1..], live), modules)
    ensures Live(obs[i..], live) != [] && Live(obs[i..], live)[0] == obs[i]
    ensures forall kind ::
      Batch(Live(obs[i..], live), modules, kind, k) ==
        Block(modules[obs[i]], kind, k) + Batch(Live(obs[i + 1..], live), modules, kind, k + 1)
  {
    LiveInModules(obs[i..], live, modules);
    LiveInModules(obs[i + 1..], live, modules);
    assert obs[i..][1..] == obs[i + 1..];
    var L := Live(obs[i..], live);
    assert L == [obs[i]] + Live(obs[i + 1..], live);
    assert L[1..] == Live(obs[i + 1..], live);
  }

  /** One step of the `publishMarker` loop at an expired entry: it
      contributes nothing and consumes no offset. */
  lemma BatchStepExpired(obs: seq<Handle>, i: nat, live: set<Handle>, modules: map<Handle, SceneModule>)
    requires live <= modules.Keys && i < |obs| && obs[i] !in live
    ensures InModules(Live(obs[i + 1..], live), modules)
    ensures Live(obs[i..], live) == Live(obs[i + 1..], live)
  {
    LiveInModules(obs[i + 1..], live, modules);
    assert obs[i..][1..] == obs[i + 1..];
  }

  /** While no wrap-around can happen, the shift is plain addition. */
  lemma ShiftIdExact(id: int32, offset: uint32)
    requires id as int + offset as int < 0x8000_0000
    ensures ShiftId(id, offset) as int == id as int + offset as int
  {
    var s := id as int + offset as int;
    if s < 0 {
      assert s % TWO_POW_32 == s + TWO_POW_32;
    } else {
      assert s % TWO_POW_32 == s;
    }
  }

  /** While `255 * k` fits in 32 bits, the k-th offset is exactly `255 * k`. */
  lemma OffsetExact(k: nat)
    requires MARKER_OFFSET * k < TWO_POW_32
    ensures Offset(k) as int == MARKER_OFFSET * k
  {
  }

  /** The running `marker_id += 255` keeps `marker_id == Offset(k)`. */
  lemma OffsetStep(k: nat)
    ensures Wrap32(Offset(k) as int + MARKER_OFFSET) == Offset(k + 1)
  {
    var a := MARKER_OFFSET * k;
    assert MARKER_OFFSET * (k + 1) == a + MARKER_OFFSET;
    var q := a / TWO_POW_32;
    assert a == q * TWO_POW_32 + a % TWO_POW_32;
    assert (a % TWO_POW_32 + MARKER_OFFSET) - (a + MARKER_OFFSET) == -q * TWO_POW_32;
    ModShift(a % TWO_POW_32 + MARKER_OFFSET, q);
  }

  lemma ModShift(x: int, q: int)
    ensures (x + q * TWO_POW_32) % TWO_POW_32 == x % TWO_POW_32
  {
    var r := x % TWO_POW_32;
    assert x == (x / TWO_POW_32) * TWO_POW_32 + r;
    assert x + q * TWO_POW_32 == (x / TWO_POW_32 + q) * TWO_POW_32 + r;
  }

  /** Ids of one instance that lie in [0, 255), the single-byte range the
      offsets are sized for. */
  ghost predicate ByteIds(ms: seq<Marker>)
  {
    forall i :: 0 <= i < |ms| ==> 0 <= ms[i].id < MARKER_OFFSET as int32
  }

  ghost predicate AllByteIds(L: seq<Handle>, modules: map<Handle, SceneModule>, kind: MarkerKind)
    requires InModules(L, modules)
  {
    forall i :: 0 <= i < |L| ==> ByteIds(MarkersOf(modules[L[i]], kind))
  }

  /** The k-th block occupies the ids [255 k, 255 (k + 1)). */
  lemma BlockRange(m: SceneModule, kind: MarkerKind, k: nat)
    requires ByteIds(MarkersOf(m, kind))
    requires MARKER_OFFSET * (k + 1) <= 0x8000_0000
    ensures forall i :: 0 <= i < |Block(m, kind, k)| ==>
      MARKER_OFFSET * k <= Block(m, kind, k)[i].id as int < MARKER_OFFSET * (k + 1)
  {
    OffsetExact(k);
    forall i | 0 <= i < |Block(m, kind, k)|
      ensures MARKER_OFFSET * k <= Block(m, kind, k)[i].id as int < MARKER_OFFSET * (k + 1)
    {
      ShiftIdExact(MarkersOf(m, kind)[i].id, Offset(k));
    }
  }

  /** The index in `L` of the observer that position `p` of the batch comes from. */
  function Origin(L: seq<Handle>, modules: map<Handle, SceneModule>, kind: MarkerKind, k: nat, p: nat): (b: nat)
    requires InModules(L, modules)
    requires p < |Batch(L, modules, kind, k)|
    ensures b < |L|
  {
    var n := |MarkersOf(modules[L[0]], kind)|;
    if p < n then 0 else 1 + Origin(L[1..], modules, kind, k + 1, p - n)
  }

  /** Every marker of the batch lies in the id block of the observer it comes from. */
  lemma {:induction false} BatchIdBlocks(L: seq<Handle>, modules: map<Handle, SceneModule>, kind: MarkerKind, k: nat, p: nat)
    requires InModules(L, modules) && AllByteIds(L, modules, kind)
    requires MARKER_OFFSET * (k + |L|) <= 0x8000_0000
    requires p < |Batch(L, modules, kind, k)|
    ensures var b := Origin(L, modules, kind, k, p);
      MARKER_OFFSET * (k + b) <= Batch(L, modules, kind, k)[p].id as int < MARKER_OFFSET * (k + b + 1)
  {
    var n := |MarkersOf(modules[L[0]], kind)|;
    assert ByteIds(MarkersOf(modules[L[0]], kind));
    if p < n {
      BlockRange(modules[L[0]], kind, k);
      assert Batch(L, modules, kind, k)[p] == Block(modules[L[0]], kind, k)[p];
    } else {
      var tail := L[1..];
      assert AllByteIds(tail, modules, kind) by {
        forall i | 0 <= i < |tail| ensures ByteIds(MarkersOf(modules[tail[i]], kind)) {
          assert tail[i] == L[i + 1];
        }
      }
      BatchIdBlocks(tail, modules, kind, k + 1, p - n);
      assert Batch(L, modules, kind, k)[p] == Batch(tail, modules, kind, k + 1)[p - n];
    }
  }

  /** Markers that come from different observers never share an id, as long
      as every instance keeps its own ids in [0, 255) and the blocks do not
      run past the `int32_t` range. */
  lemma BatchCollisionFree(L: seq<Handle>, modules: map<Handle, SceneModule>, kind: MarkerKind, p: nat, q: nat)
    requires InModules(L, modules) && AllByteIds(L, modules, kind)
    requires MARKER_OFFSET * (1 + |L|) <= 0x8000_0000
    requires p < |Batch(L, modules, kind, 1)| && q < |Batch(L, modules, kind, 1)|
    requires Origin(L, modules, kind, 1, p) != Origin(L, modules, kind, 1, q)
    ensures Batch(L, modules, kind, 1)[p].id != Batch(L, modules, kind, 1)[q].id
  {
    BatchIdBlocks(L, modules, kind, 1, p);
    BatchIdBlocks(L, modules, kind, 1, q);
  }

  /** Without the single-byte restriction the blocks overlap: a first
      observer holding one marker with id 255 and a second holding one marker
      with id 0 both publish id 510. */
  lemma WideIdsCollide(m1: SceneModule, m2: SceneModule, kind: MarkerKind)
    requires |MarkersOf(m1, kind)| == 1 && MarkersOf(m1, kind)[0].id == 255
    requires |MarkersOf(m2, kind)| == 1 && MarkersOf(m2, kind)[0].id == 0
    ensures var modules := map[0 := m1, 1 := m2];
      InModules([0, 1], modules) &&
      |Batch([0, 1], modules, kind, 1)| == 2 &&
      Origin([0, 1], modules, kind, 1, 0) != Origin([0, 1], modules, kind, 1, 1) &&
      Batch([0, 1], modules, kind, 1)[0].id == Batch([0, 1], modules, kind, 1)[1].id == 510
  {
    var modules := map[0 := m1, 1 := m2];
    var L: seq<Handle> := [0, 1];
    assert InModules(L, modules);
    assert L[1..] == [1];
    assert [1][1..] == [];
    OffsetExact(1);
    OffsetExact(2);
    ShiftIdExact(255, Offset(1));
    ShiftIdExact(0, Offset(2));
    var b := Batch(L, modules, kind, 1);
    assert modules[L[0]] == m1 && modules[1] == m2;
    assert Batch([1], modules, kind, 2) == Block(m2, kind, 2) + Batch([], modules, kind, 3);
    assert b == Block(m1, kind, 1) + Batch([1], modules, kind, 2);
    assert b[0] == Block(m1, kind, 1)[0] && b[1] == Block(m2, kind, 2)[0];
    assert Origin(L[1..], modules, kind, 2, 0) == 0;
  }
}
