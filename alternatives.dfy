/** The alternative catalog of the newer generation (`AlternativeParts`): a
    list of stats templates, and a swap that copies one of them into the live
    record and replaces the visual model under the `Visuals` child while
    keeping its highlighter consistent.

    Scene operations the engine performs (destroying a child, instantiating a
    prefab, resetting a local transform) are kept as a log of `SceneEvent`s.
    Unity's `Destroy` is deferred to the end of the frame: a destroyed child is
    still listed among the children until `EndOfFrame` removes it, with the
    renderers under it. */
module Alternatives {
  import opened Common
  import opened Parts
  import opened Highlighting

  datatype SceneEvent =
    | ClearTracker
    | Destroy(child: InstanceId)
    | Instantiate(prefab: PrefabId, instance: InstanceId)
    | ResetLocalTransform(instance: InstanceId)
    | TrackRenderers(instance: InstanceId)

  /** What `Instantiate` yields in the engine: a new instance, its renderers
      (as `GetComponentsInChildren` lists them) and their material slots. */
  datatype Spawned = Spawned(instance: InstanceId, renderers: seq<RendererId>, slots: seq<seq<Material>>)

  /** The live record after a swap to `template`: every stat is the template's
      except the part type, which is kept. */
  function Swapped(live: PartStats, template: PartStats): (r: PartStats)
    ensures r.partType == live.partType
    ensures r.(partType := template.partType) == template
  {
    live.(partName := template.partName, description := template.description,
          durability := template.durability, price := template.price,
          weight := template.weight, rarity := template.rarity,
          icon := template.icon, prefab := template.prefab)
  }

  /** The log of one model replacement, in the order the swap performs it:
      clear the tracker, destroy child 0 when there is one, instantiate, reset
      the local transform, track the new renderers. */
  function ReplaceEvents(children: seq<InstanceId>, prefab: PrefabId, instance: InstanceId): (e: seq<SceneEvent>)
    ensures |e| == if |children| > 0 then 5 else 4
    ensures e[0] == ClearTracker
    ensures |children| > 0 ==> e[1] == Destroy(children[0])
    ensures e[|e| - 3] == Instantiate(prefab, instance)
    ensures e[|e| - 2] == ResetLocalTransform(instance)
    ensures e[|e| - 1] == TrackRenderers(instance)
  {
    [ClearTracker]
    + (if |children| > 0 then [Destroy(children[0])] else [])
    + [Instantiate(prefab, instance), ResetLocalTransform(instance), TrackRenderers(instance)]
  }

  /** Adding renderers that are all live, distinct and untracked appends them
      all, in order. */
  lemma {:induction false} AddedFresh(tracked: seq<RendererId>, live: set<RendererId>, rs: seq<RendererId>)
    requires NoDup(rs)
    requires forall i :: 0 <= i < |rs| ==> rs[i] in live && rs[i] !in tracked
    ensures Added(tracked, live, rs) == tracked + rs
    decreases |rs|
  {
    if rs != [] {
      assert NoDup(rs[1..]) by {
        forall i, j | 0 <= i < j < |rs[1..]| ensures rs[1..][i] != rs[1..][j] {
          assert rs[1..][i] == rs[i + 1] && rs[1..][j] == rs[j + 1];
        }
      }
      forall i | 0 <= i < |rs[1..]| ensures rs[1..][i] in live && rs[1..][i] !in tracked + [rs[0]] {
        assert rs[1..][i] == rs[i + 1];
      }
      AddedFresh(tracked + [rs[0]], live, rs[1..]);
      assert tracked + [rs[0]] + rs[1..] == tracked + rs;
    }
  }

  /** The children left once the frame ends: those not destroyed, in order. */
  function Surviving(children: seq<InstanceId>, gone: set<InstanceId>): (r: seq<InstanceId>)
    ensures |r| <= |children|
    ensures forall x :: x in r <==> x in children && x !in gone
  {
    if children == [] then []
    else (if children[0] in gone then [] else [children[0]]) + Surviving(children[1..], gone)
  }

  /** The live renderers once the frame ends: those under a destroyed child
      are gone, the others keep their slots. */
  function Dropped(slots: map<RendererId, seq<Material>>, ownerOf: map<RendererId, InstanceId>, gone: set<InstanceId>): (m: map<RendererId, seq<Material>>)
    ensures forall r :: r in m <==> r in slots && !(r in ownerOf && ownerOf[r] in gone)
    ensures forall r :: r in m ==> m[r] == slots[r]
  {
    map r | r in slots && !(r in ownerOf && ownerOf[r] in gone) :: slots[r]
  }

  /** The owners after instantiating: the new renderers sit under `instance`. */
  function Owning(ownerOf: map<RendererId, InstanceId>, rs: seq<RendererId>, instance: InstanceId): (m: map<RendererId, InstanceId>)
    ensures forall r :: r in m <==> r in ownerOf || r in rs
    ensures forall r :: r in m ==> m[r] == if r in rs then instance else ownerOf[r]
  {
    ownerOf + map r | r in rs :: instance
  }

  /** Dropping the destroyed children keeps the order of the others. */
  lemma {:induction false} SurvivingAppend(a: seq<InstanceId>, b: seq<InstanceId>, gone: set<InstanceId>)
    ensures Surviving(a + b, gone) == Surviving(a, gone) + Surviving(b, gone)
    decreases |a|
  {
    if a == [] {
      assert a + b == b;
    } else {
      var head := if a[0] in gone then [] else [a[0]];
      assert (a + b)[0] == a[0] && (a + b)[1..] == a[1..] + b;
      SurvivingAppend(a[1..], b, gone);
      calc {
        Surviving(a + b, gone);
        head + Surviving(a[1..] + b, gone);
        head + (Surviving(a[1..], gone) + Surviving(b, gone));
        (head + Surviving(a[1..], gone)) + Surviving(b, gone);
      }
    }
  }

  /** A swap destroys child 0 and appends the new instance; once the frame
      ends, the new instance follows the remaining children. */
  lemma SwapThenFrame(children: seq<InstanceId>, instance: InstanceId)
    requires |children| > 0 && NoDup(children) && instance !in children
    ensures Surviving(children + [instance], {children[0]}) == children[1..] + [instance]
  {
    var rest := children[1..] + [instance];
    assert children + [instance] == [children[0]] + rest;
    forall i | 0 <= i < |rest| ensures rest[i] !in {children[0]} {
      if i < |rest| - 1 {
        assert rest[i] == children[i + 1];
      }
    }
    SurvivingUntouched(rest, {children[0]});
    assert Surviving([children[0]] + rest, {children[0]}) == Surviving(rest, {children[0]});
  }

  /** With a single model under `Visuals`, the swap after the frame ends
      destroys the instance the previous swap created. */
  lemma NextSwapDestroysPrevious(model: InstanceId, instance: InstanceId, prefab: PrefabId, next: InstanceId)
    requires instance != model
    ensures ReplaceEvents(Surviving([model, instance], {model}), prefab, next)
            == [ClearTracker, Destroy(instance), Instantiate(prefab, next), ResetLocalTransform(next), TrackRenderers(next)]
  {
    SwapThenFrame([model], instance);
    assert [model] + [instance] == [model, instance];
  }

  /** A list none of whose children is destroyed survives whole. */
  lemma {:induction false} SurvivingUntouched(children: seq<InstanceId>, gone: set<InstanceId>)
    requires forall i :: 0 <= i < |children| ==> children[i] !in gone
    ensures Surviving(children, gone) == children
    decreases |children|
  {
    if children != [] {
      SurvivingUntouched(children[1..], gone);
    }
  }

  class AlternativeParts {
    const alternatives: seq<PartStats>
    /** The `PartData` on the same object (null when it is missing). */
    const partData: PartData?
    /** The highlighter on the `Visuals` child (null when it has none). */
    const visuals: PartHighlighter?
    /** The children of the `Visuals` transform, in order. */
    var visualChildren: seq<InstanceId>
    /** The children `Destroy` was called on during the current frame. */
    var destroyed: set<InstanceId>
    /** The child of `Visuals` each renderer sits under. */
    var ownerOf: map<RendererId, InstanceId>
    ghost var events: seq<SceneEvent>

    constructor (alternatives: seq<PartStats>, partData: PartData?, visuals: PartHighlighter?,
                 children: seq<InstanceId>, ownerOf: map<RendererId, InstanceId>)
      ensures this.alternatives == alternatives && this.partData == partData && this.visuals == visuals
      ensures visualChildren == children && this.ownerOf == ownerOf
      ensures destroyed == {} && events == []
    {
      this.alternatives := alternatives;
      this.partData := partData;
      this.visuals := visuals;
      visualChildren := children;
      this.ownerOf := ownerOf;
      destroyed := {};
      events := [];
    }

    /** The length of the catalog, which bounds the valid template indices. */
    function GetAlternativesCount(): (n: nat)
      reads this
      ensures n == |alternatives|
    {
      |alternatives|
    }

    /** The template at `index`; the list indexer throws outside the range. */
    function GetAAlternative(index: int): (a: PartStats)
      requires 0 <= index < GetAlternativesCount()
      reads this
      ensures a in alternatives && a == alternatives[index]
    {
      alternatives[index]
    }

    /** Whether the `Instantiate` result `s` is fresh for this object. */
    predicate FreshSpawn(s: Spawned)
      reads this, visuals, if visuals != null then {visuals.scene} else {}
    {
      && s.instance !in visualChildren && s.instance !in destroyed
      && |s.renderers| == |s.slots| && NoDup(s.renderers)
      && (visuals != null ==> forall i :: 0 <= i < |s.renderers| ==> s.renderers[i] !in visuals.scene.materials)
    }

    /** Swaps the live record to the template at `index`; `spawn` stands for
        what instantiating the template's prefab produces. */
    method SwitchToAlternative(index: int, spawn: Spawned)
      requires visuals != null ==> visuals.Valid()
      requires FreshSpawn(spawn)
      modifies this, partData
      modifies if visuals != null then {visuals, visuals.scene} else {}
      ensures visuals != null ==> visuals.Valid()
      // out of range: nothing changes
      ensures !(0 <= index < |alternatives|) ==>
        && unchanged(this)
        && (partData != null ==> unchanged(partData))
        && (visuals != null ==> unchanged(visuals) && unchanged(visuals.scene))
      // in range: the stats are copied and wear is reset
      ensures 0 <= index < |alternatives| && partData != null ==>
        && partData.partStats == Swapped(old(partData.partStats), alternatives[index])
        && partData.currentDurability == alternatives[index].durability
        && partData.partHighlighter == old(partData.partHighlighter)
      // the model is replaced only when the template has a prefab
      ensures 0 <= index < |alternatives| && (alternatives[index].prefab.None? || visuals == null) ==>
        && visualChildren == old(visualChildren) && destroyed == old(destroyed)
        && ownerOf == old(ownerOf) && events == old(events)
        && (visuals != null ==> unchanged(visuals) && unchanged(visuals.scene))
      ensures 0 <= index < |alternatives| && alternatives[index].prefab.Some? && visuals != null ==>
        && events == old(events) + ReplaceEvents(old(visualChildren), alternatives[index].prefab.value, spawn.instance)
        && visualChildren == old(visualChildren) + [spawn.instance]
        && destroyed == old(destroyed) + (if |old(visualChildren)| > 0 then {old(visualChildren)[0]} else {})
        && visuals.tracked == spawn.renderers
        && (forall r :: r in visuals.tracked ==> r in ownerOf && ownerOf[r] == spawn.instance && ownerOf[r] !in destroyed)
        && (forall r :: r in old(ownerOf) && r !in spawn.renderers ==> r in ownerOf && ownerOf[r] == old(ownerOf)[r])
        && (forall r :: r in visuals.scene.materials <==> r in old(visuals.scene.materials) || r in spawn.renderers)
        && (forall i :: 0 <= i < |spawn.renderers| ==>
              && visuals.originals[spawn.renderers[i]] == spawn.slots[i]
              && spawn.renderers[i] in visuals.scene.materials
              && visuals.scene.materials[spawn.renderers[i]] == spawn.slots[i])
        && (forall r :: r in old(visuals.scene.materials) ==>
              visuals.scene.materials[r] == Restored(old(visuals.scene.materials), old(visuals.tracked), old(visuals.originals))[r])
    {
      if index < 0 || index >= |alternatives| {
        return;
      }
      var alternative := alternatives[index];
      if partData != null {
        partData.partStats := partData.partStats.(partName := alternative.partName);
        partData.partStats := partData.partStats.(description := alternative.description);
        partData.partStats := partData.partStats.(durability := alternative.durability);
        partData.partStats := partData.partStats.(price := alternative.price);
        partData.partStats := partData.partStats.(weight := alternative.weight);
        partData.partStats := partData.partStats.(rarity := alternative.rarity);
        partData.partStats := partData.partStats.(icon := alternative.icon);
        partData.partStats := partData.partStats.(prefab := alternative.prefab);
        partData.ResetDurability();
      }
      if alternative.prefab.Some? {
        ReplaceModel(alternative.prefab.value, spawn);
      }
    }

    /** Clear the tracker, destroy the old model, instantiate the new one under
        `Visuals`, reset its local transform, then track its renderers. */
    method ReplaceModel(prefab: PrefabId, spawn: Spawned)
      requires visuals != null ==> visuals.Valid()
      requires FreshSpawn(spawn)
      modifies this
      modifies if visuals != null then {visuals, visuals.scene} else {}
      ensures visuals != null ==> visuals.Valid()
      ensures visuals == null ==> unchanged(this)
      ensures visuals != null ==>
        && events == old(events) + ReplaceEvents(old(visualChildren), prefab, spawn.instance)
        && visualChildren == old(visualChildren) + [spawn.instance]
        && destroyed == old(destroyed) + (if |old(visualChildren)| > 0 then {old(visualChildren)[0]} else {})
        && visuals.tracked == spawn.renderers
        && (forall r :: r in visuals.tracked ==> r in ownerOf && ownerOf[r] == spawn.instance && ownerOf[r] !in destroyed)
        && (forall r :: r in old(ownerOf) && r !in spawn.renderers ==> r in ownerOf && ownerOf[r] == old(ownerOf)[r])
        && (forall r :: r in visuals.scene.materials <==> r in old(visuals.scene.materials) || r in spawn.renderers)
        && (forall i :: 0 <= i < |spawn.renderers| ==>
              && visuals.originals[spawn.renderers[i]] == spawn.slots[i]
              && spawn.renderers[i] in visuals.scene.materials
              && visuals.scene.materials[spawn.renderers[i]] == spawn.slots[i])
        && (forall r :: r in old(visuals.scene.materials) ==>
              visuals.scene.materials[r] == Restored(old(visuals.scene.materials), old(visuals.tracked), old(visuals.originals))[r])
    {
      if visuals != null {
        RemoveOldModel();
        AddNewModel(prefab, spawn);
      }
    }

    /** First half of `ReplaceModel`: restore and forget every tracked
        renderer, then destroy the first child of `Visuals` (which stays listed
        until the frame ends). */
    method RemoveOldModel()
      requires visuals != null && visuals.Valid()
      modifies this`events, this`destroyed, visuals, visuals.scene
      ensures visuals.Valid() && visuals.tracked == [] && visuals.originals == map[]
      ensures visuals.scene.materials == Restored(old(visuals.scene.materials), old(visuals.tracked), old(visuals.originals))
      ensures events == old(events) + [ClearTracker] + (if |visualChildren| > 0 then [Destroy(visualChildren[0])] else [])
      ensures destroyed == old(destroyed) + (if |visualChildren| > 0 then {visualChildren[0]} else {})
    {
      visuals.ClearAllRenderers();
      events := events + [ClearTracker];
      if |visualChildren| > 0 {
        events := events + [Destroy(visualChildren[0])];
        destroyed := destroyed + {visualChildren[0]};
      }
    }

    /** Second half of `ReplaceModel`: instantiate the prefab under `Visuals`,
        reset its local position and rotation, then track its renderers. */
    method AddNewModel(prefab: PrefabId, spawn: Spawned)
      requires visuals != null && visuals.Valid() && visuals.tracked == []
      requires FreshSpawn(spawn)
      modifies this`visualChildren, this`ownerOf, this`events, visuals, visuals.scene
      ensures visuals.Valid()
      ensures events == old(events) + [Instantiate(prefab, spawn.instance), ResetLocalTransform(spawn.instance), TrackRenderers(spawn.instance)]
      ensures visualChildren == old(visualChildren) + [spawn.instance]
      ensures ownerOf == Owning(old(ownerOf), spawn.renderers, spawn.instance)
      ensures visuals.tracked == spawn.renderers
      ensures forall i :: 0 <= i < |spawn.renderers| ==>
        && visuals.originals[spawn.renderers[i]] == spawn.slots[i]
        && spawn.renderers[i] in visuals.scene.materials
        && visuals.scene.materials[spawn.renderers[i]] == spawn.slots[i]
      ensures forall r :: r in visuals.scene.materials <==> r in old(visuals.scene.materials) || r in spawn.renderers
      ensures forall r :: r in old(visuals.scene.materials) ==> visuals.scene.materials[r] == old(visuals.scene.materials)[r]
    {
      visuals.scene.Spawn(spawn.renderers, spawn.slots);
      visualChildren := visualChildren + [spawn.instance];
      events := events + [Instantiate(prefab, spawn.instance)];
      events := events + [ResetLocalTransform(spawn.instance)];
      TrackSpawned(spawn.renderers);
      events := events + [TrackRenderers(spawn.instance)];
      ownerOf := Owning(ownerOf, spawn.renderers, spawn.instance);
    }

    /** `SetNewRenders` on an empty tracker, for renderers that have just
        entered the scene: exactly they are tracked, with their current slots. */
    method TrackSpawned(rs: seq<RendererId>)
      requires visuals != null && visuals.Valid() && visuals.tracked == [] && NoDup(rs)
      requires forall i :: 0 <= i < |rs| ==> rs[i] in visuals.scene.materials
      modifies visuals
      ensures visuals.Valid() && visuals.tracked == rs
      ensures forall i :: 0 <= i < |rs| ==> visuals.originals[rs[i]] == visuals.scene.materials[rs[i]]
    {
      AddedFresh([], visuals.scene.materials.Keys, rs);
      visuals.SetNewRenders(rs);
    }

    /** The engine's end of frame: the children destroyed during the frame
        leave the `Visuals` transform, and the renderers under them leave the
        scene. */
    method EndOfFrame()
      modifies this`visualChildren, this`destroyed
      modifies if visuals != null then {visuals.scene} else {}
      ensures visualChildren == Surviving(old(visualChildren), old(destroyed))
      ensures destroyed == {}
      ensures visuals != null ==> visuals.scene.materials == Dropped(old(visuals.scene.materials), ownerOf, old(destroyed))
    {
      if visuals != null {
        visuals.scene.materials := Dropped(visuals.scene.materials, ownerOf, destroyed);
      }
      visualChildren := Surviving(visualChildren, destroyed);
      destroyed := {};
    }
  }
}
