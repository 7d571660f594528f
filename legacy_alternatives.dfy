/** The alternative catalog of the older generation (`PartAlts/AlternativeParts`):
    the same swap of stats as the newer one, but the visual model is a direct
    child named "Model" and no highlighter is involved. Scene operations are
    kept as a log; Unity's `Destroy` is deferred, so the destroyed child stays
    among the children until `EndOfFrame` removes it. */
module LegacyAlternatives {
  import opened Common
  import opened LegacyParts

  /** A child of the part's transform. */
  datatype Child = Child(id: InstanceId, name: string)

  datatype SceneEvent =
    | Destroy(child: InstanceId)
    | Instantiate(prefab: PrefabId, instance: InstanceId)
    /** local position zero, local rotation identity, local scale one */
    | ResetLocalTransform(instance: InstanceId)

  const ModelName: string := "Model"

  /** `transform.Find(name)` on direct children: the first child so named. */
  function FindChild(children: seq<Child>, name: string): (r: Option<InstanceId>)
    ensures r.None? <==> forall i :: 0 <= i < |children| ==> children[i].name != name
    ensures r.Some? ==> exists i :: 0 <= i < |children| && children[i] == Child(r.value, name)
                          && forall j :: 0 <= j < i ==> children[j].name != name
  {
    if children == [] then None
    else if children[0].name == name then Some(children[0].id)
    else
      var r := FindChild(children[1..], name);
      assert forall i :: 0 < i < |children| ==> children[i] == children[1..][i - 1];
      r
  }

  /** The live record after a swap to `template`: every stat is the template's
      except the part type, which is kept. */
  function Swapped(live: PartStats, template: PartStats): (r: PartStats)
    ensures r.partType == live.partType
    ensures r.(partType := template.partType) == template
  {
    live.(partName := template.partName, description := template.description,
          durability := template.durability, price := template.price,
          weight := template.weight, rarity := template.rarity,
          icon := template.icon, prefab := template.prefab)
  }

  /** The log of one model replacement: destroy the current "Model" child if
      there is one, then instantiate and place the new one. */
  function ReplaceEvents(children: seq<Child>, prefab: PrefabId, instance: InstanceId): (e: seq<SceneEvent>)
    ensures |e| >= 2 && e[|e| - 2] == Instantiate(prefab, instance) && e[|e| - 1] == ResetLocalTransform(instance)
    ensures FindChild(children, ModelName).Some? <==> |e| == 3
    ensures |e| == 3 ==> e[0] == Destroy(FindChild(children, ModelName).value)
  {
    (match FindChild(children, ModelName) case Some(m) => [Destroy(m)] case None => [])
    + [Instantiate(prefab, instance), ResetLocalTransform(instance)]
  }

  /** Until the frame ends, `Find("Model")` still answers the old model after
      a replacement, because the destroyed child comes first; only when there
      was none does it answer the new one. */
  lemma {:induction false} FindAfterReplace(children: seq<Child>, instance: InstanceId)
    ensures FindChild(children + [Child(instance, ModelName)], ModelName)
            == if FindChild(children, ModelName).Some? then FindChild(children, ModelName) else Some(instance)
    decreases |children|
  {
    if children != [] {
      assert (children + [Child(instance, ModelName)])[1..] == children[1..] + [Child(instance, ModelName)];
      FindAfterReplace(children[1..], instance);
    }
  }

  /** The children left once the frame ends: those not destroyed, in order.
      A child survives exactly when it was a child and was not destroyed. */
  function SurvivingChildren(children: seq<Child>, gone: set<InstanceId>): (r: seq<Child>)
    ensures |r| <= |children|
    ensures forall c :: c in r <==> c in children && c.id !in gone
  {
    if children == [] then []
    else (if children[0].id in gone then [] else [children[0]]) + SurvivingChildren(children[1..], gone)
  }

  predicate UniqueChildIds(children: seq<Child>)
  {
    forall i, j :: 0 <= i < j < |children| ==> children[i].id != children[j].id
  }

  /** At most one child is named "Model". */
  predicate AtMostOneModel(children: seq<Child>)
  {
    forall i, j :: 0 <= i < j < |children| && children[i].name == ModelName ==> children[j].name != ModelName
  }

  /** The child `ReplaceModel` destroys, as a set. */
  function FoundModel(children: seq<Child>): (s: set<InstanceId>)
    ensures |s| <= 1
  {
    match FindChild(children, ModelName) case Some(m) => {m} case None => {}
  }

  lemma {:induction false} SurvivingChildrenAppend(a: seq<Child>, b: seq<Child>, gone: set<InstanceId>)
    ensures SurvivingChildren(a + b, gone) == SurvivingChildren(a, gone) + SurvivingChildren(b, gone)
    decreases |a|
  {
    if a == [] {
      assert a + b == b;
    } else {
      var head := if a[0].id in gone then [] else [a[0]];
      assert (a + b)[0] == a[0] && (a + b)[1..] == a[1..] + b;
      SurvivingChildrenAppend(a[1..], b, gone);
      calc {
        SurvivingChildren(a + b, gone);
        head + SurvivingChildren(a[1..] + b, gone);
        head + (SurvivingChildren(a[1..], gone) + SurvivingChildren(b, gone));
        (head + SurvivingChildren(a[1..], gone)) + SurvivingChildren(b, gone);
      }
    }
  }

  /** With distinct ids and at most one "Model" child, destroying the child
      `Find("Model")` answers leaves no "Model" child once the frame ends. */
  lemma NoModelSurvives(children: seq<Child>)
    requires UniqueChildIds(children) && AtMostOneModel(children)
    ensures forall c :: c in SurvivingChildren(children, FoundModel(children)) ==> c.name != ModelName
  {
  }

  /** A swap in one frame, then the frame's end: `Find("Model")` answers the
      new instance, which is again the only "Model" child, so the next swap
      destroys it. */
  lemma FindAfterFrame(children: seq<Child>, instance: InstanceId)
    requires UniqueChildIds(children) && AtMostOneModel(children)
    requires forall i :: 0 <= i < |children| ==> children[i].id != instance
    ensures var after := SurvivingChildren(children + [Child(instance, ModelName)], FoundModel(children));
      && FindChild(after, ModelName) == Some(instance)
      && UniqueChildIds(after) && AtMostOneModel(after)
  {
    var gone := FoundModel(children);
    var kept := SurvivingChildren(children, gone);
    var model := Child(instance, ModelName);
    SurvivingChildrenAppend(children, [model], gone);
    assert SurvivingChildren([model], gone) == [model] by {
      assert instance !in gone;
    }
    assert SurvivingChildren(children + [model], gone) == kept + [model];
    NoModelSurvives(children);
    SurvivingChildrenUnique(children, gone);
    assert FindChild(kept, ModelName).None? by {
      forall i | 0 <= i < |kept| ensures kept[i].name != ModelName {
        assert kept[i] in kept;
      }
    }
    FindAfterReplace(kept, instance);
    forall c | c in kept ensures c.name != ModelName && c.id != instance {
      assert c in children;
    }
    AppendFreshModel(kept, instance);
  }

  /** Appending a fresh "Model" child to children with no "Model" child keeps
      ids distinct and leaves exactly one "Model" child. */
  lemma AppendFreshModel(kept: seq<Child>, instance: InstanceId)
    requires UniqueChildIds(kept)
    requires forall c :: c in kept ==> c.name != ModelName && c.id != instance
    ensures UniqueChildIds(kept + [Child(instance, ModelName)])
    ensures AtMostOneModel(kept + [Child(instance, ModelName)])
  {
    var after := kept + [Child(instance, ModelName)];
    forall i, j | 0 <= i < j < |after| ensures after[i].id != after[j].id && after[i].name != ModelName {
      assert after[i] == kept[i];
      if j < |kept| {
        assert after[j] == kept[j];
      }
    }
  }

  /** Dropping children keeps their ids distinct. */
  lemma {:induction false} SurvivingChildrenUnique(children: seq<Child>, gone: set<InstanceId>)
    requires UniqueChildIds(children)
    ensures UniqueChildIds(SurvivingChildren(children, gone))
    decreases |children|
  {
    if children != [] {
      var rest := children[1..];
      assert UniqueChildIds(rest) by {
        forall i, j | 0 <= i < j < |rest| ensures rest[i].id != rest[j].id {
          assert rest[i] == children[i + 1] && rest[j] == children[j + 1];
        }
      }
      SurvivingChildrenUnique(rest, gone);
      if children[0].id !in gone {
        var kept := SurvivingChildren(rest, gone);
        forall c | c in kept ensures c.id != children[0].id {
          var k :| 0 <= k < |rest| && rest[k] == c;
          assert c == children[k + 1];
        }
        ConsUnique(children[0], kept);
      }
    }
  }

  /** Putting a child with a new id in front keeps ids distinct. */
  lemma ConsUnique(first: Child, kept: seq<Child>)
    requires UniqueChildIds(kept)
    requires forall c :: c in kept ==> c.id != first.id
    ensures UniqueChildIds([first] + kept)
  {
    var all := [first] + kept;
    forall i, j | 0 <= i < j < |all| ensures all[i].id != all[j].id {
      assert all[j] == kept[j - 1];
      if i > 0 {
        assert all[i] == kept[i - 1];
      }
    }
  }

  class AlternativeParts {
    const alternatives: seq<PartStats>
    const partData: PartData?
    /** The direct children of the part's transform, in order. */
    var children: seq<Child>
    /** The children `Destroy` was called on during the current frame. */
    var destroyed: set<InstanceId>
    ghost var events: seq<SceneEvent>

    constructor (alternatives: seq<PartStats>, partData: PartData?, children: seq<Child>)
      ensures this.alternatives == alternatives && this.partData == partData
      ensures this.children == children && destroyed == {} && events == []
    {
      this.alternatives := alternatives;
      this.partData := partData;
      this.children := children;
      destroyed := {};
      events := [];
    }

    /** The length of the catalog, which bounds the valid template indices. */
    function GetAlternativesCount(): (n: nat)
      reads this
      ensures n == |alternatives|
    {
      |alternatives|
    }

    /** The template at `index`; the list indexer throws outside the range. */
    function GetAAlternative(index: int): (a: PartStats)
      requires 0 <= index < GetAlternativesCount()
      reads this
      ensures a in alternatives && a == alternatives[index]
    {
      alternatives[index]
    }

    /** Whether `instance` is new: no child has it, and it was not destroyed. */
    predicate FreshInstance(instance: InstanceId)
      reads this
    {
      instance !in destroyed && forall i :: 0 <= i < |children| ==> children[i].id != instance
    }

    /** Swaps the live record to the template at `index`; `instance` stands for
        the object instantiating the template's prefab creates. */
    method SwitchToAlternative(index: int, instance: InstanceId)
      requires FreshInstance(instance)
      modifies this, partData
      ensures !(0 <= index < |alternatives|) ==>
        && unchanged(this)
        && (partData != null ==> unchanged(partData))
      ensures 0 <= index < |alternatives| && partData != null ==>
        && partData.partStats == Swapped(old(partData.partStats), alternatives[index])
        && partData.currentDurability == alternatives[index].durability
      ensures 0 <= index < |alternatives| && alternatives[index].prefab.None? ==>
        children == old(children) && destroyed == old(destroyed) && events == old(events)
      ensures 0 <= index < |alternatives| && alternatives[index].prefab.Some? ==>
        && events == old(events) + ReplaceEvents(old(children), alternatives[index].prefab.value, instance)
        && destroyed == old(destroyed) + FoundModel(old(children))
        && children == old(children) + [Child(instance, ModelName)]
    {
      if index < 0 || index >= |alternatives| {
        return;
      }
      var alternative := alternatives[index];
      if partData != null {
        partData.partStats := partData.partStats.(partName := alternative.partName);
        partData.partStats := partData.partStats.(description := alternative.description);
        partData.partStats := partData.partStats.(durability := alternative.durability);
        partData.partStats := partData.partStats.(price := alternative.price);
        partData.partStats := partData.partStats.(weight := alternative.weight);
        partData.partStats := partData.partStats.(rarity := alternative.rarity);
        partData.partStats := partData.partStats.(icon := alternative.icon);
        partData.partStats := partData.partStats.(prefab := alternative.prefab);
        partData.ResetDurability();
      }
      if alternative.prefab.Some? {
        ReplaceModel(alternative.prefab.value, instance);
      }
    }

    /** Destroys the child named "Model" if any (it stays listed until the
        frame ends), then instantiates the prefab as a new child named "Model"
        with an identity local transform. */
    method ReplaceModel(prefab: PrefabId, instance: InstanceId)
      requires FreshInstance(instance)
      modifies this`children, this`destroyed, this`events
      ensures events == old(events) + ReplaceEvents(old(children), prefab, instance)
      ensures destroyed == old(destroyed) + FoundModel(old(children))
      ensures children == old(children) + [Child(instance, ModelName)]
    {
      var currentModel := FindChild(children, ModelName);
      if currentModel.Some? {
        events := events + [Destroy(currentModel.value)];
        destroyed := destroyed + {currentModel.value};
      }
      // Instantiate appends the clone, which is then renamed "Model".
      events := events + [Instantiate(prefab, instance)];
      children := children + [Child(instance, ModelName)];
      events := events + [ResetLocalTransform(instance)];
    }

    /** The engine's end of frame: the children destroyed during the frame
        leave the transform. */
    method EndOfFrame()
      modifies this`children, this`destroyed
      ensures children == SurvivingChildren(old(children), old(destroyed))
      ensures destroyed == {}
    {
      children := SurvivingChildren(children, destroyed);
      destroyed := {};
    }
  }
}
