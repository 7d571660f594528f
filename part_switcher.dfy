/** The older generation's part switcher (`PartSwitcher`): it groups every part
    object in the scene by its `partType`, answers whether a type has
    alternatives, and swaps the selected part for another object of the scene,
    telling the older selector about the new selection. */
module PartSwitching {
  import opened Common
  import Selector
  import LegacySelector

  /** A scene object carrying a `PartData`, with the type its stats name. */
  datatype PartObject = PartObject(id: InstanceId, partType: string)

  datatype SwitchEvent =
    | AlternativesPanelActive(active: bool)
    | ClearAlternativeItems
    | Deactivate(obj: InstanceId)
    /** `Instantiate(source, position, rotation, parent)` at the old part's place */
    | InstantiateAt(source: InstanceId, instance: InstanceId, place: InstanceId)
    /** position, rotation and parent copied from `place` */
    | MoveTo(obj: InstanceId, place: InstanceId)
    | Activate(obj: InstanceId)
    /** the enumeration of a missing container threw */
    | NullReference

  /** The ids of the objects of type `t`, in the order the engine lists them. */
  function OfType(all: seq<PartObject>, t: string): (r: seq<InstanceId>)
    ensures |r| <= |all|
  {
    if all == [] then []
    else OfType(all[..|all| - 1], t) + (if all[|all| - 1].partType == t then [all[|all| - 1].id] else [])
  }

  /** The dictionary the grouping loop builds, one object at a time. */
  function Grouped(all: seq<PartObject>): (g: map<string, seq<InstanceId>>)
  {
    if all == [] then map[]
    else
      var g := Grouped(all[..|all| - 1]);
      var o := all[|all| - 1];
      g[o.partType := (if o.partType in g then g[o.partType] else []) + [o.id]]
  }

  predicate UniqueIds(all: seq<PartObject>)
  {
    forall i, j :: 0 <= i < j < |all| ==> all[i].id != all[j].id
  }

  /** The keys are exactly the types present, and each list holds the ids of
      that type in the order the engine lists them (a type with no list has
      no objects). */
  lemma GroupedByType(all: seq<PartObject>)
    ensures forall t :: t in Grouped(all) <==> exists i :: 0 <= i < |all| && all[i].partType == t
    ensures forall t :: OfType(all, t) == if t in Grouped(all) then Grouped(all)[t] else []
  {
    GroupedKeys(all);
    GroupedLists(all);
  }

  lemma {:induction false} GroupedKeys(all: seq<PartObject>)
    ensures forall t :: t in Grouped(all) <==> exists i :: 0 <= i < |all| && all[i].partType == t
  {
    if all != [] {
      var init := all[..|all| - 1];
      var last := all[|all| - 1];
      GroupedKeys(init);
      forall t
        ensures t in Grouped(all) <==> exists i :: 0 <= i < |all| && all[i].partType == t
      {
        if t == last.partType {
          assert all[|all| - 1].partType == t;
        } else {
          assert t in Grouped(all) <==> t in Grouped(init);
          if t in Grouped(init) {
            var i :| 0 <= i < |init| && init[i].partType == t;
            assert all[i].partType == t;
          }
          if exists i :: 0 <= i < |all| && all[i].partType == t {
            var i :| 0 <= i < |all| && all[i].partType == t;
            assert init[i].partType == t;
          }
        }
      }
    }
  }

  lemma {:induction false} GroupedLists(all: seq<PartObject>)
    ensures forall t :: OfType(all, t) == if t in Grouped(all) then Grouped(all)[t] else []
  {
    if all != [] {
      var init := all[..|all| - 1];
      var last := all[|all| - 1];
      GroupedLists(init);
      forall t
        ensures OfType(all, t) == if t in Grouped(all) then Grouped(all)[t] else []
      {
        assert OfType(all, t) == OfType(init, t) + (if last.partType == t then [last.id] else []);
        if t != last.partType {
          assert (t in Grouped(all)) == (t in Grouped(init));
        }
      }
    }
  }

  /** With distinct ids, an object is listed under its own type and under no
      other: every part is in exactly one list. */
  lemma {:induction false} OfTypeMembership(all: seq<PartObject>, k: int, t: string)
    requires UniqueIds(all) && 0 <= k < |all|
    ensures all[k].id in OfType(all, t) <==> all[k].partType == t
  {
    var init := all[..|all| - 1];
    var last := all[|all| - 1];
    if k == |all| - 1 {
      OfTypeIds(init, t, last.id);
    } else {
      OfTypeMembership(init, k, t);
      assert init[k] == all[k];
    }
  }

  /** Only ids of the input appear in a type's list. */
  lemma {:induction false} OfTypeIds(all: seq<PartObject>, t: string, x: InstanceId)
    ensures x in OfType(all, t) ==> exists i :: 0 <= i < |all| && all[i].id == x && all[i].partType == t
  {
    if all != [] {
      var init := all[..|all| - 1];
      OfTypeIds(init, t, x);
      if x in OfType(init, t) {
        var i :| 0 <= i < |init| && init[i].id == x && init[i].partType == t;
        assert all[i] == init[i];
      }
    }
  }

  /** The grouping keeps the order the engine lists the objects in: of two
      objects of the same type, the earlier one comes first in its list. */
  lemma {:induction false} OfTypeKeepsOrder(all: seq<PartObject>, i: int, j: int)
    requires UniqueIds(all) && 0 <= i < j < |all| && all[i].partType == all[j].partType
    ensures exists a, b :: 0 <= a < b < |OfType(all, all[i].partType)|
              && OfType(all, all[i].partType)[a] == all[i].id && OfType(all, all[i].partType)[b] == all[j].id
  {
    var t := all[i].partType;
    var init := all[..|all| - 1];
    assert init[i] == all[i];
    if j == |all| - 1 {
      OfTypeMembership(init, i, t);
      var a :| 0 <= a < |OfType(init, t)| && OfType(init, t)[a] == all[i].id;
      assert OfType(all, t) == OfType(init, t) + [all[j].id];
      var b := |OfType(init, t)|;
      assert OfType(all, t)[a] == all[i].id && OfType(all, t)[b] == all[j].id;
    } else {
      assert init[j] == all[j];
      OfTypeKeepsOrder(init, i, j);
      var a, b :| 0 <= a < b < |OfType(init, t)| && OfType(init, t)[a] == all[i].id && OfType(init, t)[b] == all[j].id;
      assert OfType(all, t)[..|OfType(init, t)|] == OfType(init, t);
      assert OfType(all, t)[a] == all[i].id && OfType(all, t)[b] == all[j].id;
    }
  }

  /** After the grouping, a type has alternatives exactly when its name is not
      empty and at least two objects of the scene have it. */
  lemma {:induction false} HasAlternativesAfterGrouping(switcher: PartSwitcher, all: seq<PartObject>, t: string)
    requires UniqueIds(all) && switcher.partsByType == Grouped(all)
    ensures switcher.HasAlternatives(Some(t))
            <==> t != "" && exists i, j :: 0 <= i < j < |all| && all[i].partType == t && all[j].partType == t
  {
    GroupedByType(all);
    if exists i, j :: 0 <= i < j < |all| && all[i].partType == t && all[j].partType == t {
      var i, j :| 0 <= i < j < |all| && all[i].partType == t && all[j].partType == t;
      OfTypeKeepsOrder(all, i, j);
    }
    if t in Grouped(all) && |Grouped(all)[t]| > 1 {
      var ids := OfType(all, t);
      OfTypeIds(all, t, ids[0]);
      OfTypeIds(all, t, ids[1]);
      var i :| 0 <= i < |all| && all[i].id == ids[0] && all[i].partType == t;
      var j :| 0 <= j < |all| && all[j].id == ids[1] && all[j].partType == t;
      OfTypeDistinct(all, t);
      assert i != j;
      if j < i {
        assert 0 <= j < i < |all| && all[j].partType == t && all[i].partType == t;
      }
    }
  }

  /** With distinct ids, a type's list repeats no id. */
  lemma {:induction false} OfTypeDistinct(all: seq<PartObject>, t: string)
    requires UniqueIds(all)
    ensures forall a, b :: 0 <= a < b < |OfType(all, t)| ==> OfType(all, t)[a] != OfType(all, t)[b]
  {
    if all != [] {
      var init := all[..|all| - 1];
      var last := all[|all| - 1];
      OfTypeDistinct(init, t);
      if last.partType == t {
        OfTypeIds(init, t, last.id);
      }
    }
  }

  class PartSwitcher {
    const hasAlternativesPanel: bool
    const hasAlternativesContainer: bool
    const objectInteraction: LegacySelector.BikePartSelector?

    var partsByType: map<string, seq<InstanceId>>
    var currentSelectedPart: Option<InstanceId>
    var currentPartType: Option<string>
    /** The scene objects whose `activeSelf` is true. */
    var active: set<InstanceId>
    var events: seq<SwitchEvent>

    /** `Start`: hide the panel, then group the scene's parts. */
    constructor (hasAlternativesPanel: bool, hasAlternativesContainer: bool,
                 objectInteraction: LegacySelector.BikePartSelector?, all: seq<PartObject>, active: set<InstanceId>)
      ensures this.hasAlternativesPanel == hasAlternativesPanel
      ensures this.hasAlternativesContainer == hasAlternativesContainer
      ensures this.objectInteraction == objectInteraction && this.active == active
      ensures partsByType == Grouped(all)
      ensures currentSelectedPart == None && currentPartType == None
      ensures events == if hasAlternativesPanel then [AlternativesPanelActive(false)] else []
    {
      this.hasAlternativesPanel := hasAlternativesPanel;
      this.hasAlternativesContainer := hasAlternativesContainer;
      this.objectInteraction := objectInteraction;
      this.active := active;
      currentSelectedPart := None;
      currentPartType := None;
      events := if hasAlternativesPanel then [AlternativesPanelActive(false)] else [];
      partsByType := map[];
      new;
      FindAllObjectsWithData(all);
    }

    /** Empties the dictionary, then files every object under its type. */
    method FindAllObjectsWithData(all: seq<PartObject>)
      modifies this`partsByType
      ensures partsByType == Grouped(all)
    {
      partsByType := map[];
      for i := 0 to |all|
        invariant partsByType == Grouped(all[..i])
      {
        var objType := all[i].partType;
        if objType !in partsByType {
          partsByType := partsByType[objType := []];
        }
        partsByType := partsByType[objType := partsByType[objType] + [all[i].id]];
        assert all[..i + 1][..i] == all[..i];
      }
      assert all[..|all|] == all;
    }

    /** False for a null or empty type name and for a type with no list,
        otherwise whether its list has more than one object. */
    function HasAlternatives(objectType: Option<string>): (r: bool)
      reads this
      ensures r ==> objectType.Some? && objectType.value != "" && objectType.value in partsByType
    {
      objectType.Some? && objectType.value != "" && objectType.value in partsByType
      && |partsByType[objectType.value]| > 1
    }

    /** Remembers the part and its type; a type without alternatives hides the
        panel. The items it would list are not created, since
        `CreateAlternativeItem`'s body is commented out. */
    method ShowAlternatives(selectedPart: Option<PartObject>)
      modifies this`currentSelectedPart, this`currentPartType, this`events
      ensures selectedPart.None? ==> unchanged(this)
      ensures selectedPart.Some? ==>
        && currentSelectedPart == Some(selectedPart.value.id)
        && currentPartType == Some(selectedPart.value.partType)
      ensures selectedPart.Some? && !(selectedPart.value.partType in partsByType && |partsByType[selectedPart.value.partType]| > 1) ==>
        events == old(events) + (if hasAlternativesPanel then [AlternativesPanelActive(false)] else [])
      ensures selectedPart.Some? && selectedPart.value.partType in partsByType && |partsByType[selectedPart.value.partType]| > 1 ==>
        events == old(events) + (if !hasAlternativesContainer then [NullReference]
                                 else [ClearAlternativeItems] + (if hasAlternativesPanel then [AlternativesPanelActive(true)] else []))
    {
      if selectedPart.None? {
        return;
      }
      currentSelectedPart := Some(selectedPart.value.id);
      currentPartType := Some(selectedPart.value.partType);
      var t := selectedPart.value.partType;
      if t !in partsByType || |partsByType[t]| <= 1 {
        if hasAlternativesPanel {
          events := events + [AlternativesPanelActive(false)];
        }
        return;
      }
      if !hasAlternativesContainer {
        events := events + [NullReference];
        return;
      }
      events := events + [ClearAlternativeItems];
      if hasAlternativesPanel {
        events := events + [AlternativesPanelActive(true)];
      }
    }

    /** Deactivates the current part and makes `newObject` current: a clone
        at the old part's place if `newObject` is still active, otherwise
        `newObject` itself, moved there and activated. `clone` stands for the
        object `Instantiate` creates. */
    method SwitchToObject(newObject: Option<InstanceId>, clone: InstanceId)
      requires clone !in active
      requires objectInteraction != null ==> objectInteraction.HoverShown()
      modifies this`currentSelectedPart, this`active, this`events
      modifies if objectInteraction != null then {objectInteraction, objectInteraction.scene} else {}
      ensures old(currentSelectedPart).None? || newObject.None? ==>
        && unchanged(this)
        && (objectInteraction != null ==> unchanged(objectInteraction, objectInteraction.scene))
      ensures old(currentSelectedPart).Some? && newObject.Some? ==>
        var cur := old(currentSelectedPart).value;
        var target := newObject.value;
        var cloned := target in old(active) && target != cur;
        var next := if cloned then clone else target;
        && currentSelectedPart == Some(next)
        && active == old(active) - {cur} + {next}
        && events == old(events) + [Deactivate(cur)]
                   + (if cloned then [InstantiateAt(target, clone, cur)] else [MoveTo(target, cur), Activate(target)])
        && (objectInteraction != null ==>
              && objectInteraction.currentlySelected == Some(next)
              && objectInteraction.currentlyHighlighted == Some(next)
              && objectInteraction.scene.materials == old(objectInteraction.HoverScene(Selector.HitPart(next)))
              && objectInteraction.originalMaterials == old(objectInteraction.HoverSaved(Selector.HitPart(next)))
              && objectInteraction.calls == old(objectInteraction.calls)
                   + [Selector.Populate(Selector.LiveStats(next))]
                   + Selector.ButtonCalls(objectInteraction.hasAlternativesButton, Some(next), objectInteraction.alternativeCounts)
              && objectInteraction.infoPanelActive == old(objectInteraction.infoPanelActive)
              && objectInteraction.alternativesPanelActive == old(objectInteraction.alternativesPanelActive)
              && objectInteraction.HoverShown())
    {
      if currentSelectedPart.None? || newObject.None? {
        return;
      }
      var place := currentSelectedPart.value;
      var target := newObject.value;
      active := active - {place};
      events := events + [Deactivate(place)];
      if target in active {
        events := events + [InstantiateAt(target, clone, place)];
        active := active + {clone};
        currentSelectedPart := Some(clone);
      } else {
        events := events + [MoveTo(target, place)];
        active := active + {target};
        events := events + [Activate(target)];
        currentSelectedPart := Some(target);
      }
      assert events == old(events) + [Deactivate(place)]
                       + (if target in old(active) && target != place
                          then [InstantiateAt(target, clone, place)] else [MoveTo(target, place), Activate(target)]);
      if objectInteraction != null {
        objectInteraction.SetSelectedObject(currentSelectedPart.value);
        objectInteraction.PopulateObjectInfo(Selector.LiveStats(currentSelectedPart.value));
      }
    }

    method CloseAlternativesPanel()
      modifies this`events
      ensures events == old(events) + (if hasAlternativesPanel then [AlternativesPanelActive(false)] else [])
    {
      if hasAlternativesPanel {
        events := events + [AlternativesPanelActive(false)];
      }
    }
  }
}
