/** The selection controller of the older generation (`BikePartSelector` at the
    scripts root). It highlights a single renderer, the one on the hovered
    part's own object, and keeps that renderer's materials in one field.
    Hover follows the pointer even while a part is selected. The UI calls it
    makes are those of the newer controller, `Selector.Call`. */
module LegacySelector {
  import opened Common
  import opened Highlighting
  import opened Selector

  /** The close test as the comment on line 116 describes it: a left click
      that hits no part while the info panel is shown. */
  predicate ClosesOnClickElsewhere(leftClick: bool, hovered: Option<PartId>, hasInfoPanel: bool, infoPanelActive: bool)
  {
    leftClick && hovered.None? && hasInfoPanel && infoPanelActive
  }

  /** The scene after `UnhighlightCurrentObject`: the hovered part's renderer,
      when it has one and an array was saved, shows the saved array again;
      every other renderer is untouched. */
  function WrittenBack(slots: map<RendererId, seq<Material>>, rendererOf: map<PartId, RendererId>,
                       hovered: Option<PartId>, saved: Option<seq<Material>>): (m: map<RendererId, seq<Material>>)
    ensures m.Keys == slots.Keys
    ensures forall r :: r in slots && !(hovered.Some? && hovered.value in rendererOf && r == rendererOf[hovered.value]) ==>
              m[r] == slots[r]
    ensures hovered.Some? && hovered.value in rendererOf && rendererOf[hovered.value] in slots && saved.Some? ==>
              m[rendererOf[hovered.value]] == saved.value
  {
    if hovered.Some? && hovered.value in rendererOf && rendererOf[hovered.value] in slots && saved.Some?
    then slots[rendererOf[hovered.value] := saved.value]
    else slots
  }

  /** The scene after `HighlightObject(part)`: the part's renderer, when it has
      one, shows the highlight in each of its slots; every other renderer is
      untouched. */
  function HighlightedPart(slots: map<RendererId, seq<Material>>, rendererOf: map<PartId, RendererId>,
                           part: PartId, h: Material): (m: map<RendererId, seq<Material>>)
    ensures m.Keys == slots.Keys
    ensures forall r :: r in slots && !(part in rendererOf && r == rendererOf[part]) ==> m[r] == slots[r]
    ensures part in rendererOf && rendererOf[part] in slots ==>
              m[rendererOf[part]] == Fill(|slots[rendererOf[part]]|, h)
  {
    if part in rendererOf && rendererOf[part] in slots
    then slots[rendererOf[part] := Fill(|slots[rendererOf[part]]|, h)]
    else slots
  }

  /** The highlight leaves no trace: hover part `a` (saving its renderer's
      array), then move the hover to `b`. Every renderer other than `b`'s shows
      what it showed before `a` was hovered, and `b`'s shows the highlight. */
  lemma HoverMoveRestores(slots: map<RendererId, seq<Material>>, rendererOf: map<PartId, RendererId>,
                          a: PartId, b: PartId, h: Material)
    requires a in rendererOf && rendererOf[a] in slots
    ensures var hovered := HighlightedPart(slots, rendererOf, a, h);
      var moved := HighlightedPart(WrittenBack(hovered, rendererOf, Some(a), Some(slots[rendererOf[a]])), rendererOf, b, h);
      && moved.Keys == slots.Keys
      && (forall r :: r in slots && !(b in rendererOf && r == rendererOf[b]) ==> moved[r] == slots[r])
      && (b in rendererOf && rendererOf[b] in slots ==> moved[rendererOf[b]] == Fill(|slots[rendererOf[b]]|, h))
  {
    var hovered := HighlightedPart(slots, rendererOf, a, h);
    var back := WrittenBack(hovered, rendererOf, Some(a), Some(slots[rendererOf[a]]));
    assert back == slots;
  }

  class BikePartSelector {
    const scene: Scene
    const highlightMaterial: Material
    /** The `Renderer` component on each part's own object, where there is one. */
    const rendererOf: map<PartId, RendererId>
    const hasInfoPanel: bool
    const hasAlternativesPanel: bool
    const hasAlternativesButton: bool
    const alternativeCounts: map<PartId, nat>

    var currentlyHighlighted: Option<PartId>
    var currentlySelected: Option<PartId>
    /** The materials saved by the last `HighlightObject` that found a renderer. */
    var originalMaterials: Option<seq<Material>>
    var infoPanelActive: bool
    var alternativesPanelActive: bool
    var calls: seq<Call>

    /** `part.GetComponent<Renderer>() != null` */
    predicate HasRenderer(part: PartId)
      reads this, scene
    {
      part in rendererOf && rendererOf[part] in scene.materials
    }

    /** The hovered part's renderer, if it has one, shows the highlight on as
        many slots as the saved array has. */
    ghost predicate HoverShown()
      reads this, scene
    {
      currentlyHighlighted.Some? && HasRenderer(currentlyHighlighted.value) ==>
        && originalMaterials.Some?
        && scene.materials[rendererOf[currentlyHighlighted.value]]
           == Fill(|originalMaterials.value|, highlightMaterial)
    }

    /** `Start`: both panels hidden, nothing hovered, selected or saved. */
    constructor (scene: Scene, highlightMaterial: Material, rendererOf: map<PartId, RendererId>,
                 hasInfoPanel: bool, hasAlternativesPanel: bool, hasAlternativesButton: bool,
                 alternativeCounts: map<PartId, nat>)
      ensures this.scene == scene && this.highlightMaterial == highlightMaterial
      ensures this.rendererOf == rendererOf && this.alternativeCounts == alternativeCounts
      ensures this.hasInfoPanel == hasInfoPanel && this.hasAlternativesPanel == hasAlternativesPanel
      ensures this.hasAlternativesButton == hasAlternativesButton
      ensures currentlyHighlighted == None && currentlySelected == None && originalMaterials == None
      ensures !infoPanelActive && !alternativesPanelActive
      ensures calls == (if hasInfoPanel then [InfoPanelActive(false)] else [])
                       + (if hasAlternativesPanel then [AlternativesPanelActive(false)] else [])
      ensures HoverShown()
    {
      this.scene := scene;
      this.highlightMaterial := highlightMaterial;
      this.rendererOf := rendererOf;
      this.hasInfoPanel := hasInfoPanel;
      this.hasAlternativesPanel := hasAlternativesPanel;
      this.hasAlternativesButton := hasAlternativesButton;
      this.alternativeCounts := alternativeCounts;
      currentlyHighlighted := None;
      currentlySelected := None;
      originalMaterials := None;
      infoPanelActive := false;
      alternativesPanelActive := false;
      calls := (if hasInfoPanel then [InfoPanelActive(false)] else [])
             + (if hasAlternativesPanel then [AlternativesPanelActive(false)] else []);
    }

    /** The scene after the hover update for `ray`: the previous hover's
        renderer gets the saved array back, then a hit part's renderer is
        covered with the highlight. */
    ghost function HoverScene(ray: Ray): (m: map<RendererId, seq<Material>>)
      reads this, scene
      ensures m.Keys == scene.materials.Keys
    {
      var back := WrittenBack(scene.materials, rendererOf, currentlyHighlighted, originalMaterials);
      if ray.HitPart? then HighlightedPart(back, rendererOf, ray.part, highlightMaterial) else back
    }

    /** The saved array after the hover update for `ray`: a hit part with a
        renderer saves that renderer's restored array; otherwise it is kept. */
    ghost function HoverSaved(ray: Ray): Option<seq<Material>>
      reads this, scene
    {
      if ray.HitPart? && HasRenderer(ray.part)
      then Some(WrittenBack(scene.materials, rendererOf, currentlyHighlighted, originalMaterials)[rendererOf[ray.part]])
      else originalMaterials
    }

    /** What selecting `part` writes: with an info panel, it is shown and
        populated, and the alternatives button is refreshed twice (once inside
        `PopulateObjectInfo`, once by line 112). */
    function SelectCalls(part: PartId): seq<Call>
    {
      if hasInfoPanel
      then [InfoPanelActive(true), Populate(LiveStats(part))]
           + ButtonCalls(hasAlternativesButton, Some(part), alternativeCounts)
           + ButtonCalls(hasAlternativesButton, Some(part), alternativeCounts)
      else []
    }

    /** One frame: nothing over UI; otherwise hover, then selection (unless
        hovering threw). As written, no frame closes the info panel. */
    method Update(input: Input)
      modifies this, scene
      ensures input.overUI ==> unchanged(this, scene)
      ensures old(HoverShown()) ==> HoverShown()
      ensures !input.overUI ==>
        && scene.materials == old(HoverScene(input.ray))
        && originalMaterials == old(HoverSaved(input.ray))
        && currentlyHighlighted == (if input.ray.HitPart? then Some(input.ray.part) else None)
        && alternativesPanelActive == old(alternativesPanelActive)
      ensures !input.overUI && input.ray.HitPart? && input.leftClick ==>
        && currentlySelected == Some(input.ray.part)
        && infoPanelActive == (hasInfoPanel || old(infoPanelActive))
        && calls == old(calls) + SelectCalls(input.ray.part)
      ensures !input.overUI && !(input.ray.HitPart? && input.leftClick) ==>
        && currentlySelected == old(currentlySelected) && infoPanelActive == old(infoPanelActive)
        && calls == old(calls) + (if input.ray.HitOther? then [NullReference] else [])
    {
      if input.overUI {
        return;
      }
      var ok := HandleHighlighting(input.ray);
      if ok {
        HandleSelection(input.leftClick);
      }
    }

    /** Hover update. Line 70 compares the hit `GameObject` with a `PartData`,
        which never compare equal, so every hit restores the previous hover and
        re-applies the highlight, whatever is selected. */
    method HandleHighlighting(ray: Ray) returns (ok: bool)
      modifies this`currentlyHighlighted, this`originalMaterials, this`calls, scene
      ensures old(HoverShown()) ==> HoverShown()
      ensures scene.materials == old(HoverScene(ray)) && originalMaterials == old(HoverSaved(ray))
      ensures ok == !ray.HitOther?
      ensures currentlyHighlighted == (if ray.HitPart? then Some(ray.part) else None)
      ensures calls == old(calls) + (if ray.HitOther? then [NullReference] else [])
    {
      ok := true;
      if !ray.Miss? {
        UnhighlightCurrentObject();
        currentlyHighlighted := if ray.HitPart? then Some(ray.part) else None;
        if currentlyHighlighted.None? {
          calls := calls + [NullReference];
          ok := false;
          return;
        }
        HighlightObject(currentlyHighlighted.value);
      } else {
        UnhighlightCurrentObject();
      }
    }

    /** Lines 86-122 as written. A left click with a hover selects it and shows
        its information (the branch for dropping a different earlier selection
        is empty). The close test on line 117 sits inside the block line 89
        guards with "something is hovered" and asks that nothing is, so it never
        passes: no click closes the info panel. */
    method HandleSelection(leftClick: bool)
      modifies this`currentlySelected, this`infoPanelActive, this`calls
      ensures leftClick && currentlyHighlighted.Some? ==>
        && currentlySelected == currentlyHighlighted
        && infoPanelActive == (hasInfoPanel || old(infoPanelActive))
        && calls == old(calls) + SelectCalls(currentlyHighlighted.value)
      ensures !(leftClick && currentlyHighlighted.Some?) ==> unchanged(this)
      ensures old(infoPanelActive) ==> infoPanelActive
    {
      if leftClick && currentlyHighlighted.Some? {
        SelectHovered();
        if leftClick && currentlyHighlighted.None? && hasInfoPanel && infoPanelActive {
          // Line 119's CloseInfoPanel() would run here, but this guard
          // contradicts the one on line 89.
          assert false;
        }
      }
    }

    /** The selection of lines 92-114: select the hovered part and, with an
        info panel, show and populate it. */
    method SelectHovered()
      requires currentlyHighlighted.Some?
      modifies this`currentlySelected, this`infoPanelActive, this`calls
      ensures currentlySelected == currentlyHighlighted
      ensures infoPanelActive == (hasInfoPanel || old(infoPanelActive))
      ensures calls == old(calls) + SelectCalls(currentlyHighlighted.value)
    {
      currentlySelected := currentlyHighlighted;
      if hasInfoPanel {
        ghost var before := calls;
        infoPanelActive := true;
        calls := calls + [InfoPanelActive(true)];
        PopulateObjectInfo(LiveStats(currentlySelected.value));
        UpdateAlternativesButton();
        assert calls == before + SelectCalls(currentlySelected.value);
      }
    }

    /** Lines 86-122 as the comment on line 116 intends: the close test is
        taken out of the block guarded by line 89, so a left click that hits
        no part while the info panel is shown closes the panels and drops the
        selection. */
    method HandleSelectionCorrected(leftClick: bool)
      modifies this`currentlySelected, this`infoPanelActive, this`alternativesPanelActive, this`calls
      ensures leftClick && currentlyHighlighted.Some? ==>
        && currentlySelected == currentlyHighlighted
        && infoPanelActive == (hasInfoPanel || old(infoPanelActive))
        && alternativesPanelActive == old(alternativesPanelActive)
        && calls == old(calls) + SelectCalls(currentlyHighlighted.value)
      ensures ClosesOnClickElsewhere(leftClick, currentlyHighlighted, hasInfoPanel, old(infoPanelActive)) ==>
        && currentlySelected == None && !infoPanelActive
        && alternativesPanelActive == (old(alternativesPanelActive) && !hasAlternativesPanel)
        && calls == old(calls) + [InfoPanelActive(false)]
                               + (if hasAlternativesPanel then [AlternativesPanelActive(false)] else [])
      ensures !leftClick || (currentlyHighlighted.None? && !(hasInfoPanel && old(infoPanelActive))) ==>
        unchanged(this)
    {
      if leftClick && currentlyHighlighted.Some? {
        SelectHovered();
      }
      if ClosesOnClickElsewhere(leftClick, currentlyHighlighted, hasInfoPanel, infoPanelActive) {
        CloseInfoPanel();
      }
    }

    method CloseInfoPanel()
      modifies this`infoPanelActive, this`alternativesPanelActive, this`currentlySelected, this`calls
      ensures currentlySelected == None
      ensures infoPanelActive == (old(infoPanelActive) && !hasInfoPanel)
      ensures alternativesPanelActive == (old(alternativesPanelActive) && !hasAlternativesPanel)
      ensures calls == old(calls) + (if hasInfoPanel then [InfoPanelActive(false)] else [])
                                  + (if hasAlternativesPanel then [AlternativesPanelActive(false)] else [])
    {
      if hasInfoPanel {
        infoPanelActive := false;
        calls := calls + [InfoPanelActive(false)];
      }
      if hasAlternativesPanel {
        alternativesPanelActive := false;
        calls := calls + [AlternativesPanelActive(false)];
      }
      currentlySelected := None;
    }

    /** Saves the part's renderer materials and covers every slot with the
        highlight; a part without a renderer changes nothing. */
    method HighlightObject(part: PartId)
      modifies this`originalMaterials, scene
      ensures scene.materials == HighlightedPart(old(scene.materials), rendererOf, part, highlightMaterial)
      ensures originalMaterials == if old(HasRenderer(part)) then Some(old(scene.materials)[rendererOf[part]]) else old(originalMaterials)
    {
      if HasRenderer(part) {
        var renderer := rendererOf[part];
        originalMaterials := Some(scene.materials[renderer]);
        var highlightMaterials := FillHighlight(|originalMaterials.value|, highlightMaterial);
        assert highlightMaterials == Fill(|originalMaterials.value|, highlightMaterial);
        scene.materials := scene.materials[renderer := highlightMaterials];
      }
    }

    /** Writes the saved array back to the hovered part's renderer, when it
        has one and an array was saved, and clears the hover. */
    method UnhighlightCurrentObject()
      modifies this`currentlyHighlighted, scene
      ensures currentlyHighlighted == None
      ensures scene.materials == WrittenBack(old(scene.materials), rendererOf, old(currentlyHighlighted), originalMaterials)
    {
      if currentlyHighlighted.Some? {
        var part := currentlyHighlighted.value;
        if HasRenderer(part) && originalMaterials.Some? {
          scene.materials := scene.materials[rendererOf[part] := originalMaterials.value];
        }
        currentlyHighlighted := None;
      }
    }

    method PopulateObjectInfo(source: InfoSource)
      modifies this`calls
      ensures calls == old(calls) + [Populate(source)] + ButtonCalls(hasAlternativesButton, currentlySelected, alternativeCounts)
    {
      calls := calls + [Populate(source)];
      UpdateAlternativesButton();
    }

    method UpdateAlternativesButton()
      modifies this`calls
      ensures calls == old(calls) + ButtonCalls(hasAlternativesButton, currentlySelected, alternativeCounts)
    {
      if !hasAlternativesButton || currentlySelected.None? {
        return;
      }
      var part := currentlySelected.value;
      if part !in alternativeCounts || alternativeCounts[part] == 0 {
        calls := calls + [AlternativesButtonActive(false)];
      } else {
        calls := calls + [AlternativesButtonActive(true)];
      }
    }

    /** Makes `part` both selected and hovered: the same hover update as a
        hit on `part` (the previous hover's renderer gets the saved array
        back, then `part`'s renderer is highlighted). */
    method SetSelectedObject(part: PartId)
      modifies this`currentlySelected, this`currentlyHighlighted, this`originalMaterials, scene
      ensures currentlySelected == Some(part) && currentlyHighlighted == Some(part)
      ensures scene.materials == old(HoverScene(HitPart(part)))
      ensures originalMaterials == old(HoverSaved(HitPart(part)))
      ensures old(HoverShown()) ==> HoverShown()
    {
      currentlySelected := Some(part);
      if currentlyHighlighted.Some? {
        UnhighlightCurrentObject();
      }
      currentlyHighlighted := Some(part);
      HighlightObject(part);
    }
  }
}
