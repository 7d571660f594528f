/** The selection controller of the newer generation (`Parts/BikePartSelector`).

    Each frame reads abstract inputs: whether the pointer is over UI, what the
    pointer ray hit, and the two mouse-button presses. Calls into the camera
    controller, the UI widgets, a part's highlighter and its alternative
    catalog are appended to the log `calls`. Which inspector references are
    assigned is fixed configuration. */
module Selector {
  import opened Common

  /** The nearest hit of this frame's pointer ray. `HitOther` is a collider
      whose object has no `PartData` component. */
  datatype Ray = Miss | HitPart(part: PartId) | HitOther

  datatype Input = Input(overUI: bool, ray: Ray, leftClick: bool, rightClick: bool)

  /** Where the info panel takes its fields from. */
  datatype InfoSource = LiveStats(part: PartId) | Template(part: PartId, index: int)

  datatype Call =
    | RestoreAll(part: PartId)
    | HighlightAll(part: PartId)
    | SetZoomTarget(part: PartId)
    | ReturnToDefaultPosition
    | InfoPanelActive(active: bool)
    | AlternativesPanelActive(active: bool)
    | Populate(source: InfoSource)
    | AlternativesButtonActive(active: bool)
    | SwitchToAlternative(part: PartId, index: int)
    | ClearAlternativeItems
    | CreateItem(item: nat)
    /** `Update` stopped with a `NullReferenceException`. */
    | NullReference

  /** Whether the selected part offers alternatives: it has an
      `AlternativeParts` component with a non-empty list. */
  predicate HasAlternatives(counts: map<PartId, nat>, part: PartId)
  {
    part in counts && counts[part] > 0
  }

  /** What `UpdateAlternativesButton` writes: nothing without a button or a
      selection, otherwise whether the button is shown. */
  function ButtonCalls(hasButton: bool, selected: Option<PartId>, counts: map<PartId, nat>): (c: seq<Call>)
    ensures |c| <= 1
    ensures c != [] <==> hasButton && selected.Some?
    ensures c == [AlternativesButtonActive(true)] <==> hasButton && selected.Some? && HasAlternatives(counts, selected.value)
    ensures c == [AlternativesButtonActive(false)] <==> hasButton && selected.Some? && !HasAlternatives(counts, selected.value)
  {
    if !hasButton || selected.None? then []
    else [AlternativesButtonActive(HasAlternatives(counts, selected.value))]
  }

  /** The items `ShowAlternatives` creates: one per template, in index order,
      each carrying its index (none when no item prefab is assigned). */
  function ItemCalls(n: nat, hasItemPrefab: bool): (c: seq<Call>)
    ensures hasItemPrefab ==> |c| == n && forall i :: 0 <= i < n ==> c[i] == CreateItem(i)
    ensures !hasItemPrefab ==> c == []
  {
    if !hasItemPrefab || n == 0 then [] else ItemCalls(n - 1, hasItemPrefab) + [CreateItem(n - 1)]
  }

  class BikePartSelector {
    const hasInfoPanel: bool
    const hasAlternativesPanel: bool
    const hasAlternativesContainer: bool
    const hasAlternativesButton: bool
    const hasItemPrefab: bool
    /** The parts that carry an `AlternativeParts` component, with its count. */
    const alternativeCounts: map<PartId, nat>

    var currentlyHighlighted: Option<PartId>
    var currentlySelected: Option<PartId>
    /** `objectInfoPanel.activeSelf` */
    var infoPanelActive: bool
    /** `alternativesPanel.activeSelf` */
    var alternativesPanelActive: bool
    var calls: seq<Call>
    /** How many times `DeselectObject` has run. */
    ghost var deselections: nat

    /** The selected part, when there is one, is the hovered part. */
    ghost predicate SelectedIsHovered()
      reads this
    {
      currentlySelected.None? || currentlySelected == currentlyHighlighted
    }

    /** `Start`: both panels hidden, nothing hovered or selected. */
    constructor (hasInfoPanel: bool, hasAlternativesPanel: bool, hasAlternativesContainer: bool,
                 hasAlternativesButton: bool, hasItemPrefab: bool, alternativeCounts: map<PartId, nat>)
      ensures this.hasInfoPanel == hasInfoPanel && this.hasAlternativesPanel == hasAlternativesPanel
      ensures this.hasAlternativesContainer == hasAlternativesContainer
      ensures this.hasAlternativesButton == hasAlternativesButton && this.hasItemPrefab == hasItemPrefab
      ensures this.alternativeCounts == alternativeCounts
      ensures currentlyHighlighted == None && currentlySelected == None
      ensures !infoPanelActive && !alternativesPanelActive && deselections == 0
      ensures SelectedIsHovered()
      ensures calls == (if hasInfoPanel then [InfoPanelActive(false)] else [])
                     + (if hasAlternativesPanel then [AlternativesPanelActive(false)] else [])
    {
      this.hasInfoPanel := hasInfoPanel;
      this.hasAlternativesPanel := hasAlternativesPanel;
      this.hasAlternativesContainer := hasAlternativesContainer;
      this.hasAlternativesButton := hasAlternativesButton;
      this.hasItemPrefab := hasItemPrefab;
      this.alternativeCounts := alternativeCounts;
      currentlyHighlighted := None;
      currentlySelected := None;
      infoPanelActive := false;
      alternativesPanelActive := false;
      calls := (if hasInfoPanel then [InfoPanelActive(false)] else [])
             + (if hasAlternativesPanel then [AlternativesPanelActive(false)] else []);
      deselections := 0;
    }

    /** The hover after the hover update for `ray`: kept while a part is
        selected, otherwise the hit part (none on a miss, and none for a
        collider without a part, where the frame stops). */
    function HoverAfter(selected: Option<PartId>, hovered: Option<PartId>, ray: Ray): Option<PartId>
    {
      if selected.Some? then hovered else if ray.HitPart? then Some(ray.part) else None
    }

    /** What the hover update writes: nothing while a part is selected;
        otherwise the previous hover is restored, then a hit part is
        highlighted or a collider without a part throws. */
    function HoverCalls(selected: Option<PartId>, hovered: Option<PartId>, ray: Ray): seq<Call>
    {
      if selected.Some? then []
      else (if hovered.Some? then [RestoreAll(hovered.value)] else [])
           + (match ray
              case HitPart(p) => [HighlightAll(p)]
              case HitOther => [NullReference]
              case Miss => [])
    }

    /** One frame. Over UI nothing happens; otherwise hover, then selection
        (unless hovering threw). */
    method Update(input: Input)
      modifies this
      ensures input.overUI ==> unchanged(this)
      ensures old(SelectedIsHovered()) ==> SelectedIsHovered() && deselections == old(deselections)
      ensures old(currentlySelected).Some? && !input.leftClick && !input.rightClick ==> unchanged(this)
      ensures !input.overUI ==>
        var h := HoverAfter(old(currentlySelected), old(currentlyHighlighted), input.ray);
        var stopped := old(currentlySelected).None? && input.ray.HitOther?;
        var select := !stopped && input.leftClick && h.Some?;
        var deselect := select && old(currentlySelected).Some? && old(currentlySelected) != h;
        var dismiss := !stopped && input.rightClick && hasInfoPanel && (old(infoPanelActive) || select);
        && calls == old(calls) + HoverCalls(old(currentlySelected), old(currentlyHighlighted), input.ray)
                               + (if select then SelectCalls(old(currentlySelected), h.value) else [])
                               + (if dismiss then DismissCalls(h) else [])
        && currentlySelected == (if dismiss then None else if select then h else old(currentlySelected))
        && currentlyHighlighted == (if dismiss then None else h)
        && infoPanelActive == (if dismiss then false else if select then hasInfoPanel || old(infoPanelActive) else old(infoPanelActive))
        && alternativesPanelActive == (old(alternativesPanelActive) && !((dismiss || deselect) && hasAlternativesPanel))
    {
      if input.overUI {
        return;
      }
      var ok := HandleHighlighting(input.ray);
      if ok {
        HandleSelection(input.leftClick, input.rightClick);
      }
    }

    /** Hover update. Line 65 compares the hit `GameObject` with a `PartData`,
        which never compare equal, so with no selection every hit re-applies
        the highlight. Returns false when the hit object has no `PartData`. */
    method HandleHighlighting(ray: Ray) returns (ok: bool)
      modifies this`currentlyHighlighted, this`calls
      ensures ok == !(currentlySelected.None? && ray.HitOther?)
      ensures currentlyHighlighted == HoverAfter(currentlySelected, old(currentlyHighlighted), ray)
      ensures calls == old(calls) + HoverCalls(currentlySelected, old(currentlyHighlighted), ray)
      ensures currentlySelected.Some? ==> unchanged(this)
    {
      ok := true;
      if !ray.Miss? {
        if currentlySelected.None? {
          if currentlyHighlighted.Some? {
            calls := calls + [RestoreAll(currentlyHighlighted.value)];
          }
          currentlyHighlighted := if ray.HitPart? then Some(ray.part) else None;
          if currentlyHighlighted.None? {
            calls := calls + [NullReference];
            ok := false;
            return;
          }
          calls := calls + [HighlightAll(currentlyHighlighted.value)];
        }
      } else if currentlyHighlighted.Some? && currentlySelected.None? {
        calls := calls + [RestoreAll(currentlyHighlighted.value)];
        currentlyHighlighted := None;
      }
    }

    /** What `CloseInfoPanel` writes: hide whichever panels are assigned. */
    function CloseCalls(): (c: seq<Call>)
    {
      (if hasInfoPanel then [InfoPanelActive(false)] else [])
      + (if hasAlternativesPanel then [AlternativesPanelActive(false)] else [])
    }

    /** What the left-click branch writes when `h` is hovered and `prior` was
        selected: a different earlier selection is dropped with its panels and
        camera; then `h` is zoomed to and, with an info panel, shown and
        populated, the alternatives button being refreshed twice. */
    function SelectCalls(prior: Option<PartId>, h: PartId): seq<Call>
    {
      (if prior.Some? && prior != Some(h) then CloseCalls() + [ReturnToDefaultPosition] else [])
      + [SetZoomTarget(h)]
      + (if hasInfoPanel
         then [InfoPanelActive(true), Populate(LiveStats(h))]
              + ButtonCalls(hasAlternativesButton, Some(h), alternativeCounts)
              + ButtonCalls(hasAlternativesButton, Some(h), alternativeCounts)
         else [])
    }

    /** What the right-click branch writes: the camera returns, the panels
        close, and the hovered part's highlighter is restored. */
    function DismissCalls(hovered: Option<PartId>): seq<Call>
    {
      [ReturnToDefaultPosition] + CloseCalls() + (if hovered.Some? then [RestoreAll(hovered.value)] else [])
    }

    /** Left click selects the hovered part; right click with the info panel
        open (possibly just opened by the left click) returns the camera,
        closes the panels and drops the selection and the hover. Any other
        input changes nothing. */
    method HandleSelection(leftClick: bool, rightClick: bool)
      modifies this
      ensures old(SelectedIsHovered()) ==> SelectedIsHovered() && deselections == old(deselections)
      ensures !leftClick && !rightClick ==> unchanged(this)
      ensures var h := old(currentlyHighlighted);
        var select := leftClick && h.Some?;
        var deselect := select && old(currentlySelected).Some? && old(currentlySelected) != h;
        var dismiss := rightClick && hasInfoPanel && (old(infoPanelActive) || select);
        && calls == old(calls) + (if select then SelectCalls(old(currentlySelected), h.value) else [])
                               + (if dismiss then DismissCalls(h) else [])
        && currentlySelected == (if dismiss then None else if select then h else old(currentlySelected))
        && currentlyHighlighted == (if dismiss then None else h)
        && infoPanelActive == (if dismiss then false else if select then hasInfoPanel || old(infoPanelActive) else old(infoPanelActive))
        && alternativesPanelActive == (old(alternativesPanelActive) && !((dismiss || deselect) && hasAlternativesPanel))
        && deselections == old(deselections) + (if deselect then 1 else 0)
    {
      if leftClick && currentlyHighlighted.Some? {
        SelectHovered();
      }
      if rightClick && hasInfoPanel && infoPanelActive {
        DismissSelection();
      }
    }

    /** The left-click branch: a different earlier selection is dropped with
        its panels and camera, then the hovered part is selected, zoomed to and
        shown in the info panel. */
    method SelectHovered()
      requires currentlyHighlighted.Some?
      modifies this`currentlySelected, this`infoPanelActive, this`alternativesPanelActive, this`calls, this`deselections
      ensures currentlySelected == currentlyHighlighted
      ensures var deselect := old(currentlySelected).Some? && old(currentlySelected) != currentlyHighlighted;
        && deselections == old(deselections) + (if deselect then 1 else 0)
        && infoPanelActive == (hasInfoPanel || old(infoPanelActive))
        && alternativesPanelActive == (old(alternativesPanelActive) && !(deselect && hasAlternativesPanel))
        && calls == old(calls) + SelectCalls(old(currentlySelected), currentlyHighlighted.value)
    {
      ghost var before := calls;
      ghost var deselect := currentlySelected.Some? && currentlySelected != currentlyHighlighted;
      ghost var h := currentlyHighlighted.value;
      if currentlySelected.Some? && currentlySelected != currentlyHighlighted {
        DeselectObject();
        CloseInfoPanel();
        calls := calls + [ReturnToDefaultPosition];
      }
      ghost var dropped := calls;
      assert dropped == before + (if deselect then CloseCalls() + [ReturnToDefaultPosition] else []);
      currentlySelected := currentlyHighlighted;
      FocusSelected();
      assert calls == dropped + [SetZoomTarget(h)]
        + (if hasInfoPanel
           then [InfoPanelActive(true), Populate(LiveStats(h))]
                + ButtonCalls(hasAlternativesButton, Some(h), alternativeCounts)
                + ButtonCalls(hasAlternativesButton, Some(h), alternativeCounts)
           else []);
    }

    /** Lines 101-113: zoom to the new selection, then show and populate the
        info panel when there is one. */
    method FocusSelected()
      requires currentlySelected.Some?
      modifies this`infoPanelActive, this`calls
      ensures infoPanelActive == (hasInfoPanel || old(infoPanelActive))
      ensures calls == old(calls) + [SetZoomTarget(currentlySelected.value)]
        + (if hasInfoPanel
           then [InfoPanelActive(true), Populate(LiveStats(currentlySelected.value))]
                + ButtonCalls(hasAlternativesButton, currentlySelected, alternativeCounts)
                + ButtonCalls(hasAlternativesButton, currentlySelected, alternativeCounts)
           else [])
    {
      calls := calls + [SetZoomTarget(currentlySelected.value)];
      if hasInfoPanel {
        ghost var zoomed := calls;
        ghost var button := ButtonCalls(hasAlternativesButton, currentlySelected, alternativeCounts);
        infoPanelActive := true;
        calls := calls + [InfoPanelActive(true)];
        PopulateObjectInfo(LiveStats(currentlySelected.value));
        UpdateAlternativesButton();
        assert calls == zoomed + ([InfoPanelActive(true), Populate(LiveStats(currentlySelected.value))] + button + button);
      }
    }

    /** The right-click branch, taken while the info panel is shown. */
    method DismissSelection()
      modifies this`currentlySelected, this`currentlyHighlighted, this`infoPanelActive, this`alternativesPanelActive, this`calls
      ensures currentlySelected == None && currentlyHighlighted == None
      ensures infoPanelActive == (old(infoPanelActive) && !hasInfoPanel)
      ensures alternativesPanelActive == (old(alternativesPanelActive) && !hasAlternativesPanel)
      ensures calls == old(calls) + DismissCalls(old(currentlyHighlighted))
    {
      calls := calls + [ReturnToDefaultPosition];
      CloseInfoPanel();
      if currentlyHighlighted.Some? {
        calls := calls + [RestoreAll(currentlyHighlighted.value)];
      }
      currentlyHighlighted := None;
    }

    method CloseInfoPanel()
      modifies this`infoPanelActive, this`alternativesPanelActive, this`currentlySelected, this`calls
      ensures currentlySelected == None
      ensures infoPanelActive == (old(infoPanelActive) && !hasInfoPanel)
      ensures alternativesPanelActive == (old(alternativesPanelActive) && !hasAlternativesPanel)
      ensures calls == old(calls) + CloseCalls()
    {
      if hasInfoPanel {
        infoPanelActive := false;
        calls := calls + [InfoPanelActive(false)];
      }
      if hasAlternativesPanel {
        alternativesPanelActive := false;
        calls := calls + [AlternativesPanelActive(false)];
      }
      currentlySelected := None;
    }

    /** Pushes a stats record to the info widgets, then refreshes the button. */
    method PopulateObjectInfo(source: InfoSource)
      modifies this`calls
      ensures calls == old(calls) + [Populate(source)] + ButtonCalls(hasAlternativesButton, currentlySelected, alternativeCounts)
    {
      calls := calls + [Populate(source)];
      UpdateAlternativesButton();
    }

    method UpdateAlternativesButton()
      modifies this`calls
      ensures calls == old(calls) + ButtonCalls(hasAlternativesButton, currentlySelected, alternativeCounts)
    {
      if !hasAlternativesButton || currentlySelected.None? {
        return;
      }
      var part := currentlySelected.value;
      if part !in alternativeCounts || alternativeCounts[part] == 0 {
        calls := calls + [AlternativesButtonActive(false)];
      } else {
        calls := calls + [AlternativesButtonActive(true)];
      }
    }

    /** Selects and highlights `part` after restoring the previous hover. */
    method SetSelectedObject(part: PartId)
      modifies this`currentlySelected, this`currentlyHighlighted, this`calls
      ensures currentlySelected == Some(part) && currentlyHighlighted == Some(part)
      ensures SelectedIsHovered()
      ensures calls == old(calls) + (if old(currentlyHighlighted).Some? then [RestoreAll(old(currentlyHighlighted).value)] else [])
                                  + [HighlightAll(part)]
    {
      currentlySelected := Some(part);
      if currentlyHighlighted.Some? {
        calls := calls + [RestoreAll(currentlyHighlighted.value)];
      }
      currentlyHighlighted := Some(part);
      calls := calls + [HighlightAll(part)];
    }

    method DeselectObject()
      modifies this`currentlySelected, this`deselections
      ensures currentlySelected == None && deselections == old(deselections) + 1
    {
      currentlySelected := None;
      deselections := deselections + 1;
    }

    /** Lists the selected part's alternatives, one item per template index. */
    method ShowAlternatives()
      modifies this`calls, this`alternativesPanelActive
      ensures (currentlySelected.None? || !hasAlternativesPanel || !hasAlternativesContainer
               || !HasAlternatives(alternativeCounts, currentlySelected.value)) ==> unchanged(this)
      ensures currentlySelected.Some? && hasAlternativesPanel && hasAlternativesContainer
              && HasAlternatives(alternativeCounts, currentlySelected.value) ==>
        && alternativesPanelActive
        && calls == old(calls) + [ClearAlternativeItems]
                               + ItemCalls(alternativeCounts[currentlySelected.value], hasItemPrefab)
                               + [AlternativesPanelActive(true)]
    {
      if currentlySelected.None? || !hasAlternativesPanel || !hasAlternativesContainer {
        return;
      }
      var part := currentlySelected.value;
      if part !in alternativeCounts {
        return;
      }
      var count := alternativeCounts[part];
      if count == 0 {
        return;
      }
      calls := calls + [ClearAlternativeItems];
      ghost var start := calls;
      for i := 0 to count
        invariant calls == start + ItemCalls(i, hasItemPrefab)
      {
        CreateAlternativeItem(i);
      }
      alternativesPanelActive := true;
      calls := calls + [AlternativesPanelActive(true)];
    }

    method CreateAlternativeItem(index: nat)
      modifies this`calls
      ensures calls == old(calls) + (if hasItemPrefab && hasAlternativesContainer then [CreateItem(index)] else [])
    {
      if !hasItemPrefab || !hasAlternativesContainer {
        return;
      }
      calls := calls + [CreateItem(index)];
    }

    /** The buy button of item `index`: swap first, then show the live stats. */
    method BuyPart(index: int)
      modifies this`calls
      ensures var sel := currentlySelected;
        if sel.None? || sel.value !in alternativeCounts then calls == old(calls)
        else calls == old(calls) + [SwitchToAlternative(sel.value, index), Populate(LiveStats(sel.value))]
                                 + ButtonCalls(hasAlternativesButton, sel, alternativeCounts)
    {
      if currentlySelected.None? || currentlySelected.value !in alternativeCounts {
        return;
      }
      calls := calls + [SwitchToAlternative(currentlySelected.value, index)];
      PopulateObjectInfo(LiveStats(currentlySelected.value));
    }

    /** The info button of item `index`: previews the template without a swap.
        The template lookup is unchecked, so the index must be in range. */
    method ShowPartInformation(index: int)
      requires currentlySelected.Some? && currentlySelected.value in alternativeCounts ==>
                 0 <= index < alternativeCounts[currentlySelected.value]
      modifies this`calls
      ensures var sel := currentlySelected;
        if sel.None? || sel.value !in alternativeCounts then calls == old(calls)
        else calls == old(calls) + [Populate(Template(sel.value, index))]
                                 + ButtonCalls(hasAlternativesButton, sel, alternativeCounts)
    {
      if currentlySelected.None? || currentlySelected.value !in alternativeCounts {
        return;
      }
      PopulateObjectInfo(Template(currentlySelected.value, index));
    }

    method CloseAlternativesPanel()
      modifies this`calls, this`alternativesPanelActive
      ensures alternativesPanelActive == (old(alternativesPanelActive) && !hasAlternativesPanel)
      ensures calls == old(calls) + (if hasAlternativesPanel then [AlternativesPanelActive(false)] else [])
    {
      if hasAlternativesPanel {
        alternativesPanelActive := false;
        calls := calls + [AlternativesPanelActive(false)];
      }
    }
  }
}
