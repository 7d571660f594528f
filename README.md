# Bike part customisation: verified model

This project models the bookkeeping behind the bike-customisation prototype's
part inspection screen. It covers:

- hovering and selecting parts with the pointer;
- highlighting a part's renderers and restoring their materials;
- the stats record of a part and its wear (damage, repair, reset);
- swapping a part for one of its alternative templates, including the
  replacement of its visual model;
- grouping the parts of the scene by type and switching between them.

The repository holds two generations of most classes. Each generation has its
own modules here.

| module | file | models |
|---|---|---|
| `Common` | common.dfy | shared ids and `Option` |
| `Durability` | durability.dfy | the damage and repair clamps both `PartData` classes use |
| `Highlighting` | highlighting.dfy | the scene's renderer slots (`Scene`) and `PartHighlighter` |
| `Parts` | parts.dfy | newer `PartStats` and `PartData` |
| `Alternatives` | alternatives.dfy | newer `AlternativeParts`, with its highlighter |
| `Selector` | selector.dfy | newer `BikePartSelector` |
| `LegacyParts` | legacy_parts.dfy | older `PartStats` and `PartData` |
| `LegacyAlternatives` | legacy_alternatives.dfy | older `AlternativeParts` (child named "Model") |
| `LegacySelector` | legacy_selector.dfy | older `BikePartSelector` (single-renderer highlight) |
| `PartSwitching` | part_switcher.dfy | `PartSwitcher` |

## How the engine is represented

- **Renderers.** A renderer is an id. `Highlighting.Scene.materials` maps each
  live renderer to its material slot array. A renderer Unity treats as null
  (never created, or destroyed) is one whose id is not in that map.
- **Engine and UI calls.** Calls into the engine or the UI are recorded in
  logs: `events` on the alternative catalogs and on the switcher, `calls` on
  the selectors. The log is ghost where nothing reads it back.
- **Deferred Destroy.** Unity's `Destroy` takes effect only at the end of the
  frame. Each alternative catalog therefore records the children destroyed
  during the frame in `destroyed`, and a destroyed child stays in the child
  list until `EndOfFrame` runs. `EndOfFrame` stands for the engine's end of
  frame: it removes the destroyed children and, in the newer catalog, the
  renderers under them (`ownerOf` says which child each renderer sits
  under).
- **Frame inputs.** Each frame's inputs are abstract:
  - whether the pointer is over UI;
  - what the pointer ray hit (`Ray`: a miss, a part, or a collider without a
    `PartData`);
  - the two mouse-button presses.
- **Unassigned inspector references.** An inspector reference that the code
  checks for null is a boolean configuration constant.
- **New objects.** The objects `Instantiate` creates are parameters: a fresh
  id and, for a model, its renderers and their slots.
- **Exceptions.** A `NullReferenceException` that stops a frame is recorded
  as a `NullReference` call, and the rest of the frame is skipped.

### Behaviour worth knowing

- **Highlight then restore.** `RestoreAll` does not give back the state from
  just before `HighlightAll`. It writes back the arrays recorded when each
  renderer was first tracked. `Highlighting.HighlightThenRestore` proves
  what the code does:
  - highlight-then-restore equals restore alone;
  - it gives back the earlier state exactly when every live tracked renderer
    still showed its recorded arrays.
- **The always-true comparison.** Both selectors compare the hit `GameObject`
  with a `PartData` (`hitObject != currentlyHighlighted`). Those are never
  equal. So every frame whose ray hits re-restores and re-highlights, and in
  the older selector this happens even while a part is selected. The model
  follows the code.

## Model

| member | source | states |
|---|---|---|
| `Durability.AfterDamage` | B360BikeGame/Assets/Scripts/Parts/PartData.cs:26 | damage never takes durability below zero; the result is zero or the plain difference |
| `Durability.Breaks` | B360BikeGame/Assets/Scripts/Parts/PartData.cs:26-31 | the breaking handler runs exactly when the damage is at least the current durability |
| `Durability.AfterRepair` | B360BikeGame/Assets/Scripts/Parts/PartData.cs:37 | repair never raises durability above the record's maximum; the result is the maximum or the plain sum |
| `Durability.ClampsKeepRange` | B360BikeGame/Assets/Scripts/Parts/PartData.cs:24-38 | with non-negative amounts, damage and repair keep `0 <= current <= max` |
| `Durability.DamageBreaksExactlyAtZero` | B360BikeGame/Assets/Scripts/Parts/PartData.cs:26-31 | the part breaks exactly when damage leaves it at zero |
| `Durability.RepairMonotone` | B360BikeGame/Assets/Scripts/Parts/PartData.cs:35-38 | a non-negative repair never lowers durability, and a large enough one restores the maximum |
| `Parts.NewPartStats` | B360BikeGame/Assets/Scripts/Parts/PartStats.cs:4-25 | a fresh record has durability 100, price 10, description "Part description", weight 1, rarity 0 and type "Type" |
| `Parts.PartData.constructor` | B360BikeGame/Assets/Scripts/Parts/PartData.cs:15-21 | after `Awake`, current durability equals the record's durability |
| `Parts.PartData.TakeDamage` | B360BikeGame/Assets/Scripts/Parts/PartData.cs:24-32 | durability becomes the clamped difference and is never negative; the break is reported exactly at zero; the range is kept for non-negative damage |
| `Parts.PartData.Repair` | B360BikeGame/Assets/Scripts/Parts/PartData.cs:35-38 | durability becomes the clamped sum, never above the maximum; the range is kept for non-negative repair |
| `Parts.PartData.ResetDurability` | B360BikeGame/Assets/Scripts/Parts/PartData.cs:40-43 | durability is the maximum, whatever it was before |
| `Parts.PartData.SetPrice` | B360BikeGame/Assets/Scripts/Parts/PartData.cs:60-64 | the setter writes only the record's price, and the getter then reads the value set |
| `LegacyParts.NewPartStats` | B360BikeGame/Assets/Scripts/PartData.cs:4-24 | a fresh record has durability 100, price 10, description "Alternative description" and type "Type" |
| `LegacyParts.PartData.constructor` | B360BikeGame/Assets/Scripts/PartData.cs:33-37 | current durability starts at the record's durability |
| `LegacyParts.PartData.TakeDamage` | B360BikeGame/Assets/Scripts/PartData.cs:40-48 | damage clamps at zero and the break is reported exactly at zero |
| `LegacyParts.PartData.Repair` | B360BikeGame/Assets/Scripts/PartData.cs:51-54 | repair clamps at the record's maximum |
| `LegacyParts.PartData.ResetDurability` | B360BikeGame/Assets/Scripts/PartData.cs:56-59 | durability is the maximum |
| `LegacyParts.PartData.SetPrice` | B360BikeGame/Assets/Scripts/PartData.cs:76-80 | the price property forwards to the record's price and round-trips |
| `Highlighting.Scene.Spawn` | B360BikeGame/Assets/Scripts/Parts/AlternativeParts.cs:83 | an instantiated model adds its fresh renderers with their slots and keeps every other renderer as it was |
| `Highlighting.Fill` | B360BikeGame/Assets/Scripts/Parts/PartHighlighter.cs:74-78 | the highlight array has the renderer's slot count and the highlight material in every slot |
| `Highlighting.FillHighlight` | B360BikeGame/Assets/Scripts/Parts/PartHighlighter.cs:74-78 | the loop builds an array of length n with the highlight material in every slot |
| `Highlighting.Without` | B360BikeGame/Assets/Scripts/Parts/PartHighlighter.cs:49 | after removal, the list holds exactly the other renderers it held |
| `Highlighting.WithoutKeepsNoDup` | B360BikeGame/Assets/Scripts/Parts/PartHighlighter.cs:48-49 | removing a renderer keeps the tracked list free of duplicates |
| `Highlighting.AddedMembers` | B360BikeGame/Assets/Scripts/Parts/PartHighlighter.cs:30-36 | after a series of adds, a renderer is tracked exactly when it was before, or it was added and is live |
| `Highlighting.AddedExtends` | B360BikeGame/Assets/Scripts/Parts/PartHighlighter.cs:20-36 | adds only append to the tracked list and never create a duplicate |
| `Highlighting.HighlightThenRestore` | B360BikeGame/Assets/Scripts/Parts/PartHighlighter.cs:66-94 | `HighlightAll` then `RestoreAll` equals `RestoreAll` alone, and gives back the scene exactly when every live tracked renderer showed its originals |
| `Highlighting.HighlightedShows` | B360BikeGame/Assets/Scripts/Parts/PartHighlighter.cs:43 | after `HighlightAll`, a tracked renderer keeps its slot count and reads as highlighted through its first slot |
| `Highlighting.PartHighlighter.constructor` | B360BikeGame/Assets/Scripts/Parts/PartHighlighter.cs:14-18 | `Awake` tracks the live child renderers once each, recording their current slots |
| `Highlighting.PartHighlighter.AddRenderer` | B360BikeGame/Assets/Scripts/Parts/PartHighlighter.cs:20-29 | a null or tracked renderer changes nothing (its originals are not overwritten); a new one is appended with its current slots recorded |
| `Highlighting.PartHighlighter.AddMultipleRenderers` | B360BikeGame/Assets/Scripts/Parts/PartHighlighter.cs:30-36 | the list is the one-at-a-time adds of the input; earlier originals are kept and new ones are the renderers' current slots |
| `Highlighting.PartHighlighter.RemoveRenderer` | B360BikeGame/Assets/Scripts/Parts/PartHighlighter.cs:37-50 | an untracked renderer changes nothing; a tracked one gets its originals back only if its first slot shows the highlight, then leaves the list and the dictionary |
| `Highlighting.PartHighlighter.ClearAllRenderers` | B360BikeGame/Assets/Scripts/Parts/PartHighlighter.cs:51-60 | every tracked renderer is restored, then nothing is tracked and the dictionary is empty |
| `Highlighting.PartHighlighter.SetNewRenders` | B360BikeGame/Assets/Scripts/Parts/PartHighlighter.cs:61-65 | the new model's renderers are added without clearing the existing ones |
| `Highlighting.PartHighlighter.HighlightAll` | B360BikeGame/Assets/Scripts/Parts/PartHighlighter.cs:66-82 | every live tracked renderer gets an all-highlight array of its own length, and nothing else changes |
| `Highlighting.PartHighlighter.RestoreAll` | B360BikeGame/Assets/Scripts/Parts/PartHighlighter.cs:83-94 | every live tracked renderer gets its recorded originals back, and nothing else changes |
| `Highlighting.PartHighlighter.HighlightSingleRenderer` | B360BikeGame/Assets/Scripts/Parts/PartHighlighter.cs:95-108 | only the named tracked renderer is highlighted; an untracked one changes nothing |
| `Highlighting.PartHighlighter.RestoreSingleRenderer` | B360BikeGame/Assets/Scripts/Parts/PartHighlighter.cs:109-115 | only the named tracked renderer is restored; an untracked one changes nothing |
| `Alternatives.Swapped` | B360BikeGame/Assets/Scripts/Parts/AlternativeParts.cs:42-49 | the swap copies all eight template fields and keeps the live part type |
| `Alternatives.ReplaceEvents` | B360BikeGame/Assets/Scripts/Parts/AlternativeParts.cs:74-90 | five events with a child and four without: the tracker is cleared first, then child 0 is destroyed if any, then the model is instantiated, placed and its renderers tracked, in that order |
| `Alternatives.AddedFresh` | B360BikeGame/Assets/Scripts/Parts/AlternativeParts.cs:90 | re-tracking fresh, distinct renderers on an empty tracker tracks exactly those renderers |
| `Alternatives.AlternativeParts.constructor` | B360BikeGame/Assets/Scripts/Parts/AlternativeParts.cs:15-18 | the catalog keeps its templates, its part, its highlighter and the children of `Visuals` with the renderers under them; nothing is destroyed yet |
| `Alternatives.AlternativeParts.GetAlternativesCount` | B360BikeGame/Assets/Scripts/Parts/AlternativeParts.cs:19-22 | the count is the length of the catalog |
| `Alternatives.AlternativeParts.GetAAlternative` | B360BikeGame/Assets/Scripts/Parts/AlternativeParts.cs:27-30 | the template at a valid index is that element of the catalog |
| `Alternatives.AlternativeParts.SwitchToAlternative` | B360BikeGame/Assets/Scripts/Parts/AlternativeParts.cs:32-60 | an out-of-range index changes nothing at all; in range the stats are swapped and durability reset to the template's; without a prefab or a highlighter the model is left alone; otherwise it is replaced as `ReplaceModel` states |
| `Alternatives.AlternativeParts.ReplaceModel` | B360BikeGame/Assets/Scripts/Parts/AlternativeParts.cs:61-92 | without a highlighter nothing changes; otherwise the events come in `ReplaceEvents` order, child 0 is marked destroyed, the new instance is appended and owns the new renderers, the scene gains exactly those renderers with their slots, the old ones are restored, and the tracker holds exactly the new ones |
| `Alternatives.AlternativeParts.RemoveOldModel` | B360BikeGame/Assets/Scripts/Parts/AlternativeParts.cs:73-80 | the tracker is emptied with every renderer restored, then child 0 is destroyed (marked, still listed) if there is one |
| `Alternatives.AlternativeParts.AddNewModel` | B360BikeGame/Assets/Scripts/Parts/AlternativeParts.cs:82-90 | the new instance becomes the last child and owns its renderers, which enter the scene and are tracked with their slots; other renderers keep their slots |
| `Alternatives.AlternativeParts.EndOfFrame` | B360BikeGame/Assets/Scripts/Parts/AlternativeParts.cs:79 | once the frame ends the destroyed children leave `Visuals` in order, the renderers under them leave the scene, the others keep their slots, and nothing is pending |
| `Alternatives.Surviving` | B360BikeGame/Assets/Scripts/Parts/AlternativeParts.cs:79 | a child is left after the frame exactly when it was a child and was not destroyed |
| `Alternatives.Dropped` | B360BikeGame/Assets/Scripts/Parts/AlternativeParts.cs:79 | a renderer is live after the frame exactly when it was live and the child it sits under was not destroyed; survivors keep their slots |
| `Alternatives.Owning` | B360BikeGame/Assets/Scripts/Parts/AlternativeParts.cs:83 | the instantiated model's renderers sit under the new instance; every other renderer keeps its owner |
| `Alternatives.SurvivingAppend` | B360BikeGame/Assets/Scripts/Parts/AlternativeParts.cs:79-83 | dropping destroyed children commutes with appending, so the order of the survivors is kept |
| `Alternatives.SurvivingUntouched` | B360BikeGame/Assets/Scripts/Parts/AlternativeParts.cs:79 | a list with no destroyed child survives whole |
| `Alternatives.SwapThenFrame` | B360BikeGame/Assets/Scripts/Parts/AlternativeParts.cs:77-83 | after a swap and the end of the frame, the children are the old ones without child 0, followed by the new instance |
| `Alternatives.NextSwapDestroysPrevious` | B360BikeGame/Assets/Scripts/Parts/AlternativeParts.cs:74-90 | with one model under `Visuals`, the swap after the frame ends destroys the instance the previous swap created |
| `LegacyAlternatives.FindChild` | B360BikeGame/Assets/Scripts/PartAlts/AlternativeParts.cs:68 | `Find` answers the first child with the name, and nothing when no child has it |
| `LegacyAlternatives.Swapped` | B360BikeGame/Assets/Scripts/PartAlts/AlternativeParts.cs:40-47 | the same eight fields are copied, and the type is kept |
| `LegacyAlternatives.ReplaceEvents` | B360BikeGame/Assets/Scripts/PartAlts/AlternativeParts.cs:67-81 | an existing "Model" child is destroyed before the new instance is created and placed |
| `LegacyAlternatives.FindAfterReplace` | B360BikeGame/Assets/Scripts/PartAlts/AlternativeParts.cs:68-76 | because `Destroy` is deferred, `Find("Model")` still answers the old model in the same frame, and the new one only when there was none |
| `LegacyAlternatives.AlternativeParts.constructor` | B360BikeGame/Assets/Scripts/PartAlts/AlternativeParts.cs:12-15 | the catalog keeps its templates, its part and its children; nothing is destroyed yet |
| `LegacyAlternatives.AlternativeParts.GetAlternativesCount` | B360BikeGame/Assets/Scripts/PartAlts/AlternativeParts.cs:17-20 | the count is the length of the catalog |
| `LegacyAlternatives.AlternativeParts.GetAAlternative` | B360BikeGame/Assets/Scripts/PartAlts/AlternativeParts.cs:25-28 | the template at a valid index is that element of the catalog |
| `LegacyAlternatives.AlternativeParts.SwitchToAlternative` | B360BikeGame/Assets/Scripts/PartAlts/AlternativeParts.cs:30-58 | an out-of-range index is a complete no-op; in range the stats are swapped and durability reset; without a prefab the children are untouched; with one the model is replaced as `ReplaceModel` states |
| `LegacyAlternatives.AlternativeParts.ReplaceModel` | B360BikeGame/Assets/Scripts/PartAlts/AlternativeParts.cs:59-82 | the child `Find("Model")` answers is marked destroyed (it stays listed); the new instance is appended as a child named "Model" with an identity local transform |
| `LegacyAlternatives.AlternativeParts.EndOfFrame` | B360BikeGame/Assets/Scripts/PartAlts/AlternativeParts.cs:71 | once the frame ends the destroyed children leave the transform in order, and nothing is pending |
| `LegacyAlternatives.SurvivingChildren` | B360BikeGame/Assets/Scripts/PartAlts/AlternativeParts.cs:71 | a child is left after the frame exactly when it was a child and was not destroyed |
| `LegacyAlternatives.SurvivingChildrenAppend` | B360BikeGame/Assets/Scripts/PartAlts/AlternativeParts.cs:71-75 | dropping destroyed children commutes with appending, so the order of the survivors is kept |
| `LegacyAlternatives.SurvivingChildrenUnique` | B360BikeGame/Assets/Scripts/PartAlts/AlternativeParts.cs:71 | dropping children keeps their ids distinct |
| `LegacyAlternatives.FoundModel` | B360BikeGame/Assets/Scripts/PartAlts/AlternativeParts.cs:68-72 | `ReplaceModel` destroys at most one child |
| `LegacyAlternatives.NoModelSurvives` | B360BikeGame/Assets/Scripts/PartAlts/AlternativeParts.cs:68-72 | with distinct ids and at most one "Model" child, no "Model" child is left once the frame ends |
| `LegacyAlternatives.AppendFreshModel` | B360BikeGame/Assets/Scripts/PartAlts/AlternativeParts.cs:75-76 | appending a fresh "Model" child where there is none keeps ids distinct and leaves exactly one "Model" child |
| `LegacyAlternatives.FindAfterFrame` | B360BikeGame/Assets/Scripts/PartAlts/AlternativeParts.cs:68-76 | after a swap and the end of the frame, `Find("Model")` answers the new instance, which is the only "Model" child, so the next swap destroys it |
| `Selector.ButtonCalls` | B360BikeGame/Assets/Scripts/Parts/BikePartSelector.cs:169-183 | with a button and a selection, the button is shown exactly when the part has alternatives and hidden exactly when it has none; otherwise nothing is written |
| `Selector.ItemCalls` | B360BikeGame/Assets/Scripts/Parts/BikePartSelector.cs:220-224 | one item per template index, in order, when an item prefab is assigned |
| `Selector.BikePartSelector.constructor` | B360BikeGame/Assets/Scripts/Parts/BikePartSelector.cs:29-45 | `Start` hides both panels with nothing hovered or selected, so "selected is null or hovered" holds |
| `Selector.BikePartSelector.Update` | B360BikeGame/Assets/Scripts/Parts/BikePartSelector.cs:46-53 | a frame over UI changes nothing; otherwise the calls, selection, hover and both panels are those of the hover update followed, unless it threw, by the selection update; every frame keeps "selected is null or hovered" and never deselects; a selection is stable without clicks |
| `Selector.BikePartSelector.HandleHighlighting` | B360BikeGame/Assets/Scripts/Parts/BikePartSelector.cs:54-83 | with a selection nothing changes; otherwise a hit restores the old hover and highlights the hit part, a collider without a part throws and stops the frame, and a miss restores and clears the hover |
| `Selector.BikePartSelector.HandleSelection` | B360BikeGame/Assets/Scripts/Parts/BikePartSelector.cs:84-125 | a left click selects the hovered part (dropping a different earlier selection); a right click with the info panel open, or just opened, returns the camera, closes the panels and clears selection and hover; the calls and panel flags are stated for every input; "selected is null or hovered" is kept, so the deselect branch never runs |
| `Selector.BikePartSelector.SelectHovered` | B360BikeGame/Assets/Scripts/Parts/BikePartSelector.cs:87-114 | a different earlier selection is dropped with its panels and camera; the hovered part is selected and zoomed to, then the info panel is shown and populated from the live stats |
| `Selector.BikePartSelector.FocusSelected` | B360BikeGame/Assets/Scripts/Parts/BikePartSelector.cs:101-113 | the camera zooms to the selection, then the info panel, when assigned, is shown and populated and the button refreshed twice |
| `Selector.BikePartSelector.DismissSelection` | B360BikeGame/Assets/Scripts/Parts/BikePartSelector.cs:117-124 | the camera returns, the panels close, the hovered part is restored, and selection and hover are cleared |
| `Selector.BikePartSelector.CloseInfoPanel` | B360BikeGame/Assets/Scripts/Parts/BikePartSelector.cs:126-135 | the assigned panels are hidden and the selection is cleared |
| `Selector.BikePartSelector.PopulateObjectInfo` | B360BikeGame/Assets/Scripts/Parts/BikePartSelector.cs:136-168 | the stats are shown, then the alternatives button is refreshed |
| `Selector.BikePartSelector.UpdateAlternativesButton` | B360BikeGame/Assets/Scripts/Parts/BikePartSelector.cs:169-183 | the button shows exactly when the selected part has a non-empty catalog |
| `Selector.BikePartSelector.SetSelectedObject` | B360BikeGame/Assets/Scripts/Parts/BikePartSelector.cs:184-195 | the part becomes both selected and hovered, after the previous hover is restored |
| `Selector.BikePartSelector.DeselectObject` | B360BikeGame/Assets/Scripts/Parts/BikePartSelector.cs:196-199 | the selection is cleared |
| `Selector.BikePartSelector.ShowAlternatives` | B360BikeGame/Assets/Scripts/Parts/BikePartSelector.cs:200-228 | without a selection, panel, container or alternatives nothing happens; otherwise the old items go, one item per index is created, and the panel is shown |
| `Selector.BikePartSelector.CreateAlternativeItem` | B360BikeGame/Assets/Scripts/Parts/BikePartSelector.cs:229-254 | an item is created only when the prefab and the container are assigned |
| `Selector.BikePartSelector.BuyPart` | B360BikeGame/Assets/Scripts/Parts/BikePartSelector.cs:255-269 | without a selection or catalog nothing happens; otherwise the swap comes first, then the live stats are shown |
| `Selector.BikePartSelector.ShowPartInformation` | B360BikeGame/Assets/Scripts/Parts/BikePartSelector.cs:270-280 | without a selection or catalog nothing happens; otherwise the template is shown without a swap |
| `Selector.BikePartSelector.CloseAlternativesPanel` | B360BikeGame/Assets/Scripts/Parts/BikePartSelector.cs:281-285 | the panel is hidden when assigned |
| `LegacySelector.WrittenBack` | B360BikeGame/Assets/Scripts/BikePartSelector.cs:151-164 | the unhighlight writes the saved array to the hovered part's renderer, when both exist, and leaves every other renderer as it was |
| `LegacySelector.HighlightedPart` | B360BikeGame/Assets/Scripts/BikePartSelector.cs:133-150 | the highlight covers every slot of the part's renderer, when it has one, and leaves every other renderer as it was |
| `LegacySelector.HoverMoveRestores` | B360BikeGame/Assets/Scripts/BikePartSelector.cs:59-85 | moving the hover from `a` to `b` leaves no trace of `a`'s highlight: every renderer but `b`'s shows what it showed before `a` was hovered, and `b`'s shows the highlight |
| `LegacySelector.BikePartSelector.constructor` | B360BikeGame/Assets/Scripts/BikePartSelector.cs:33-49 | `Start` hides the panels, with nothing hovered, selected or saved |
| `LegacySelector.BikePartSelector.Update` | B360BikeGame/Assets/Scripts/BikePartSelector.cs:50-58 | a frame over UI changes nothing; otherwise the scene, the saved array and the hover are those of the hover update for the ray, whatever is selected; a left click on a part selects it with its calls; no frame closes the info panel |
| `LegacySelector.BikePartSelector.HandleHighlighting` | B360BikeGame/Assets/Scripts/BikePartSelector.cs:59-85 | the old hover's renderer gets its saved array back and a hit part's renderer is highlighted, its array saved; a collider without a part throws and stops the frame; the hovered renderer keeps showing the highlight |
| `LegacySelector.BikePartSelector.HandleSelection` | B360BikeGame/Assets/Scripts/BikePartSelector.cs:86-122 | as written: a left click with a hover selects it and shows its information, any other input changes nothing, and no input closes an open info panel (see Findings) |
| `LegacySelector.BikePartSelector.SelectHovered` | B360BikeGame/Assets/Scripts/BikePartSelector.cs:92-113 | the hovered part is selected and, with an info panel, the panel is shown and populated and the button refreshed twice |
| `LegacySelector.BikePartSelector.HandleSelectionCorrected` | B360BikeGame/Assets/Scripts/BikePartSelector.cs:86-122 | as line 116 intends: a left click that hits no part while the info panel is shown closes the panels and drops the selection; a left click on a part selects it; other inputs change nothing |
| `LegacySelector.BikePartSelector.CloseInfoPanel` | B360BikeGame/Assets/Scripts/BikePartSelector.cs:123-132 | the assigned panels are hidden and the selection is cleared |
| `LegacySelector.BikePartSelector.HighlightObject` | B360BikeGame/Assets/Scripts/BikePartSelector.cs:133-150 | the renderer's slots are saved in the single field and replaced by a same-length all-highlight array; no renderer, no change |
| `LegacySelector.BikePartSelector.UnhighlightCurrentObject` | B360BikeGame/Assets/Scripts/BikePartSelector.cs:151-164 | the saved array is written back when there is a renderer and a saved array, and the hover is cleared |
| `LegacySelector.BikePartSelector.PopulateObjectInfo` | B360BikeGame/Assets/Scripts/BikePartSelector.cs:165-197 | the stats are shown, then the alternatives button is refreshed |
| `LegacySelector.BikePartSelector.UpdateAlternativesButton` | B360BikeGame/Assets/Scripts/BikePartSelector.cs:198-212 | the button shows exactly when the selected part has a non-empty catalog |
| `LegacySelector.BikePartSelector.SetSelectedObject` | B360BikeGame/Assets/Scripts/BikePartSelector.cs:213-224 | the part becomes selected and hovered; the scene and the saved array are those of a hover update hitting the part, so the previous hover is unhighlighted and the part shows the highlight |
| `PartSwitching.GroupedByType` | B360BikeGame/Assets/Scripts/PartSwitcher.cs:28-48 | the dictionary's keys are exactly the types present, and each list holds the objects of its type in the order the engine returns them |
| `PartSwitching.GroupedKeys` | B360BikeGame/Assets/Scripts/PartSwitcher.cs:37-47 | a type is a key exactly when some object has it |
| `PartSwitching.GroupedLists` | B360BikeGame/Assets/Scripts/PartSwitcher.cs:37-47 | each key's list is the objects of that type in the order the engine returns them |
| `PartSwitching.OfTypeMembership` | B360BikeGame/Assets/Scripts/PartSwitcher.cs:37-47 | every part is in the list of its own type and in no other |
| `PartSwitching.OfTypeIds` | B360BikeGame/Assets/Scripts/PartSwitcher.cs:37-47 | a type's list holds only objects of that type |
| `PartSwitching.OfTypeKeepsOrder` | B360BikeGame/Assets/Scripts/PartSwitcher.cs:37-46 | of two objects of one type, the one the engine returns first comes first in the list |
| `PartSwitching.OfTypeDistinct` | B360BikeGame/Assets/Scripts/PartSwitcher.cs:37-47 | no object is listed twice |
| `PartSwitching.HasAlternativesAfterGrouping` | B360BikeGame/Assets/Scripts/PartSwitcher.cs:173-179 | after grouping, a type has alternatives exactly when its name is not empty and at least two parts have it |
| `PartSwitching.PartSwitcher.constructor` | B360BikeGame/Assets/Scripts/PartSwitcher.cs:20-26 | `Start` hides the panel when assigned (its only event) and groups the scene's parts, with nothing current |
| `PartSwitching.PartSwitcher.FindAllObjectsWithData` | B360BikeGame/Assets/Scripts/PartSwitcher.cs:28-48 | the dictionary is rebuilt from empty, with each object filed under its type |
| `PartSwitching.PartSwitcher.HasAlternatives` | B360BikeGame/Assets/Scripts/PartSwitcher.cs:173-179 | only a non-empty type name with a list in the dictionary can have alternatives |
| `PartSwitching.PartSwitcher.ShowAlternatives` | B360BikeGame/Assets/Scripts/PartSwitcher.cs:50-85 | null changes nothing; otherwise the part and its type become current, and a type with at most one part hides the panel |
| `PartSwitching.PartSwitcher.SwitchToObject` | B360BikeGame/Assets/Scripts/PartSwitcher.cs:119-172 | with no current or new object nothing happens; otherwise the old part is deactivated and a clone or the moved, activated object becomes current; the selector then selects and hovers it, with the scene of a hover update hitting it, shows its live stats and refreshes the button, and leaves both panel flags alone |
| `PartSwitching.PartSwitcher.CloseAlternativesPanel` | B360BikeGame/Assets/Scripts/PartSwitcher.cs:180-184 | the panel is hidden when assigned |

## Findings

| source | as written | input that shows it | evidently intended | confidence | as-written member | corrected member |
|---|---|---|---|---|---|---|
| B360BikeGame/Assets/Scripts/BikePartSelector.cs:89-120 | the close test needs `currentlyHighlighted == null` inside the block guarded by `currentlyHighlighted != null`, so it never passes | a left click on empty space while the info panel is shown: the panel stays open | a left click that hits no part closes the info panel, as the comment on line 116 says | medium, not executed | `LegacySelector.BikePartSelector.HandleSelection` | `LegacySelector.BikePartSelector.HandleSelectionCorrected` |

`HandleSelection` models lines 86-122 as written: its contract says an open
info panel stays open after any click. `HandleSelectionCorrected` moves the
close test out of the guarded block, and its contract says that such a
click closes the panels. `Update` calls the as-written method.

## Left out

- Floating point: durability, weight and amounts are C# `float`; the model
  uses `real`, so rounding and NaN are not captured.
- `GetCurrentValue` (both `PartData` classes): float rounding through
  `Mathf.RoundToInt`, with a possible division by zero.
- `HandleBreaking` only writes a `Debug.Log` line; the model reports the
  break as `TakeDamage`'s result. `ClearAllRenderers`' `Debug.Log` is also
  left out.
- The camera controller: `SetZoomTarget` and `ReturnToDefaultPosition` are
  recorded calls only.
- Raycasting, `Input`, `EventSystem`, `Camera.main`, `GetComponent`,
  `GetComponentsInChildren` and `FindObjectsByType` are replaced by the frame
  inputs, the part-to-renderer map and the given renderer and object
  sequences.
- UI widget writes are recorded as one call each:
  - `PopulateObjectInfo`'s text, slider and sprite writes are one `Populate`
    call;
  - `CreateAlternativeItem`'s item setup and listener wiring are one
    `CreateItem` call.
- `AlternativePartUI` is not part of this model.
- Transforms: positions, rotations, scales and parents are recorded as
  events (`ResetLocalTransform`, `InstantiateAt`, `MoveTo`). No geometry is
  modelled.
- Unity's copy-on-get for `renderer.materials`: a slot array is a value, so
  the material instances Unity creates on read are not distinguished.
- Stats records are values. That leaves out two things:
  - a template's record is copied field by field into the live record, and
    the live record's identity is not modelled;
  - `GetAlternatives` hands out the catalog list itself, and that aliasing is
    not modelled.
- A missing "Visuals" child in the newer `ReplaceModel` (a
  `NullReferenceException`) is not modelled. The highlighter found there is
  the `visuals` field, and when that is null the model is left in place.
- A null `partHighlighter` on a hovered part, a null highlight material, and
  other unassigned inspector references that the code does not null-check
  are assumed present.
- A `PartStats` whose `partType` is null, and the null string that an unset
  `partName` holds outside the editor, are not modelled.
- The older selector's `ShowAlternatives`, `CreateAlternativeItem`,
  `BuyPart`, `ShowPartInformation` and `CloseAlternativesPanel` are the same
  code as the newer selector's. They are modelled once, in
  `Selector.BikePartSelector`.
- `PartSwitcher.ShowAlternatives`' loop over the type's objects is left out:
  it calls `CreateAlternativeItem`, whose body is commented out, so the loop
  has no effect.
- `Selector.BikePartSelector.SetSelectedObject`,
  `LegacySelector.BikePartSelector.SetSelectedObject` and
  `PartSwitching.PartSwitcher.SwitchToObject` take a part id that is not
  null. With a null part the code throws after changing the hover; that case
  is not modelled. `SwitchToObject` also assumes the new object carries a
  `PartData`.
- Two swaps in one frame are not covered by the end-of-frame lemmas
  (`SwapThenFrame`, `NextSwapDestroysPrevious`, `FindAfterFrame`). Within a
  frame, `GetChild(0)` and `Find("Model")` still answer the child destroyed
  by the first swap. The methods state that behaviour, but the lemmas assume
  one swap per frame.
- Concurrency is not modelled. Of the engine's frame timing, only the
  deferred `Destroy` is modelled, through `EndOfFrame`.
