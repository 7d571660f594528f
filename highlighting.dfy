/** The renderer/material tracker of the newer generation (`PartHighlighter`).

    The engine's renderers are modelled by `Scene`: a renderer that exists has
    an entry in `materials` holding its current material-slot array. A renderer
    that Unity compares equal to `null` (never set, or destroyed) has no entry.
    The tracker keeps the list `tracked` and the dictionary `originals` from
    each tracked renderer to the slot array it showed when it was added. */
module Highlighting {
  import opened Common

  /** The material slots of every live renderer in the scene. */
  class Scene {
    var materials: map<RendererId, seq<Material>>

    constructor (initial: map<RendererId, seq<Material>>)
      ensures materials == initial
    {
      materials := initial;
    }

    /** `Instantiate` of a prefab: the new instance brings fresh renderers. */
    method Spawn(rs: seq<RendererId>, slots: seq<seq<Material>>)
      requires |rs| == |slots| && NoDup(rs)
      requires forall i :: 0 <= i < |rs| ==> rs[i] !in materials
      modifies this
      ensures forall r :: r in materials <==> r in old(materials) || r in rs
      ensures forall r :: r in old(materials) ==> materials[r] == old(materials)[r]
      ensures forall i :: 0 <= i < |rs| ==> materials[rs[i]] == slots[i]
    {
      var i := 0;
      while i < |rs|
        invariant 0 <= i <= |rs|
        invariant forall r :: r in materials <==> r in old(materials) || r in rs[..i]
        invariant forall r :: r in old(materials) ==> materials[r] == old(materials)[r]
        invariant forall k :: 0 <= k < i ==> materials[rs[k]] == slots[k]
      {
        assert rs[..i + 1] == rs[..i] + [rs[i]];
        materials := materials[rs[i] := slots[i]];
        i := i + 1;
      }
      assert rs[..i] == rs;
    }
  }

  /** No renderer appears twice in the list. */
  predicate NoDup(s: seq<RendererId>)
  {
    forall i, j :: 0 <= i < j < |s| ==> s[i] != s[j]
  }

  /** A slot array of length `n` whose every slot is the highlight material. */
  function Fill(n: nat, h: Material): (s: seq<Material>)
    ensures |s| == n && forall i :: 0 <= i < n ==> s[i] == h
  {
    seq(n, _ => h)
  }

  /** `renderer.sharedMaterial == highlightMaterial`: the first slot shows the
      highlight material (an empty slot array has no shared material). */
  predicate ShowsHighlight(slots: seq<Material>, h: Material)
  {
    |slots| > 0 && slots[0] == h
  }

  /** The scene after `HighlightAll`: every live tracked renderer shows the
      highlight material in every slot; nothing else changes. */
  function Highlighted(slots: map<RendererId, seq<Material>>, tracked: seq<RendererId>, h: Material): (m: map<RendererId, seq<Material>>)
  {
    map r | r in slots :: if r in tracked then Fill(|slots[r]|, h) else slots[r]
  }

  /** The scene after `RestoreAll`: every live tracked renderer shows its
      recorded original slots; nothing else changes. */
  function Restored(slots: map<RendererId, seq<Material>>, tracked: seq<RendererId>, originals: map<RendererId, seq<Material>>): (m: map<RendererId, seq<Material>>)
  {
    map r | r in slots :: if r in tracked && r in originals then originals[r] else slots[r]
  }

  /** The tracked list after `AddRenderer` is called on each of `rs` in turn:
      a renderer is appended when it is live and not yet tracked. */
  function Added(tracked: seq<RendererId>, live: set<RendererId>, rs: seq<RendererId>): (t: seq<RendererId>)
    decreases |rs|
  {
    if rs == [] then tracked
    else Added(if rs[0] in live && rs[0] !in tracked then tracked + [rs[0]] else tracked, live, rs[1..])
  }

  /** The list after `List.Remove`: the (only) occurrence of `r` is dropped. */
  function Without(s: seq<RendererId>, r: RendererId): (t: seq<RendererId>)
    ensures forall x :: x in t <==> x in s && x != r
  {
    if s == [] then []
    else if s[0] == r then Without(s[1..], r)
    else [s[0]] + Without(s[1..], r)
  }

  /** Removing a renderer from a list without duplicates leaves none. */
  lemma {:induction false} WithoutKeepsNoDup(s: seq<RendererId>, r: RendererId)
    requires NoDup(s)
    ensures NoDup(Without(s, r))
    decreases |s|
  {
    if s != [] {
      assert NoDup(s[1..]) by {
        forall i, j | 0 <= i < j < |s[1..]| ensures s[1..][i] != s[1..][j] {
          assert s[1..][i] == s[i + 1] && s[1..][j] == s[j + 1];
        }
      }
      WithoutKeepsNoDup(s[1..], r);
      if s[0] != r {
        forall k | 0 <= k < |s[1..]| ensures s[1..][k] != s[0] {
          assert s[1..][k] == s[k + 1];
        }
        assert s[0] !in Without(s[1..], r);
      }
    }
  }

  /** A renderer is tracked after a series of adds exactly when it was tracked
      before, or it is one of the added renderers and is live. */
  lemma {:induction false} AddedMembers(tracked: seq<RendererId>, live: set<RendererId>, rs: seq<RendererId>)
    ensures forall x :: x in Added(tracked, live, rs) <==> x in tracked || (x in rs && x in live)
    decreases |rs|
  {
    if rs != [] {
      var next := if rs[0] in live && rs[0] !in tracked then tracked + [rs[0]] else tracked;
      AddedMembers(next, live, rs[1..]);
      assert forall x :: x in rs <==> x == rs[0] || x in rs[1..];
    }
  }

  /** A series of adds keeps the tracked list free of duplicates and only
      appends to it. */
  lemma {:induction false} AddedExtends(tracked: seq<RendererId>, live: set<RendererId>, rs: seq<RendererId>)
    requires NoDup(tracked)
    ensures NoDup(Added(tracked, live, rs))
    ensures |tracked| <= |Added(tracked, live, rs)| && Added(tracked, live, rs)[..|tracked|] == tracked
    decreases |rs|
  {
    if rs != [] {
      var next := if rs[0] in live && rs[0] !in tracked then tracked + [rs[0]] else tracked;
      AddedExtends(next, live, rs[1..]);
      assert next[..|tracked|] == tracked;
    }
  }

  /** Highlighting then restoring is the same as restoring alone: the highlight
      leaves no trace on any renderer once `RestoreAll` has run. The pair gives
      back the scene unchanged exactly when every live tracked renderer
      showed its originals beforehand. */
  lemma HighlightThenRestore(slots: map<RendererId, seq<Material>>, tracked: seq<RendererId>, originals: map<RendererId, seq<Material>>, h: Material)
    requires forall r :: r in tracked ==> r in originals
    ensures Restored(Highlighted(slots, tracked, h), tracked, originals) == Restored(slots, tracked, originals)
    ensures (forall r :: r in tracked && r in slots ==> slots[r] == originals[r]) <==>
              Restored(Highlighted(slots, tracked, h), tracked, originals) == slots
  {
    var a := Restored(Highlighted(slots, tracked, h), tracked, originals);
    var b := Restored(slots, tracked, originals);
    assert a.Keys == b.Keys == slots.Keys;
    assert forall r :: r in a ==> a[r] == b[r];
    if forall r :: r in tracked && r in slots ==> slots[r] == originals[r] {
      assert forall r :: r in b ==> b[r] == slots[r];
    }
  }

  /** After `HighlightAll`, every live tracked renderer with at least one slot
      reads as highlighted, and keeps its slot count. */
  lemma HighlightedShows(slots: map<RendererId, seq<Material>>, tracked: seq<RendererId>, h: Material, r: RendererId)
    requires r in slots && r in tracked
    ensures r in Highlighted(slots, tracked, h)
    ensures |Highlighted(slots, tracked, h)[r]| == |slots[r]|
    ensures |slots[r]| > 0 ==> ShowsHighlight(Highlighted(slots, tracked, h)[r], h)
  {
  }

  /** Builds the highlight array for a renderer with `n` slots, slot by slot. */
  method FillHighlight(n: nat, h: Material) returns (hs: seq<Material>)
    ensures |hs| == n
    ensures forall i :: 0 <= i < n ==> hs[i] == h
  {
    var a := new Material[n];
    for i := 0 to n
      invariant forall k :: 0 <= k < i ==> a[k] == h
    {
      a[i] := h;
    }
    hs := a[..];
  }

  class PartHighlighter {
    const scene: Scene
    const highlightMaterial: Material
    var tracked: seq<RendererId>
    var originals: map<RendererId, seq<Material>>

    /** The list and the dictionary keys hold the same renderers, once each. */
    ghost predicate Valid()
      reads this
    {
      NoDup(tracked) && forall r :: r in originals <==> r in tracked
    }

    /** `Awake`: tracks every renderer found under the object. */
    constructor (scene: Scene, highlight: Material, renderers: seq<RendererId>)
      ensures Valid() && this.scene == scene && highlightMaterial == highlight
      ensures tracked == Added([], scene.materials.Keys, renderers)
      ensures forall r :: r in originals ==> r in scene.materials && originals[r] == scene.materials[r]
    {
      this.scene := scene;
      highlightMaterial := highlight;
      tracked := [];
      originals := map[];
      new;
      AddMultipleRenderers(renderers);
    }

    method AddRenderer(r: RendererId)
      requires Valid()
      modifies this
      ensures Valid()
      ensures if r in scene.materials && r !in old(tracked)
              then tracked == old(tracked) + [r] && originals == old(originals)[r := scene.materials[r]]
              else tracked == old(tracked) && originals == old(originals)
    {
      if r !in scene.materials || r in tracked {
        return;
      }
      originals := originals[r := scene.materials[r]];
      tracked := tracked + [r];
    }

    method AddMultipleRenderers(rs: seq<RendererId>)
      requires Valid()
      modifies this
      ensures Valid()
      ensures tracked == Added(old(tracked), scene.materials.Keys, rs)
      ensures forall r :: r in old(originals) ==> r in originals && originals[r] == old(originals)[r]
      ensures forall r :: r in originals && r !in old(originals) ==> r in scene.materials && originals[r] == scene.materials[r]
    {
      var i := 0;
      while i < |rs|
        invariant 0 <= i <= |rs|
        invariant Valid()
        invariant Added(tracked, scene.materials.Keys, rs[i..]) == Added(old(tracked), scene.materials.Keys, rs)
        invariant forall r :: r in old(originals) ==> r in originals && originals[r] == old(originals)[r]
        invariant forall r :: r in originals && r !in old(originals) ==> r in scene.materials && originals[r] == scene.materials[r]
      {
        assert rs[i..][0] == rs[i] && rs[i..][1..] == rs[i + 1..];
        AddRenderer(rs[i]);
        i := i + 1;
      }
    }

    /** Removing a renderer restores it first when it reads as highlighted. */
    method RemoveRenderer(r: RendererId)
      requires Valid()
      modifies this, scene
      ensures Valid()
      ensures if r in old(scene.materials) && r in old(tracked) then
                && tracked == Without(old(tracked), r)
                && originals == old(originals) - {r}
                && scene.materials == (if ShowsHighlight(old(scene.materials)[r], highlightMaterial)
                                       then old(scene.materials)[r := old(originals)[r]]
                                       else old(scene.materials))
              else tracked == old(tracked) && originals == old(originals) && scene.materials == old(scene.materials)
    {
      if r !in scene.materials || r !in tracked {
        return;
      }
      if ShowsHighlight(scene.materials[r], highlightMaterial) {
        scene.materials := scene.materials[r := originals[r]];
      }
      originals := originals - {r};
      WithoutKeepsNoDup(tracked, r);
      tracked := Without(tracked, r);
    }

    /** Restores every tracked renderer, then forgets them all. */
    method ClearAllRenderers()
      requires Valid()
      modifies this, scene
      ensures Valid()
      ensures scene.materials == Restored(old(scene.materials), old(tracked), old(originals))
      ensures tracked == [] && originals == map[]
    {
      RestoreAll();
      originals := map[];
      tracked := [];
    }

    /** Tracks the renderers of a newly instantiated model, without clearing. */
    method SetNewRenders(rs: seq<RendererId>)
      requires Valid()
      modifies this
      ensures Valid()
      ensures tracked == Added(old(tracked), scene.materials.Keys, rs)
      ensures forall r :: r in old(originals) ==> r in originals && originals[r] == old(originals)[r]
      ensures forall r :: r in originals && r !in old(originals) ==> r in scene.materials && originals[r] == scene.materials[r]
    {
      AddMultipleRenderers(rs);
    }

    method HighlightAll()
      requires Valid()
      modifies scene
      ensures scene.materials == Highlighted(old(scene.materials), tracked, highlightMaterial)
    {
      var i := 0;
      while i < |tracked|
        invariant 0 <= i <= |tracked|
        invariant scene.materials.Keys == old(scene.materials).Keys
        invariant forall r :: r in scene.materials ==>
          scene.materials[r] == if r in tracked[..i] then Fill(|old(scene.materials)[r]|, highlightMaterial) else old(scene.materials)[r]
      {
        var r := tracked[i];
        assert tracked[..i + 1] == tracked[..i] + [r];
        if r in scene.materials {
          var hs := FillHighlight(|scene.materials[r]|, highlightMaterial);
          scene.materials := scene.materials[r := hs];
        }
        i := i + 1;
      }
      assert tracked[..i] == tracked;
    }

    method RestoreAll()
      requires Valid()
      modifies scene
      ensures scene.materials == Restored(old(scene.materials), tracked, originals)
    {
      if |tracked| <= 0 {
        return;
      }
      var i := 0;
      while i < |tracked|
        invariant 0 <= i <= |tracked|
        invariant scene.materials.Keys == old(scene.materials).Keys
        invariant forall r :: r in scene.materials ==>
          scene.materials[r] == if r in tracked[..i] then originals[r] else old(scene.materials)[r]
      {
        var r := tracked[i];
        assert tracked[..i + 1] == tracked[..i] + [r];
        if r in scene.materials {
          scene.materials := scene.materials[r := originals[r]];
        }
        i := i + 1;
      }
      assert tracked[..i] == tracked;
    }

    method HighlightSingleRenderer(r: RendererId)
      requires Valid()
      modifies scene
      ensures if r in old(scene.materials) && r in tracked
              then scene.materials == old(scene.materials)[r := Fill(|old(scene.materials)[r]|, highlightMaterial)]
              else scene.materials == old(scene.materials)
    {
      if r !in scene.materials || r !in tracked {
        return;
      }
      var hs := FillHighlight(|scene.materials[r]|, highlightMaterial);
      assert hs == Fill(|scene.materials[r]|, highlightMaterial);
      scene.materials := scene.materials[r := hs];
    }

    method RestoreSingleRenderer(r: RendererId)
      requires Valid()
      modifies scene
      ensures if r in old(scene.materials) && r in tracked
              then scene.materials == old(scene.materials)[r := originals[r]]
              else scene.materials == old(scene.materials)
    {
      if r !in scene.materials || r !in tracked {
        return;
      }
      scene.materials := scene.materials[r := originals[r]];
    }
  }
}
