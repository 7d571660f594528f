/** Identifiers and the nullable wrapper shared by every module of the model. */
module Common {

  /** A nullable reference: `None` is C#'s `null` (or a destroyed Unity object). */
  datatype Option<+T> = None | Some(value: T)

  /** A mesh renderer in the scene, identified by its instance id. */
  type RendererId = nat
  /** A material asset. */
  type Material = nat
  /** A prefab asset (the `GameObject` a part's `prefab` field refers to). */
  type PrefabId = nat
  /** A sprite asset (a part's `icon`). */
  type SpriteId = nat
  /** A scene object that carries a `PartData` component. */
  type PartId = nat
  /** A scene object created by `Instantiate`, or a child of a transform. */
  type InstanceId = nat
}
