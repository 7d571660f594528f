/** The part record of the older generation: the same wear logic as the newer one, with a different description default and no highlighter reference. */
module LegacyParts {
  import opened Common
  import Durability

  /** The serialisable stats record of a part. Unity serialises an unset
      string as the empty string and an unset asset reference as null. */
  datatype PartStats = PartStats(
    partName: string,
    icon: Option<SpriteId>,
    prefab: Option<PrefabId>,
    durability: real,
    price: int,
    description: string,
    weight: real,
    rarity: int,
    partType: string)

  /** A record as created with the field initialisers. The editor ranges on
      durability, weight and rarity are not enforced at run time. */
  function NewPartStats(): (s: PartStats)
    ensures s.durability == 100.0 && s.price == 10
    ensures s.description == "Alternative description" && s.partType == "Type"
    ensures s.weight == 1.0 && s.rarity == 0
    ensures s.partName == "" && s.icon == None && s.prefab == None
  {
    PartStats("", None, None, 100.0, 10, "Alternative description", 1.0, 0, "Type")
  }

  /** The component on a part holder: its stats and its live wear. */
  class PartData {
    var partStats: PartStats
    var currentDurability: real

    /** `Awake`: wear starts at the record's maximum. */
    constructor (stats: PartStats)
      ensures partStats == stats && currentDurability == stats.durability
    {
      partStats := stats;
      currentDurability := stats.durability;
    }

    /** Returns whether the breaking handler ran. */
    method TakeDamage(damageAmount: real) returns (broke: bool)
      modifies this`currentDurability
      ensures currentDurability == Durability.AfterDamage(old(currentDurability), damageAmount)
      ensures currentDurability >= 0.0
      ensures broke <==> currentDurability == 0.0
      ensures damageAmount >= 0.0 && Durability.InRange(partStats.durability, old(currentDurability))
              ==> Durability.InRange(partStats.durability, currentDurability)
    {
      currentDurability := if 0.0 > currentDurability - damageAmount then 0.0 else currentDurability - damageAmount;
      broke := currentDurability <= 0.0;
    }

    method Repair(repairAmount: real)
      modifies this`currentDurability
      ensures currentDurability == Durability.AfterRepair(partStats.durability, old(currentDurability), repairAmount)
      ensures currentDurability <= partStats.durability
      ensures repairAmount >= 0.0 && Durability.InRange(partStats.durability, old(currentDurability))
              ==> Durability.InRange(partStats.durability, currentDurability)
    {
      currentDurability := if partStats.durability < currentDurability + repairAmount
                           then partStats.durability else currentDurability + repairAmount;
    }

    method ResetDurability()
      modifies this`currentDurability
      ensures currentDurability == partStats.durability
    {
      currentDurability := partStats.durability;
    }

    /** The `price` property getter. */
    function Price(): int
      reads this
    {
      partStats.price
    }

    /** The `price` property setter: writes through to the stats record. */
    method SetPrice(value: int)
      modifies this`partStats
      ensures Price() == value
      ensures partStats == old(partStats).(price := value)
    {
      partStats := partStats.(price := value);
    }
  }
}
