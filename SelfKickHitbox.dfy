/** The local player's kick hitbox: the attacker-side rule, suppressed while the local player's
    state is being predicted, so that predicted frames never deal damage. Whether a prediction is
    running is an input here, since the prediction manager is not part of this model. */
module SelfKickHitbox {
  import opened Wrappers
  import opened MetadataManager
  import opened KickHitbox

  function SelfKickDamages(isPredicting: bool, ownId: int, touched: Option<int>): (r: bool)
    ensures isPredicting ==> !r
    ensures !isPredicting ==> r == KickDamages(ownId, touched)
  {
    !isPredicting && KickDamages(ownId, touched)
  }

  class SelfKickHitbox {
    /** The base hitbox behaviour this one extends. */
    const base: KickHitbox

    constructor (metadataManager: MetadataManager)
      ensures base.metadataManager == metadataManager && fresh(base)
    {
      base := new KickHitbox(metadataManager);
    }

    method OnTriggerEnter2D(other: Option<MetadataManager>, isPredicting: bool)
      modifies if other.Some? then {other.value} else {}
      ensures other.Some? ==>
        other.value.lives == old(other.value.lives) - (if SelfKickDamages(isPredicting, old(base.metadataManager.id), old(IdOf(other))) then 1 else 0)
      ensures other.Some? && SelfKickDamages(isPredicting, old(base.metadataManager.id), old(IdOf(other))) ==>
        other.value.metadataUpdated == old(other.value.metadataUpdated) + 1
      ensures other.Some? ==> other.value.id == old(other.value.id) && other.value.name == old(other.value.name)
      ensures other.Some? && !SelfKickDamages(isPredicting, old(base.metadataManager.id), old(IdOf(other))) ==> unchanged(other.value)
      ensures base.metadataManager.lives == old(base.metadataManager.lives)
    {
      if isPredicting {
        return;
      }
      base.OnTriggerEnter2D(other);
    }
  }
}
