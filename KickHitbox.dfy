/** The attacker-side damage rule: a kick hitbox that touches another player takes one of that
    player's lives. The touched collider is given by the metadata component found on it, if any. */
module KickHitbox {
  import opened Wrappers
  import opened MetadataManager

  /** Whether a hitbox owned by player `ownId` damages what it touched: `touched` is the id of
      the touched player, or None if the collider is not a player. */
  function KickDamages(ownId: int, touched: Option<int>): (r: bool)
    ensures r <==> touched.Some? && touched.value != ownId
  {
    match touched
    case None => false
    case Some(otherId) => ownId != otherId
  }

  /** The id carried by the metadata component found on a touched collider. */
  function IdOf(other: Option<MetadataManager>): (r: Option<int>)
    reads if other.Some? then {other.value} else {}
    ensures r.Some? <==> other.Some?
  {
    match other
    case None => None
    case Some(m) => Some(m.id)
  }

  /** Of the two players, each one's hitbox damages the other and never itself. */
  lemma {:induction false} TwoPlayersDamageEachOther(a: int, b: int)
    requires (a == 0 || a == 1) && (b == 0 || b == 1)
    ensures KickDamages(a, Some(b)) <==> a != b
    ensures !KickDamages(a, Some(a))
  {
  }

  class KickHitbox {
    /** The owner's metadata; the source asserts it is assigned, which the type guarantees here. */
    const metadataManager: MetadataManager

    constructor (metadataManager: MetadataManager)
      ensures this.metadataManager == metadataManager
    {
      this.metadataManager := metadataManager;
    }

    /** Takes a life from a touched player other than the owner; changes nothing otherwise. The
        owner's own lives never change. */
    method OnTriggerEnter2D(other: Option<MetadataManager>)
      modifies if other.Some? then {other.value} else {}
      ensures other.Some? ==>
        other.value.lives == old(other.value.lives) - (if KickDamages(old(metadataManager.id), old(IdOf(other))) then 1 else 0)
      ensures other.Some? && KickDamages(old(metadataManager.id), old(IdOf(other))) ==>
        other.value.metadataUpdated == old(other.value.metadataUpdated) + 1
      ensures other.Some? ==> other.value.id == old(other.value.id) && other.value.name == old(other.value.name)
      ensures other.Some? && !KickDamages(old(metadataManager.id), old(IdOf(other))) ==> unchanged(other.value)
      ensures metadataManager.lives == old(metadataManager.lives)
    {
      if other.None? {
        return;
      }
      var otherMetadataManager := other.value;
      if metadataManager.id == otherMetadataManager.id {
        return;
      }
      otherMetadataManager.LoseLife();
    }
  }
}
