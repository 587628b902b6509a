/** The older, victim-side form of the damage rule: a player touched by another player's trigger
    loses one of its own lives. */
module CollisionManager {
  import opened Wrappers
  import opened MetadataManager
  import opened KickHitbox

  /** What the touching trigger carries: no player reference, or a reference whose player has the
      given id (None when the reference was never given its player). */
  datatype Trigger = NoPlayerReference | PlayerReference(ownerId: Option<int>)

  /** The source asserts that a player reference always has its player. */
  predicate WellFormed(t: Trigger)
  {
    t.PlayerReference? ==> t.ownerId.Some?
  }

  function CollisionDamages(ownId: int, t: Trigger): (r: bool)
    requires WellFormed(t)
    ensures r <==> t.PlayerReference? && t.ownerId.value != ownId
  {
    match t
    case NoPlayerReference => false
    case PlayerReference(owner) => owner.value != ownId
  }

  /** The two rules agree: a kick by `attacker` on `victim` takes a life from the victim under the
      attacker-side rule exactly when it does under the victim-side rule. */
  lemma {:induction false} AttackerAndVictimRulesAgree(attacker: int, victim: int)
    ensures KickDamages(attacker, Some(victim)) == CollisionDamages(victim, PlayerReference(Some(attacker)))
    ensures !KickDamages(attacker, None) && !CollisionDamages(victim, NoPlayerReference)
  {
  }

  class CollisionManager {
    const metadataManager: MetadataManager

    constructor (metadataManager: MetadataManager)
      ensures this.metadataManager == metadataManager
    {
      this.metadataManager := metadataManager;
    }

    method OnTriggerEnter2D(other: Trigger)
      requires WellFormed(other)
      modifies metadataManager`lives, metadataManager`metadataUpdated
      ensures metadataManager.lives == old(metadataManager.lives) - (if CollisionDamages(old(metadataManager.id), other) then 1 else 0)
      ensures CollisionDamages(old(metadataManager.id), other) ==>
        metadataManager.metadataUpdated == old(metadataManager.metadataUpdated) + 1
      ensures !CollisionDamages(old(metadataManager.id), other) ==> unchanged(metadataManager)
    {
      if other.NoPlayerReference? {
        return;
      }
      var owner := other.ownerId;
      if owner.value == metadataManager.id {
        return;
      }
      metadataManager.LoseLife();
    }
  }
}
