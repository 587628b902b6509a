/** A player's id, name and lives, and the MetadataUpdated notification each change raises. */
module MetadataManager {
  const MaxLives: int := 5

  /** The lives left after `hits` lives were lost since the last reset: none are left exactly after
      the fifth, and nothing stops the count at zero, so every later hit goes below it. */
  function LivesAfter(hits: nat): (r: int)
    ensures r == 0 <==> hits == MaxLives
    ensures r < 0 <==> hits > MaxLives
  {
    MaxLives - hits
  }

  class MetadataManager {
    var id: int
    var name: string
    var lives: int
    /** How many times MetadataUpdated has been raised. */
    var metadataUpdated: nat

    constructor ()
      ensures id == 0 && name == "placeholder" && lives == MaxLives && metadataUpdated == 0
    {
      id, name, lives, metadataUpdated := 0, "placeholder", MaxLives, 0;
    }

    /** Only ids 0 and 1 exist. Raises MetadataUpdated twice: once from ResetLives, once itself. */
    method Initialise(id: int, name: string)
      requires id == 0 || id == 1
      modifies this
      ensures this.id == id && this.name == name && lives == MaxLives
      ensures metadataUpdated == old(metadataUpdated) + 2
    {
      this.id := id;
      this.name := name;
      ResetLives();
      metadataUpdated := metadataUpdated + 1;
    }

    method ResetLives()
      modifies this`lives, this`metadataUpdated
      ensures lives == MaxLives && metadataUpdated == old(metadataUpdated) + 1
    {
      lives := MaxLives;
      metadataUpdated := metadataUpdated + 1;
    }

    /** One life fewer, with no lower bound. */
    method LoseLife()
      modifies this`lives, this`metadataUpdated
      ensures lives == old(lives) - 1 && metadataUpdated == old(metadataUpdated) + 1
    {
      lives := lives - 1;
      metadataUpdated := metadataUpdated + 1;
    }
  }

  /** A reset followed by `hits` lost lives leaves LivesAfter(hits) lives, one notification each. */
  method ResetThenHits(m: MetadataManager, hits: nat)
    modifies m
    ensures m.lives == LivesAfter(hits)
    ensures m.metadataUpdated == old(m.metadataUpdated) + 1 + hits
    ensures m.id == old(m.id) && m.name == old(m.name)
  {
    m.ResetLives();
    var i := 0;
    while i < hits
      invariant 0 <= i <= hits
      invariant m.lives == MaxLives - i
      invariant m.metadataUpdated == old(m.metadataUpdated) + 1 + i
      invariant m.id == old(m.id) && m.name == old(m.name)
    {
      m.LoseLife();
      i := i + 1;
    }
  }
}
