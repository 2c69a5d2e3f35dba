/**
 This module models the entity bimap that both ECS worlds share: a one-to-one
 correspondence between legion entities (the LEFT side) and specs entities (the
 RIGHT side). The sync rules only read it, so it is an immutable value here.
 */
module EntityBimap {
  import opened Options

  /** An entity handle of the specs world. */
  datatype SpecsEntity = SpecsEntity(id: nat)

  /** An entity handle of the legion world; not comparable with a `SpecsEntity`. */
  datatype LegionEntity = LegionEntity(id: nat)

  /** The bimap as its two lookup tables: `byLeft` answers `get_by_left`, `byRight` answers `get_by_right`. */
  datatype Bimap = Bimap(byLeft: map<LegionEntity, SpecsEntity>, byRight: map<SpecsEntity, LegionEntity>)
  {
    /** The two tables describe one bijection: each is the inverse of the other. */
    ghost predicate Valid()
    {
      && (forall l :: l in byLeft ==> byLeft[l] in byRight && byRight[byLeft[l]] == l)
      && (forall s :: s in byRight ==> byRight[s] in byLeft && byLeft[byRight[s]] == s)
    }

    /** The specs entity paired with a legion entity, if any. */
    function GetByLeft(l: LegionEntity): Option<SpecsEntity>
    {
      if l in byLeft then Some(byLeft[l]) else None
    }

    /** The legion entity paired with a specs entity, if any. */
    function GetByRight(s: SpecsEntity): Option<LegionEntity>
    {
      if s in byRight then Some(byRight[s]) else None
    }
  }

  /** A bimap with no entries. */
  function Empty(): (b: Bimap)
    ensures b.Valid()
    ensures forall l :: b.GetByLeft(l) == None
    ensures forall s :: b.GetByRight(s) == None
  {
    Bimap(map[], map[])
  }

  /** In a valid bimap the two lookups are inverse to each other, in both directions. */
  lemma LookupsAreInverse(b: Bimap, l: LegionEntity, s: SpecsEntity)
    requires b.Valid()
    ensures b.GetByLeft(l) == Some(s) <==> b.GetByRight(s) == Some(l)
  {
  }
}
