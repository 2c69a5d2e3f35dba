/**
 The ActiveCamera reconciliation rule: given a sync direction, the entity bimap
 and the ActiveCamera each world currently holds for one entity, it translates
 the authoritative side's entity reference into the other world and either
 updates the other side's camera in place or asks for a fresh one to be inserted.
 */
module CameraSync {
  import opened Options
  import opened EntityBimap
  import opened Camera

  /** Which world is authoritative for one invocation of the rule. */
  datatype SyncDirection = SpecsToLegion | LegionToSpecs

  /** The component each world holds for the entity, `None` when it has none. */
  datatype Views = Views(specs: Option<ActiveCamera>, legion: Option<LegionActiveCamera>)

  /** The values the rule asks the driver to insert; `None` in a slot means "no write on that side". */
  datatype Outcome = Outcome(specs: Option<ActiveCamera>, legion: Option<LegionActiveCamera>)

  /**
   What one invocation leaves behind: the views after the rule's in-place
   mutation, and the outcome pair it returned.
   */
  datatype Reconciled = Reconciled(views: Views, outcome: Outcome)
  {
    /** The driver's commit: a populated slot is inserted, an empty one keeps the (possibly mutated) value. */
    function Committed(): Views
    {
      Views(if outcome.specs.Some? then outcome.specs else views.specs,
            if outcome.legion.Some? then outcome.legion else views.legion)
    }
  }

  /** A specs reference can be translated: it is absent, or the bimap knows it. */
  predicate SpecsRefMapped(b: Bimap, e: Option<SpecsEntity>)
  {
    e.Some? ==> e.value in b.byRight
  }

  /** A legion reference can be translated: it is absent, or the bimap knows it. */
  predicate LegionRefMapped(b: Bimap, e: Option<LegionEntity>)
  {
    e.Some? ==> e.value in b.byLeft
  }

  /** Translates a specs reference into legion space with `get_by_right`; `None` needs no lookup. */
  function ToLegion(b: Bimap, e: Option<SpecsEntity>): (r: Option<LegionEntity>)
    requires SpecsRefMapped(b, e)
    ensures r.None? <==> e.None?
    ensures e.Some? ==> b.GetByRight(e.value) == r
    ensures b.Valid() && r.Some? ==> b.GetByLeft(r.value) == e
  {
    match e
    case None => None
    case Some(s) => Some(b.byRight[s])
  }

  /** Translates a legion reference into specs space with `get_by_left`; `None` needs no lookup. */
  function ToSpecs(b: Bimap, e: Option<LegionEntity>): (r: Option<SpecsEntity>)
    requires LegionRefMapped(b, e)
    ensures r.None? <==> e.None?
    ensures e.Some? ==> b.GetByLeft(e.value) == r
    ensures b.Valid() && r.Some? ==> b.GetByRight(r.value) == e
  {
    match e
    case None => None
    case Some(l) => Some(b.byLeft[l])
  }

  /**
   What the rule needs in order not to panic: the authoritative side holds a
   camera, and the entity that camera names (if any) is in the bimap.
   */
  predicate CanSync(dir: SyncDirection, b: Bimap, v: Views)
  {
    match dir
    case SpecsToLegion => v.specs.Some? && SpecsRefMapped(b, v.specs.value.entity)
    case LegionToSpecs => v.legion.Some? && LegionRefMapped(b, v.legion.value.entity)
  }

  /**
   The two references are paired by the bimap, consulted from both sides:
   both absent, or each is the other's counterpart.
   */
  predicate Paired(b: Bimap, s: Option<SpecsEntity>, l: Option<LegionEntity>)
  {
    || (s.None? && l.None?)
    || (s.Some? && l.Some? && b.GetByRight(s.value) == Some(l.value) && b.GetByLeft(l.value) == Some(s.value))
  }

  /** Both worlds hold an ActiveCamera and the two name the same entity. */
  predicate InSync(b: Bimap, v: Views)
  {
    v.specs.Some? && v.legion.Some? && Paired(b, v.specs.value.entity, v.legion.value.entity)
  }

  /** The ActiveCamera sync closure registered with `add_component_sync_with`. */
  function Reconcile(dir: SyncDirection, b: Bimap, v: Views): (r: Reconciled)
    requires CanSync(dir, b, v)
    // At most one slot is populated, and never the authoritative side's.
    ensures r.outcome.specs.None? || r.outcome.legion.None?
    ensures dir == SpecsToLegion ==> r.outcome.specs.None?
    ensures dir == LegionToSpecs ==> r.outcome.legion.None?
    // The authoritative side is left as it was.
    ensures dir == SpecsToLegion ==> r.views.specs == v.specs
    ensures dir == LegionToSpecs ==> r.views.legion == v.legion
    // In-place mutation neither creates nor removes a component.
    ensures r.views.specs.Some? <==> v.specs.Some?
    ensures r.views.legion.Some? <==> v.legion.Some?
    // An insert is requested exactly when the destination has no camera.
    ensures dir == SpecsToLegion ==> (r.outcome.legion.Some? <==> v.legion.None?)
    ensures dir == LegionToSpecs ==> (r.outcome.specs.Some? <==> v.specs.None?)
    // Once committed, the destination names the counterpart of the source's entity.
    ensures dir == SpecsToLegion ==>
              r.Committed().legion == Some(LegionActiveCamera(ToLegion(b, v.specs.value.entity)))
    ensures dir == LegionToSpecs ==>
              r.Committed().specs == Some(ActiveCamera(ToSpecs(b, v.legion.value.entity)))
    // Against a valid bimap, the committed views are in sync.
    ensures b.Valid() ==> InSync(b, r.Committed())
  {
    match dir
    case SpecsToLegion =>
      var legionEntity := ToLegion(b, v.specs.value.entity);
      if v.legion.Some? then
        Reconciled(v.(legion := Some(v.legion.value.(entity := legionEntity))), Outcome(None, None))
      else
        Reconciled(v, Outcome(None, Some(LegionActiveCamera(legionEntity))))
    case LegionToSpecs =>
      var specsEntity := ToSpecs(b, v.legion.value.entity);
      if v.specs.Some? then
        Reconciled(v.(specs := Some(v.specs.value.(entity := specsEntity))), Outcome(None, None))
      else
        Reconciled(v, Outcome(Some(ActiveCamera(specsEntity)), None))
  }
}
