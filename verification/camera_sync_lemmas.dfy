/** Properties relating several invocations of the ActiveCamera rule. */
module CameraSyncLemmas {
  import opened Options
  import opened EntityBimap
  import opened Camera
  import opened CameraSync

  /** Translation through a valid bimap is a bijection on references: each direction undoes the other. */
  lemma TranslationRoundTrip(b: Bimap, s: Option<SpecsEntity>, l: Option<LegionEntity>)
    requires b.Valid()
    ensures SpecsRefMapped(b, s) ==> LegionRefMapped(b, ToLegion(b, s)) && ToSpecs(b, ToLegion(b, s)) == s
    ensures LegionRefMapped(b, l) ==> SpecsRefMapped(b, ToSpecs(b, l)) && ToLegion(b, ToSpecs(b, l)) == l
  {
  }

  /** Cameras already in sync are left alone by either direction: nothing is written and nothing changes. */
  lemma InSyncIsStable(dir: SyncDirection, b: Bimap, v: Views)
    requires InSync(b, v)
    ensures CanSync(dir, b, v)
    ensures Reconcile(dir, b, v) == Reconciled(v, Outcome(None, None))
  {
  }

  /**
   Running the same direction again after committing the first result changes
   nothing and writes nothing, whatever the bimap.
   */
  lemma SyncIsIdempotent(dir: SyncDirection, b: Bimap, v: Views)
    requires CanSync(dir, b, v)
    ensures CanSync(dir, b, Reconcile(dir, b, v).Committed())
    ensures Reconcile(dir, b, Reconcile(dir, b, v).Committed()).outcome == Outcome(None, None)
    ensures Reconcile(dir, b, Reconcile(dir, b, v).Committed()).Committed() == Reconcile(dir, b, v).Committed()
  {
  }

  /** Specs to legion, then legion to specs, restores the specs camera. */
  lemma SpecsRoundTrip(b: Bimap, v: Views)
    requires b.Valid()
    requires CanSync(SpecsToLegion, b, v)
    ensures CanSync(LegionToSpecs, b, Reconcile(SpecsToLegion, b, v).Committed())
    ensures Reconcile(LegionToSpecs, b, Reconcile(SpecsToLegion, b, v).Committed()).Committed().specs == v.specs
  {
  }

  /** Legion to specs, then specs to legion, restores the legion camera. */
  lemma LegionRoundTrip(b: Bimap, v: Views)
    requires b.Valid()
    requires CanSync(LegionToSpecs, b, v)
    ensures CanSync(SpecsToLegion, b, Reconcile(LegionToSpecs, b, v).Committed())
    ensures Reconcile(SpecsToLegion, b, Reconcile(LegionToSpecs, b, v).Committed()).Committed().legion == v.legion
  {
  }

  /**
   The default legion camera names no entity, so it syncs into specs against
   any bimap, even an empty one, and yields a specs camera naming no entity.
   */
  lemma DefaultCameraNeedsNoMapping(b: Bimap, specs: Option<ActiveCamera>)
    ensures CanSync(LegionToSpecs, b, Views(specs, Some(DefaultLegionCamera())))
    ensures Reconcile(LegionToSpecs, b, Views(specs, Some(DefaultLegionCamera()))).Committed().specs
            == Some(ActiveCamera(None))
  {
  }

  /**
   Bimap {a1 <-> b1}, specs camera naming a1, no legion camera: specs to legion
   inserts a legion camera naming b1. Clearing the legion camera and syncing
   back updates the specs camera in place to name nothing.
   */
  lemma CameraScenario()
    ensures var a1 := SpecsEntity(1);
            var b1 := LegionEntity(7);
            var bm := Bimap(map[b1 := a1], map[a1 := b1]);
            var first := Reconcile(SpecsToLegion, bm, Views(Some(ActiveCamera(Some(a1))), None));
            var cleared := first.Committed().(legion := Some(LegionActiveCamera(None)));
            var second := Reconcile(LegionToSpecs, bm, cleared);
            && first.outcome == Outcome(None, Some(LegionActiveCamera(Some(b1))))
            && second.outcome == Outcome(None, None)
            && second.Committed().specs == Some(ActiveCamera(None))
  {
  }
}
