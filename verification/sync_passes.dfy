/**
 Repeated sync passes over one entity's ActiveCamera: the driver invokes the
 rule once per pass, in the direction configured for that pass, and commits
 the result before the next pass.
 */
module SyncPasses {
  import opened EntityBimap
  import opened CameraSync
  import CameraSyncLemmas

  /** The cameras after running the passes `dirs` in order, starting from `v`. */
  function RunPasses(dirs: seq<SyncDirection>, b: Bimap, v: Views): (r: Views)
    requires b.Valid()
    requires |dirs| > 0 ==> CanSync(dirs[0], b, v)
    ensures |dirs| == 0 ==> r == v
    ensures |dirs| > 0 ==> InSync(b, r)
    decreases |dirs|
  {
    if |dirs| == 0 then v
    else
      var next := Reconcile(dirs[0], b, v).Committed();
      RunPasses(dirs[1..], b, next)
  }

  /** Passes over cameras that are already in sync change nothing. */
  lemma {:induction false} InSyncIsFixedPoint(dirs: seq<SyncDirection>, b: Bimap, v: Views)
    requires b.Valid()
    requires InSync(b, v)
    ensures |dirs| > 0 ==> CanSync(dirs[0], b, v)
    ensures RunPasses(dirs, b, v) == v
    decreases |dirs|
  {
    if |dirs| > 0 {
      CameraSyncLemmas.InSyncIsStable(dirs[0], b, v);
      assert Reconcile(dirs[0], b, v).Committed() == v;
      InSyncIsFixedPoint(dirs[1..], b, v);
    }
  }

  /**
   However many passes run and in whichever directions, the result is decided
   by the first one: every later pass is a no-op.
   */
  lemma {:induction false} FirstPassDecides(dirs: seq<SyncDirection>, b: Bimap, v: Views)
    requires b.Valid()
    requires |dirs| > 0
    requires CanSync(dirs[0], b, v)
    ensures RunPasses(dirs, b, v) == Reconcile(dirs[0], b, v).Committed()
  {
    var next := Reconcile(dirs[0], b, v).Committed();
    InSyncIsFixedPoint(dirs[1..], b, next);
  }
}
