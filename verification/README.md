# ActiveCamera sync between the specs and legion worlds

This project models, in Dafny, the ActiveCamera synchronisation rule of
amethyst's rendering crate during its migration from the specs ECS to the
legion ECS. Both worlds keep an `ActiveCamera` component that names the entity
to render from, each in its own entity identifier space. A shared entity bimap
pairs legion entities (its left side) with specs entities (its right side).
Each sync pass runs in one direction, and the authoritative side's camera is
mirrored into the other world:

- the camera's optional entity is translated through the bimap: `get_by_right`
  for specs to legion, `get_by_left` for legion to specs; an absent entity
  stays absent and needs no lookup;
- if the destination world already has a camera, it is updated in place and
  the rule returns `(None, None)`;
- otherwise the rule returns a fresh camera in the destination's slot of the
  outcome pair, for the driver to insert.

Modules:

- `Options` (options.dfy): the optional-value type.
- `EntityBimap` (entity_bimap.dfy): specs and legion entity handles, and the bimap as two finite maps
  with the predicate `Valid` stating that they are inverse to each other.
- `Camera` (camera.dfy): the two `ActiveCamera` records and the legion camera's `Default`.
- `CameraSync` (camera_sync.dfy): the direction, the views the rule receives, the outcome pair, the
  translation functions and the rule `Reconcile` itself. In-place mutation is modelled by returning the
  mutated views alongside the outcome pair. `Reconciled.Committed` is the driver's commit: a populated slot
  is inserted, an empty slot keeps the possibly mutated value.
- `CameraSyncLemmas` (camera_sync_lemmas.dfy): idempotence, round trips, stability of synced cameras, the
  default camera, and a worked scenario.
- `SyncPasses` (sync_passes.dfy): a sequence of sync passes in arbitrary directions, and the proof that only
  the first one has any effect.

The `unwrap` calls of the rule (the specs or legion camera on the authoritative
side, and each bimap lookup) become the precondition `CanSync`. The specs-world
`ActiveCamera` is imported from `crate::camera`, which is not part of this
model; its shape (one optional specs entity) follows from how the rule reads
and builds it.

## Model

| member | source | states |
|---|---|---|
| CameraSync.ToLegion | amethyst_rendy/src/legion/mod.rs:55-57 | An absent specs entity translates to an absent legion entity without a lookup. A present one translates to its `get_by_right` counterpart. Against a valid bimap, `get_by_left` of the result gives back the specs entity. |
| CameraSync.ToSpecs | amethyst_rendy/src/legion/mod.rs:73-75 | Mirror image: absent stays absent; present translates to its `get_by_left` counterpart. Against a valid bimap, `get_by_right` of the result gives it back. |
| CameraSync.Reconcile | amethyst_rendy/src/legion/mod.rs:45-91 | Requires the authoritative camera and every entity it names to be mapped (the unwraps). At most one outcome slot is populated, never the authoritative side's. The authoritative camera is unchanged. In-place mutation neither adds nor removes a camera. An insert is requested exactly when the destination has no camera. After commit the destination names the translated entity. Against a valid bimap the committed cameras are in sync. |
| EntityBimap.LookupsAreInverse | amethyst_rendy/src/legion/mod.rs:50-75 | In a valid bimap, `get_by_left(l) == Some(s)` holds exactly when `get_by_right(s) == Some(l)`. The rule relies on this when it looks up specs entities from the right and legion entities from the left. |
| CameraSyncLemmas.TranslationRoundTrip | amethyst_rendy/src/legion/mod.rs:55-75 | Through a valid bimap, specs-to-legion translation followed by legion-to-specs translation is the identity on references, and so is the reverse order. |
| CameraSyncLemmas.InSyncIsStable | amethyst_rendy/src/legion/mod.rs:52-88 | When both cameras exist and name paired entities, either direction returns `(None, None)` and changes neither camera. |
| CameraSyncLemmas.SyncIsIdempotent | amethyst_rendy/src/legion/mod.rs:45-91 | For any bimap, a second sync in the same direction after committing the first writes nothing and leaves the destination as the first left it. |
| CameraSyncLemmas.SpecsRoundTrip | amethyst_rendy/src/legion/mod.rs:53-88 | With a valid bimap, specs to legion and then legion to specs restores the original specs camera. |
| CameraSyncLemmas.LegionRoundTrip | amethyst_rendy/src/legion/mod.rs:53-88 | With a valid bimap, legion to specs and then specs to legion restores the original legion camera. |
| CameraSyncLemmas.DefaultCameraNeedsNoMapping | amethyst_rendy/src/legion/mod.rs:22-28 | The default legion camera names no entity. It therefore syncs into specs against any bimap, even an empty one, and the specs camera it yields names no entity. |
| CameraSyncLemmas.CameraScenario | amethyst_rendy/src/legion/mod.rs:45-91 | Take bimap {a1 <-> b1}, a specs camera naming a1 and no legion camera. Syncing to legion requests insertion of a legion camera naming b1. If that camera is then cleared and synced back, the specs camera is updated in place to name nothing, and nothing is inserted. |
| SyncPasses.RunPasses | amethyst_rendy/src/legion/mod.rs:45-91 | Any non-empty sequence of passes in any directions, over a valid bimap and starting from a syncable state, ends with both cameras present and naming paired entities. |
| SyncPasses.InSyncIsFixedPoint | amethyst_rendy/src/legion/mod.rs:45-91 | Any sequence of passes over cameras that are already in sync leaves them unchanged. |
| SyncPasses.FirstPassDecides | amethyst_rendy/src/legion/mod.rs:45-91 | With a valid bimap, the result of a sequence of passes equals the committed result of its first pass. |

## Left out

- The bimap's `RwLock` read (line 50): a concurrency guard; the bimap is an immutable value here.
- Panics of the `unwrap` calls (lines 50, 54, 57, 72, 75): stated as the precondition `CanSync` rather than modelled as crashes.
- The registration calls `add_component_sync` and `add_resource_sync` (lines 93-123), including the repeated registrations of `BoundingSphere`, `Handle<Material>` and `Handle<Mesh>`: their effect lives in `LegionState`, which is not part of this model.
- `SetupData::setup`, `specs_world.register` and the insertion of the default legion camera as a resource (lines 40-43): storage setup in external crates. Only the default value itself is modelled.
- The driver that calls the rule and commits its outcome is not part of this model. `Reconciled.Committed` and `SyncPasses.RunPasses` assume its documented commit behaviour.
- The submodules declared on lines 14-20 and the `Syncer` type's derived `Default` (lines 30-32): no sync logic.
- Entity handles are plain numbered records; their generation counters and allocation are not modelled.
