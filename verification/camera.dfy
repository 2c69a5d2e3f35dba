/**
 The ActiveCamera component of both worlds. Each names the entity that carries
 the camera to render from, in its own world's identifier space.
 */
module Camera {
  import opened Options
  import opened EntityBimap

  /** The specs-world ActiveCamera: an optional specs entity. */
  datatype ActiveCamera = ActiveCamera(entity: Option<SpecsEntity>)

  /** The legion-world ActiveCamera: an optional legion entity. */
  datatype LegionActiveCamera = LegionActiveCamera(entity: Option<LegionEntity>)

  /** The derived `Default` of the legion-world ActiveCamera: it names no entity. */
  function DefaultLegionCamera(): LegionActiveCamera
  {
    LegionActiveCamera(None)
  }
}
