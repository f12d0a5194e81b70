/** Values shared by both versions of the baker: optional values, the errors it raises and how a bake ends. */
module Common {

  datatype Option<+T> = None | Some(value: T)

  /** The exceptions the baker raises, by their meaning. */
  datatype Error =
    | NoSkeleton    // "No skeleton." while sampling a frame
    | NoVertexData  // "No vertex data" when building the texture
    | NoMaterial    // "No material" when applying the material to the mesh
    | RangeError    // a typed-array length or `set` offset out of range

  /** The result of a call that may throw. */
  datatype Status = Ok | Throws(err: Error)

  /** How a call to the bake ends. */
  datatype BakeOutcome =
    | Resolved          // every frame was written and the completion callback ran
    | Stalled           // a step returned without scheduling another one; nothing ever completes
    | Failed(err: Error) // an exception ended the sampling; the completion callback never runs
    | Threw(err: Error)  // an exception nothing catches ended the bake
}
