/** Scene-graph values shared by the systems. */
module Scene {

  /** Visibility of an entity; a freshly spawned satellite is `Inherited`. */
  datatype Visibility = Inherited | Hidden | Visible
}
