/** How the server names its objects. */
module Objects {

  type DbRef = int

  /** The number that names no object. */
  const NOTHING: DbRef := -1
}
