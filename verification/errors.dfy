/** The errors the resolver and the merger return, and the messages they carry. */
module Errors {

  /** The step of a parse that wraps the error of the operation it called. */
  datatype Phase = ParseDependencies | UpdateArtifacts | UpdateManifests

  datatype Error =
    | UndefinedService(name: string)
    | ShouldBeMap(path: string)
    | Wrapped(phase: Phase, cause: Error)

  datatype Result<+T> = Ok(value: T) | Err(error: Error)

  function PhaseText(p: Phase): string {
    match p
    case ParseDependencies => "failed to parse dependencies"
    case UpdateArtifacts => "failed to update artifacts"
    case UpdateManifests => "failed to update manifests"
  }

  /** The text of the error, as the program formats it. */
  function Message(e: Error): string {
    match e
    case UndefinedService(name) => "undefined service: " + name
    case ShouldBeMap(path) => "the configuration '" + path + "' should be map"
    case Wrapped(phase, cause) => PhaseText(phase) + ": " + Message(cause)
  }
}
