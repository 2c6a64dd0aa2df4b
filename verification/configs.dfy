/** The generator's own configuration: the services and the base document. */
module Configs {
  import opened Document

  /** One service: its build artifacts, its manifest paths and the services it depends on. */
  datatype ServiceConfig = ServiceConfig(
    name: string,
    artifacts: seq<Value>,
    manifests: seq<string>,
    dependsOn: seq<string>)

  /** `base` is None when the source document has no base (a nil map). */
  datatype Config = Config(services: seq<ServiceConfig>, base: Option<map<string, Value>>)

  /** The documented requirement that service names are unique. */
  predicate UniqueNames(services: seq<ServiceConfig>) {
    forall i, j :: 0 <= i < j < |services| ==> services[i].name != services[j].name
  }

  /** No later service in the list has the same name as `services[i]`. */
  predicate LastNamed(services: seq<ServiceConfig>, i: int)
    requires 0 <= i < |services|
  {
    forall j :: i < j < |services| ==> services[j].name != services[i].name
  }

  /** A missing base is read as an empty document. */
  function BaseOrEmpty(base: Option<map<string, Value>>): map<string, Value> {
    if base.Some? then base.value else map[]
  }
}
