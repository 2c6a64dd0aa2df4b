/** The services of the dependency case in the program's tests. */
module Fixtures {
  import opened Document
  import opened Configs

  const MongodbImage := Obj(map["image" := Str("mongodb")])
  const NginxImage := Obj(map["image" := Str("nginx")])
  const Mongodb := ServiceConfig("mongodb", [MongodbImage], ["mongodb.yaml"], [])
  const App := ServiceConfig("app", [NginxImage], ["app.yaml"], ["mongodb"])
  const Foo := ServiceConfig("foo", [Obj(map["image" := Str("foo")])], ["foo.yaml"], [])
}
