/** What the other modules share. */
module Basics {
  datatype Option<+T> = None | Some(value: T)

  /** A pod address with what is known about where it runs. */
  datatype Endpoint = Endpoint(
    host: string, port: int, name: string, zone: string, nodeName: string, forZones: seq<string>)

  /** Endpoints with the Service metadata observed at the same instant. */
  datatype BackendState = BackendState(
    endpoints: seq<Endpoint>, labels: map<string, string>, annotations: map<string, string>)

  function Max(a: int, b: int): int {
    if a < b then b else a
  }

  lemma ConcatAssociates(a: string, b: string, c: string)
    ensures a + b + c == a + (b + c)
  {}
}
