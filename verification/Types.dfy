/** The values shared by the server's caches and the agent's client. */
module Types {

  datatype Option<+T> = None | Some(value: T)

  /** Times and durations are in nanoseconds. */
  const SECOND := 1_000_000_000

  datatype Selector = Selector(kind: string, value: string)

  datatype SpiffeID = SpiffeID(trustDomain: string, path: string) {
    function ToString(): string { "spiffe://" + trustDomain + path }
  }

  /** A registration entry as the server stores and sends it. `parses` says whether its SPIFFE ID and federated
      trust domains are syntactically valid; `rest` stands for the fields no rule here looks at. */
  datatype Entry = Entry(
    id: string, spiffeId: SpiffeID, parentId: SpiffeID, selectors: seq<Selector>,
    revision: int, createdAt: int, parses: bool, rest: string)

  /** pkg/common/idutil: the path of the server's own ID. */
  const SERVER_ID_PATH := "/spire/server"

  /** An entry parented to the server names a group of nodes instead of a workload. */
  predicate IsNodeAlias(e: Entry) {
    e.parentId.path == SERVER_ID_PATH
  }

  function SelectorSet(selectors: seq<Selector>): set<Selector> {
    set s | s in selectors
  }
}
