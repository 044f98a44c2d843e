/** The data exchanged with the directory-protocol library: attribute values,
    raw search entries, the requests the exporter issues and the outcomes the
    library can report back. The library itself is not modelled; its answers
    are inputs. */
module Directory {
  import opened Wrappers

  /** An attribute value as the library returns it: a single string, or a
      list of strings for a multi-valued (or absent, hence empty) attribute. */
  datatype Value = Str(text: string) | Multi(items: seq<string>)

  /** The `attributes` dictionary of one search result entry, keyed by the
      attribute names as the server reported them. Names are compared
      exactly; the library's own dictionary ignores case. */
  type Attributes = map<string, Value>

  /** One entry of the paged search's result list. Result entries carry an
      `attributes` key; referral entries do not. */
  datatype RawEntry = RawEntry(attributes: Option<Attributes>)

  /** What building the server pool and auto-binding produced: an exception
      (reported, no handle), a connection whose `bound` flag is false, or a
      bound connection. */
  datatype ConnOutcome = ConnFail | Unbound | Bound

  /** What the paged search produced: an exception, or the full entry list. */
  datatype SearchOutcome = SearchRaised | Entries(entries: seq<RawEntry>)

  /** Everything the exporter hands to the library to open a session. */
  datatype ConnectRequest = ConnectRequest(
    servers: seq<string>,
    port: int,
    useSsl: bool,
    serverConnectTimeout: int,
    receiveTimeout: int,
    user: string,
    password: string,
    activeServers: int,
    exhaustSeconds: int)

  /** Everything the exporter hands to the library for the one paged,
      subtree-scoped search. */
  datatype SearchRequest = SearchRequest(
    baseDn: string,
    filter: string,
    attributes: seq<string>,
    timeLimit: int,
    pageSize: int,
    operationalAttributes: bool)

  /** Per-server connect timeout, fixed regardless of `--timeout`. */
  const ServerConnectTimeout: int := 3
  /** Pool parameters of the first-active strategy. */
  const ActiveServers: int := 3
  const ExhaustSeconds: int := 60
  /** Entries fetched per page. */
  const PageSize: int := 10
  /** Users that are not computer accounts. */
  const UserFilter: string := "(&(objectClass=user)(!(objectClass=computer)))"
  /** The attributes the exporter asks for, in request order. */
  const RequestedAttributes: seq<string> := ["sAMAccountName", "cn", "company", "department"]
}
