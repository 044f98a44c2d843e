/** The exporter's `main`: resolve the password, gate on it, connect,
    search once and write the CSV. The directory library and the file
    system are inputs: `connect` and `search` are the library's answers to
    the requests the exporter issues, `secret` is the state of the secret
    file and `target` says whether the CSV path can be opened. */
module Exporter {
  import opened Wrappers
  import opened Directory
  import opened Password
  import opened Search
  import opened CsvExport

  /** The parsed command line. */
  datatype Config = Config(
    bindDn: string,
    bindPassword: Option<string>,
    secretFile: Option<string>,
    servers: seq<string>,
    port: int,
    useSsl: bool,
    timeout: int,
    timeLimit: int,
    baseDn: string,
    csvPath: string)

  /** The command line with only the required flags given. */
  function Defaults(bindDn: string, servers: seq<string>, baseDn: string): Config {
    Config(bindDn, None, None, servers, 389, false, 10, 10, baseDn, "result.csv")
  }

  /** Whether opening the CSV path for writing succeeds. */
  datatype CsvTarget = Writable | OpenFails

  /** The run's stage whose error was caught and reported. */
  datatype Stage = ConnectStage | SearchStage | WriteStage

  /** How a run ends. */
  datatype Outcome =
    | ExitNoConnect                               // empty password: exit, nothing attempted
    | NotBound                                    // connection not bound: nothing written
    | Failed(stage: Stage)                        // error reported, no CSV written
    | Wrote(path: string, lines: seq<seq<string>>)   // CSV written in full
    | Partial(path: string, lines: seq<seq<string>>) // a missing attribute raised mid-file

  predicate WroteCsv(o: Outcome) {
    o.Wrote? || o.Partial?
  }

  /** The password the run binds with. */
  function PasswordOf(config: Config, secret: SecretFile): string {
    Resolve(config.bindPassword, config.secretFile, secret)
  }

  /** The session request: the configured servers, port, TLS flag and
      identity; `--timeout` becomes the receive timeout while each server's
      connect timeout is fixed. */
  function ConnectRequestFor(config: Config, password: string): (req: ConnectRequest)
    ensures req.password == password && req.user == config.bindDn
    ensures req.servers == config.servers && req.port == config.port && req.useSsl == config.useSsl
    ensures req.receiveTimeout == config.timeout && req.serverConnectTimeout == 3
  {
    ConnectRequest(config.servers, config.port, config.useSsl, ServerConnectTimeout, config.timeout,
                   config.bindDn, password, ActiveServers, ExhaustSeconds)
  }

  /** The one search: users that are not computers, under the base DN,
      for the four exported attributes, ten entries per page. */
  function SearchRequestFor(config: Config): (req: SearchRequest)
    ensures req.baseDn == config.baseDn && req.timeLimit == config.timeLimit
    ensures req.attributes == RequestedAttributes && req.pageSize == 10
    ensures (set a | a in req.attributes) == RowKeys
  {
    SearchRequest(config.baseDn, UserFilter, RequestedAttributes, config.timeLimit, PageSize, true)
  }

  /** One run of the exporter. */
  function Run(config: Config, secret: SecretFile, connect: ConnectRequest -> ConnOutcome,
               search: SearchRequest -> SearchOutcome, target: CsvTarget): (outcome: Outcome)
    ensures outcome.ExitNoConnect? <==> PasswordOf(config, secret) == ""
    ensures WroteCsv(outcome) ==> outcome.path == config.csvPath
    ensures WroteCsv(outcome) ==> |outcome.lines| >= 1 && outcome.lines[0] == Header
  {
    var password := PasswordOf(config, secret);
    if password == "" then ExitNoConnect
    else
      match connect(ConnectRequestFor(config, password))
      case ConnFail => Failed(ConnectStage)
      case Unbound => NotBound
      case Bound =>
        match GetLdapInfo(Live, search, SearchRequestFor(config))
        case None => Failed(SearchStage)
        case Some(results) =>
          match target
          case OpenFails => Failed(WriteStage)
          case Writable =>
            var w := WriteCsv(results);
            if w.complete then Wrote(config.csvPath, w.lines) else Partial(config.csvPath, w.lines)
  }

  /** With only the required flags given there is no password source, so
      the run exits without contacting the directory or writing a file. */
  lemma DefaultsExitWithoutConnecting(bindDn: string, servers: seq<string>, baseDn: string, secret: SecretFile,
                                      connect: ConnectRequest -> ConnOutcome,
                                      search: SearchRequest -> SearchOutcome, target: CsvTarget)
    ensures Run(Defaults(bindDn, servers, baseDn), secret, connect, search, target) == ExitNoConnect
  {
  }

  /** An empty password ends the run before anything else: the outcome is
      the same whatever the directory or the file system would answer, so
      no connection, search or write is attempted. */
  lemma EmptyPasswordAttemptsNothing(config: Config, secret: SecretFile,
                                     c1: ConnectRequest -> ConnOutcome, c2: ConnectRequest -> ConnOutcome,
                                     s1: SearchRequest -> SearchOutcome, s2: SearchRequest -> SearchOutcome,
                                     t1: CsvTarget, t2: CsvTarget)
    requires PasswordOf(config, secret) == ""
    ensures Run(config, secret, c1, s1, t1) == ExitNoConnect
    ensures Run(config, secret, c1, s1, t1) == Run(config, secret, c2, s2, t2)
  {
  }

  /** The only connection asked for carries the resolved, non-empty
      password: two directories that answer that request alike give the
      same run. */
  lemma ConnectSeesResolvedPassword(config: Config, secret: SecretFile,
                                    c1: ConnectRequest -> ConnOutcome, c2: ConnectRequest -> ConnOutcome,
                                    search: SearchRequest -> SearchOutcome, target: CsvTarget)
    requires PasswordOf(config, secret) != ""
    requires c1(ConnectRequestFor(config, PasswordOf(config, secret))) == c2(ConnectRequestFor(config, PasswordOf(config, secret)))
    ensures Run(config, secret, c1, search, target) == Run(config, secret, c2, search, target)
  {
  }

  /** A failed or unbound connection writes no CSV and never searches. */
  lemma ConnectionFailureWritesNothing(config: Config, secret: SecretFile, connect: ConnectRequest -> ConnOutcome,
                                       s1: SearchRequest -> SearchOutcome, s2: SearchRequest -> SearchOutcome,
                                       t1: CsvTarget, t2: CsvTarget)
    requires PasswordOf(config, secret) != ""
    requires !connect(ConnectRequestFor(config, PasswordOf(config, secret))).Bound?
    ensures !WroteCsv(Run(config, secret, connect, s1, t1))
    ensures Run(config, secret, connect, s1, t1) == Run(config, secret, connect, s2, t2)
  {
  }

  /** A search that raises writes no CSV. */
  lemma SearchFailureWritesNothing(config: Config, secret: SecretFile, connect: ConnectRequest -> ConnOutcome,
                                   search: SearchRequest -> SearchOutcome, target: CsvTarget)
    requires PasswordOf(config, secret) != ""
    requires connect(ConnectRequestFor(config, PasswordOf(config, secret))).Bound?
    requires search(SearchRequestFor(config)).SearchRaised?
    ensures Run(config, secret, connect, search, target) == Failed(SearchStage)
  {
  }

  /** A CSV is written only after a non-empty password, a bound connection
      and a search that returned, to a path that opened. */
  lemma CsvOnlyAfterSuccessfulSearch(config: Config, secret: SecretFile, connect: ConnectRequest -> ConnOutcome,
                                     search: SearchRequest -> SearchOutcome, target: CsvTarget)
    requires WroteCsv(Run(config, secret, connect, search, target))
    ensures PasswordOf(config, secret) != ""
    ensures connect(ConnectRequestFor(config, PasswordOf(config, secret))).Bound?
    ensures search(SearchRequestFor(config)).Entries?
    ensures target.Writable?
  {
  }

  /** The successful run: the file holds the header and then, in order, one
      row per entry that carries attributes, each row mapped from that
      entry's dictionary. */
  lemma SuccessfulRunWritesEveryResult(config: Config, secret: SecretFile, connect: ConnectRequest -> ConnOutcome,
                                       search: SearchRequest -> SearchOutcome)
    requires PasswordOf(config, secret) != ""
    requires connect(ConnectRequestFor(config, PasswordOf(config, secret))).Bound?
    requires search(SearchRequestFor(config)).Entries?
    requires forall a :: a in AttributeMaps(search(SearchRequestFor(config)).entries) ==> RowKeys <= a.Keys
    ensures var results := AttributeMaps(search(SearchRequestFor(config)).entries);
            var outcome := Run(config, secret, connect, search, Writable);
            && outcome.Wrote?
            && |outcome.lines| == |results| + 1
            && outcome.lines[0] == Header
            && forall i :: 0 <= i < |results| ==> MapRow(results[i]) == Some(outcome.lines[i + 1])
  {
  }

  /** When some kept entry lacks one of the four attributes, the row loop
      raises part-way: the file is left with the header and the rows before
      that entry, and the run does not count as a complete write. */
  lemma MissingAttributeLeavesPartialFile(config: Config, secret: SecretFile, connect: ConnectRequest -> ConnOutcome,
                                          search: SearchRequest -> SearchOutcome)
    requires PasswordOf(config, secret) != ""
    requires connect(ConnectRequestFor(config, PasswordOf(config, secret))).Bound?
    requires search(SearchRequestFor(config)).Entries?
    requires exists a :: a in AttributeMaps(search(SearchRequestFor(config)).entries) && !(RowKeys <= a.Keys)
    ensures var results := AttributeMaps(search(SearchRequestFor(config)).entries);
            var outcome := Run(config, secret, connect, search, Writable);
            && outcome.Partial?
            && outcome.path == config.csvPath
            && 1 <= |outcome.lines| <= |results|
            && outcome.lines[0] == Header
            && (forall i :: 1 <= i < |outcome.lines| ==> MapRow(results[i - 1]) == Some(outcome.lines[i]))
            && MapRow(results[|outcome.lines| - 1]).None?
  {
  }

  /** A search with no attribute-carrying entries gives the header alone. */
  lemma NoResultsWritesHeaderOnly(config: Config, secret: SecretFile, connect: ConnectRequest -> ConnOutcome,
                                  search: SearchRequest -> SearchOutcome)
    requires PasswordOf(config, secret) != ""
    requires connect(ConnectRequestFor(config, PasswordOf(config, secret))).Bound?
    requires search(SearchRequestFor(config)).Entries?
    requires forall i :: 0 <= i < |search(SearchRequestFor(config)).entries| ==>
               search(SearchRequestFor(config)).entries[i].attributes.None?
    ensures Run(config, secret, connect, search, Writable) == Wrote(config.csvPath, [Header])
  {
  }
}
