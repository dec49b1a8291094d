/** getChatServer (StatusServiceImpl.cpp): the least loaded server, chosen by a loop that
    copies the best record so far over the first one of the table. */
module StatusService {
  import opened Bytes

  type Int32 = x: int | -0x8000_0000 <= x < 0x8000_0000

  const INT_MAX: Int32 := 0x7FFF_FFFF

  /** A ChatServer's fields, and the part of it that configuration sets. */
  datatype Row = Row(server: Server, conCount: Int32)

  datatype Server = Server(host: string, port: string, name: string)

  /** HGet of the login counts, as they stand during one call; missing names give "". */
  type Counts = map<string, Int32>

  function CountOf(counts: Counts, name: string): Int32 {
    if name in counts then counts[name] else INT_MAX
  }

  /** The first record's count is read before the loop. */
  function Begin(rows: seq<Row>, counts: Counts): seq<Row>
    requires rows != []
  {
    rows[0 := rows[0].(conCount := CountOf(counts, rows[0].server.name))]
  }

  /** The loop body for slot i; slot 0 is what the reference minServer denotes. */
  function Visit(rows: seq<Row>, counts: Counts, i: nat): (r: seq<Row>)
    requires i < |rows|
    ensures |r| == |rows|
  {
    if rows[i].server.name == rows[0].server.name then rows
    else
      var row := rows[i].(conCount := CountOf(counts, rows[i].server.name));
      var rows' := rows[i := row];
      if row.conCount < rows'[0].conCount then rows'[0 := row] else rows'
  }

  function Scan(rows: seq<Row>, counts: Counts, n: nat): (r: seq<Row>)
    requires rows != [] && n <= |rows|
    ensures |r| == |rows|
  {
    if n == 0 then Begin(rows, counts) else Visit(Scan(rows, counts, n - 1), counts, n - 1)
  }

  function Call(rows: seq<Row>, counts: Counts): (r: seq<Row>)
    requires rows != []
    ensures |r| == |rows|
  {
    Scan(rows, counts, |rows|)
  }

  // ----- the code -----

  class ChatServer {
    var host: string
    var port: string
    var name: string
    var conCount: Int32

    constructor (host: string, port: string, name: string)
      ensures Record() == Row(Server(host, port, name), 0)
    {
      this.host, this.port, this.name, conCount := host, port, name, 0;
    }

    function Record(): Row
      reads this
    {
      Row(Server(host, port, name), conCount)
    }
  }

  class StatusServiceImpl {
    // the values of servers_ in the order of its iteration
    const servers: seq<ChatServer>

    constructor (servers: seq<ChatServer>)
      requires Distinct(servers)
      ensures this.servers == servers
    {
      this.servers := servers;
    }

    ghost predicate Holds(rows: seq<Row>)
      reads servers
    {
      |rows| == |servers| && forall k :: 0 <= k < |servers| ==> servers[k].Record() == rows[k]
    }

    /** rows is the table at entry. */
    method LeastLoaded(counts: Counts, ghost rows: seq<Row>) returns (minServer: ChatServer)
      requires Distinct(servers) && servers != [] && Holds(rows)
      modifies servers
      ensures Holds(Call(rows, counts)) && minServer == servers[0]
    {
      hide Visit;
      minServer := servers[0];
      assert minServer.Record() == rows[0];
      minServer.conCount := if minServer.name in counts then counts[minServer.name] else INT_MAX;
      for i := 0 to |servers|
        invariant Holds(Scan(rows, counts, i))
      {
        Compare(counts, i, Scan(rows, counts, i));
      }
    }

    /** The loop body, for the slot it has reached. */
    method Compare(counts: Counts, i: nat, ghost rows: seq<Row>)
      requires Distinct(servers) && i < |servers| && Holds(rows)
      modifies servers
      ensures Holds(Visit(rows, counts, i))
    {
      var minServer, server := servers[0], servers[i];
      assert server.Record() == rows[i] && minServer.Record() == rows[0];
      if server.name == minServer.name {
        return;
      }
      server.conCount := if server.name in counts then counts[server.name] else INT_MAX;
      if server.conCount < minServer.conCount {
        minServer.host, minServer.port := server.host, server.port;
        minServer.name, minServer.conCount := server.name, server.conCount;
      }
    }
  }

  // ----- one call -----

  lemma {:induction false} ScanFinds(rows: seq<Row>, counts: Counts, n: nat)
    requires rows != [] && n <= |rows|
    ensures var s := Scan(rows, counts, n);
      && s[0].conCount == CountOf(counts, s[0].server.name)
      && s[0].conCount <= CountOf(counts, rows[0].server.name)
      && (forall i :: 0 <= i < n ==> s[0].conCount <= CountOf(counts, rows[i].server.name))
      && (forall i :: 0 < i < |rows| ==> s[i].server == rows[i].server)
      && (s[0].server == rows[0].server || exists i :: 0 < i < n && s[0].server == rows[i].server)
      && (s[0].server != rows[0].server ==> s[0].conCount < CountOf(counts, rows[0].server.name))
  {
    if n > 0 {
      ScanFinds(rows, counts, n - 1);
      var s := Scan(rows, counts, n - 1);
      if n == 1 { assert s[n - 1] == s[0]; }
    }
  }

  /** A call returns a record of the table whose count is minimal over all names that were
      in it, a missing count being INT_MAX. All slots but the first keep their servers, and
      the first keeps its own exactly when no other one has a smaller count. */
  lemma CallChoosesLeast(rows: seq<Row>, counts: Counts)
    requires rows != []
    ensures var s := Call(rows, counts);
      && s[0].conCount == CountOf(counts, s[0].server.name)
      && (forall i :: 0 <= i < |rows| ==> s[0].conCount <= CountOf(counts, rows[i].server.name))
      && (exists i :: 0 <= i < |rows| && s[0].server == rows[i].server)
      && (forall i :: 0 < i < |rows| ==> s[i].server == rows[i].server)
      && (s[0].server == rows[0].server <==>
            forall i :: 0 < i < |rows| ==>
              CountOf(counts, rows[0].server.name) <= CountOf(counts, rows[i].server.name))
  {
    ScanFinds(rows, counts, |rows|);
  }

  /** A call refreshes the count of every slot, if no slot before it has the same name. */
  lemma CallRefreshes(rows: seq<Row>, counts: Counts, i: nat)
    requires 0 < i < |rows| && forall j :: 0 <= j < i ==> rows[j].server.name != rows[i].server.name
    ensures Call(rows, counts)[i].conCount == CountOf(counts, rows[i].server.name)
  {
    ScanFinds(rows, counts, i);
    VisitedStays(rows, counts, i, |rows|);
  }

  lemma {:induction false} VisitedStays(rows: seq<Row>, counts: Counts, i: nat, n: nat)
    requires 0 < i < n <= |rows|
    ensures Scan(rows, counts, n)[i] == Scan(rows, counts, i + 1)[i]
  {
    if n > i + 1 {
      VisitedStays(rows, counts, i, n - 1);
    }
  }

  /** In terms of the counts alone: a name with a count has it, and one at least as small as
      every count in the table; a server whose count is missing counts as 2147483647, and is
      returned only if no name in the table has a smaller count. */
  lemma MissingCountIsLast(rows: seq<Row>, counts: Counts, i: nat)
    requires i < |rows|
    ensures var least, name := Call(rows, counts)[0], rows[i].server.name;
      && (least.server.name in counts ==> least.conCount == counts[least.server.name])
      && (least.server.name !in counts ==> least.conCount == 2147483647)
      && (name in counts ==> least.conCount <= counts[name])
      && (least.server.name !in counts && name in counts ==> counts[name] == 2147483647)
  {
    CallChoosesLeast(rows, counts);
    assert CountOf(counts, rows[i].server.name) >= Call(rows, counts)[0].conCount;
  }

  // ----- runs of calls -----

  function Calls(rows: seq<Row>, cs: seq<Counts>): (r: seq<Row>)
    requires rows != []
    ensures |r| == |rows|
    decreases |cs|
  {
    if cs == [] then rows else Calls(Call(rows, cs[0]), cs[1..])
  }

  /** rows is a table that calls may have made of the loaded one. */
  ghost predicate Derived(loaded: seq<Row>, rows: seq<Row>) {
    && |rows| == |loaded| > 0
    && (exists i :: 0 <= i < |loaded| && rows[0].server == loaded[i].server)
    && (forall i :: 0 < i < |loaded| ==> rows[i].server == loaded[i].server)
  }

  ghost predicate DistinctNames(rows: seq<Row>) {
    forall i, j :: 0 <= i < j < |rows| ==> rows[i].server.name != rows[j].server.name
  }

  /** Every slot holds a loaded server and every slot but the first its own; the first
      loaded server, once it lost its slot, is never in the table again. */
  lemma {:induction false} CallsKeepDerived(loaded: seq<Row>, rows: seq<Row>, cs: seq<Counts>)
    requires Derived(loaded, rows)
    ensures Derived(loaded, Calls(rows, cs))
    ensures DistinctNames(loaded) && rows[0].server != loaded[0].server ==>
      forall i :: 0 <= i < |loaded| ==> Calls(rows, cs)[i].server != loaded[0].server
    decreases |cs|
  {
    if cs != [] {
      CallChoosesLeast(rows, cs[0]);
      var next := Call(rows, cs[0]);
      assert Derived(loaded, next) by {
        var i :| 0 <= i < |rows| && next[0].server == rows[i].server;
      }
      CallsKeepDerived(loaded, next, cs[1..]);
    }
  }

  /** After any calls the next one is least loaded among all loaded servers exactly when the
      first loaded server still has its slot or is not strictly the least loaded. */
  lemma LeastOfLoaded(loaded: seq<Row>, cs: seq<Counts>, counts: Counts)
    requires loaded != [] && DistinctNames(loaded)
    ensures var rows := Calls(loaded, cs); var least := Call(rows, counts)[0].conCount;
      (forall i :: 0 <= i < |loaded| ==> least <= CountOf(counts, loaded[i].server.name)) <==>
        rows[0].server == loaded[0].server ||
        exists i :: 0 < i < |loaded| &&
          CountOf(counts, loaded[i].server.name) <= CountOf(counts, loaded[0].server.name)
  {
    assert Derived(loaded, loaded) by { assert loaded[0].server == loaded[0].server; }
    CallsKeepDerived(loaded, loaded, cs);
    CallChoosesLeast(Calls(loaded, cs), counts);
  }

  /** Two calls suffice to lose a server for good: the second does not see that the first
      loaded one has become idle. */
  lemma FirstServerCanBeLost(a: Server, b: Server)
    requires a.name != b.name
    ensures var loaded := [Row(a, 0), Row(b, 0)];
      var busy, idle := map[a.name := 1, b.name := 0], map[a.name := 0, b.name := 5];
      Call(Calls(loaded, [busy]), idle)[0] == Row(b, 5)
  {
    var loaded := [Row(a, 0), Row(b, 0)];
    var busy: Counts := map[a.name := 1, b.name := 0];
    var idle: Counts := map[a.name := 0, b.name := 5];
    assert Scan(loaded, busy, 0) == [Row(a, 1), Row(b, 0)];
    assert Scan(loaded, busy, 1) == [Row(a, 1), Row(b, 0)];
    assert Scan(loaded, busy, 2) == [Row(b, 0), Row(b, 0)];
    var rows := [Row(b, 0), Row(b, 0)];
    assert Calls(loaded, [busy]) == rows;
    assert Scan(rows, idle, 0) == [Row(b, 5), Row(b, 0)];
    assert Scan(rows, idle, 1) == [Row(b, 5), Row(b, 0)];
    assert Scan(rows, idle, 2) == [Row(b, 5), Row(b, 0)];
  }
}
