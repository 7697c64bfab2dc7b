/** The experiment driver (bwi-client_server/main.c): the configuration file becomes linked lists of processes that
    refer to each other's process IDs, and the processes are then started in list order. A line is taken as the
    program it names and, for a client, what stands after the name. */
module ProcConfig {
  import opened Common
  import opened Stdio
  import opened TimeText
  import ProcArgv

  datatype Line = Blank | Unrecognized | ServerLine | ServerClientLine | ClientLine(rest: string) | OtherProgram

  /** What fork returns to the process that calls it: -1 if it fails. */
  type Pid = p: int | -1 <= p

  predicate NoNul(s: string) {
    forall i :: 0 <= i < |s| ==> s[i] != NUL
  }

  /** The lines are C strings. */
  predicate NoNulIn(lines: seq<Line>) {
    forall n :: 0 <= n < |lines| && lines[n].ClientLine? ==> NoNul(lines[n].rest)
  }

  // ---------- what a configuration asks for ----------

  predicate IsServer(l: Line) {
    l == ServerLine || l == ServerClientLine
  }

  /** For each process in the list of servers: does it have a subserver? */
  function ServerKinds(lines: seq<Line>): seq<bool> {
    if lines == [] then []
    else
      var n := |lines| - 1;
      ServerKinds(lines[..n]) + (if IsServer(lines[n]) then [lines[n] == ServerClientLine] else [])
  }

  /** For each process in the list of clients: the number of servers before it. */
  function ServersBeforeClients(lines: seq<Line>): seq<nat> {
    if lines == [] then []
    else
      var n := |lines| - 1;
      ServersBeforeClients(lines[..n]) + (if lines[n].ClientLine? then [|ServerKinds(lines[..n])|] else [])
  }

  /** And what stands after its name. */
  function ClientRests(lines: seq<Line>): seq<string> {
    if lines == [] then []
    else
      var n := |lines| - 1;
      ClientRests(lines[..n]) + (if lines[n].ClientLine? then [lines[n].rest] else [])
  }

  lemma OneMoreRest(lines: seq<Line>, line: Line)
    ensures ClientRests(lines + [line])
            == if line.ClientLine? then ClientRests(lines) + [line.rest] else ClientRests(lines)
  {
    assert (lines + [line])[..|lines|] == lines;
    assert ClientRests(lines) + [] == ClientRests(lines);
  }

  /** Every line is understood, and no server with a subserver comes before all servers. */
  predicate Acceptable(lines: seq<Line>) {
    && Unrecognized !in lines
    && (ServerKinds(lines) != [] ==> !ServerKinds(lines)[0])
  }

  /** What one more line adds. */
  lemma OneMoreLine(lines: seq<Line>, line: Line)
    ensures ServerKinds(lines + [line])
            == if IsServer(line) then ServerKinds(lines) + [line == ServerClientLine] else ServerKinds(lines)
    ensures ServersBeforeClients(lines + [line])
            == if line.ClientLine? then ServersBeforeClients(lines) + [|ServerKinds(lines)|]
               else ServersBeforeClients(lines)
    ensures Acceptable(lines) ==>
              (Acceptable(lines + [line]) <==>
                 line != Unrecognized && (line == ServerClientLine ==> ServerKinds(lines) != []))
  {
    assert (lines + [line])[..|lines|] == lines;
    assert ServerKinds(lines) + [] == ServerKinds(lines);
    assert ServersBeforeClients(lines) + [] == ServersBeforeClients(lines);
    assert forall l :: l in lines + [line] <==> l in lines || l == line by {
      assert (lines + [line])[|lines|] == line;
    }
  }

  lemma {:induction false} PrefixOfAcceptable(lines: seq<Line>, n: nat)
    requires n <= |lines|
    ensures ServerKinds(lines[..n]) <= ServerKinds(lines)
    ensures Acceptable(lines) ==> Acceptable(lines[..n])
  {
    if n < |lines| {
      var m := |lines| - 1;
      PrefixOfAcceptable(lines[..m], n);
      assert lines[..m][..n] == lines[..n];
      assert forall l :: l in lines[..m] ==> l in lines;
    } else {
      assert lines[..n] == lines;
    }
  }

  lemma NextPrefix(lines: seq<Line>, n: nat)
    requires n < |lines|
    ensures lines[..n] + [lines[n]] == lines[..n + 1]
    ensures Acceptable(lines) ==> Acceptable(lines[..n] + [lines[n]])
  {
    TakeOne(lines, n);
    PrefixOfAcceptable(lines, n + 1);
  }

  // ---------- the arguments of a client ----------

  /** What the driver was told on its command line: the duration, and when to start and stop tracing. */
  datatype Options = Options(duration: nat, start: Option<nat>, stop: Option<nat>)

  /** What was asked for of a client: the number of servers before it, and what stands after its name. */
  datatype ClientSpec = ClientSpec(before: nat, rest: string)

  function OptsOf(o: Options, v: Option<nat>): seq<ProcArgv.Opt> {
    ProcArgv.ClientOptions(v, o.duration, o.start, o.stop)
  }

  /** The argument text of a client. Only whether there is a server matters for it, not yet its process ID. */
  function ArgsOf(o: Options, spec: ClientSpec): string {
    ProcArgv.ArgsText("client", spec.rest, OptsOf(o, if spec.before == 0 then None else Some(0)))
  }

  /** The process ID of the server of a client. */
  function ServerPid(pids: nat -> Pid, spec: ClientSpec): Option<nat> {
    if spec.before == 0 || pids(spec.before - 1) == -1 then None else Some(pids(spec.before - 1))
  }

  /** The argument vector of a client, with all its numbers filled in. */
  function VectorOf(o: Options, spec: ClientSpec, v: Option<nat>): seq<string> {
    ProcArgv.AdjustedAll(ProcArgv.Tokens(ProcArgv.ArgsText("client", spec.rest, OptsOf(o, v))),
                         v, Some(o.duration), o.start, o.stop)
  }

  lemma {:induction false} SameText(os: seq<ProcArgv.Opt>, others: seq<ProcArgv.Opt>)
    requires |os| == |others|
    requires forall i :: 0 <= i < |os| ==> os[i].(value := None) == others[i].(value := None)
    ensures ProcArgv.OptionsText(os) == ProcArgv.OptionsText(others)
  {
    if os != [] {
      assert os[0].(value := None) == others[0].(value := None);
      SameText(os[1..], others[1..]);
    }
  }

  lemma TextBeforePid(o: Options, spec: ClientSpec, v: Option<nat>)
    requires v == None <==> spec.before == 0
    ensures ArgsOf(o, spec) == ProcArgv.ArgsText("client", spec.rest, OptsOf(o, v))
  {
    SameText(OptsOf(o, v), OptsOf(o, if spec.before == 0 then None else Some(0)));
  }

  lemma DecimalHasNoNul(n: nat)
    ensures NoNul(Decimal(n))
  {
    assert forall i :: 0 <= i < |Decimal(n)| ==> IsDigit(Decimal(n)[i]);
  }

  lemma NoNulConcat(a: string, b: string)
    requires NoNul(a) && NoNul(b)
    ensures NoNul(a + b)
  {
  }

  lemma {:induction false} OptionsHaveNoNul(os: seq<ProcArgv.Opt>)
    requires forall i :: 0 <= i < |os| ==> os[i].letter != NUL
    ensures NoNul(ProcArgv.OptionsText(os))
  {
    if os != [] {
      DecimalHasNoNul(os[0].top);
      NoNulConcat(" -" + [os[0].letter] + " ", Decimal(os[0].top));
      OptionsHaveNoNul(os[1..]);
      NoNulConcat(ProcArgv.OptionText(os[0]), ProcArgv.OptionsText(os[1..]));
    }
  }

  lemma TextHasNoNul(rest: string, os: seq<ProcArgv.Opt>)
    requires NoNul(rest) && forall i :: 0 <= i < |os| ==> os[i].letter != NUL
    ensures NoNul(ProcArgv.ArgsText("client", rest, os))
  {
    OptionsHaveNoNul(os);
    NoNulConcat("./" + "client" + " ", rest);
    NoNulConcat("./" + "client" + " " + rest, ProcArgv.OptionsText(os));
  }

  lemma ArgsHaveNoNul(o: Options, spec: ClientSpec)
    requires NoNul(spec.rest)
    ensures NoNul(ArgsOf(o, spec))
  {
    TextHasNoNul(spec.rest, OptsOf(o, if spec.before == 0 then None else Some(0)));
  }

  /** A vector in memory: the buffer with the strings, and the pointers into it. */
  datatype ArgVector = ArgVector(buffer: array<char>, pointers: array<Option<nat>>)

  ghost predicate HasTokens(v: ArgVector, tokens: seq<string>)
    reads v.buffer, v.pointers
  {
    ProcArgv.Holds(v.buffer[..], v.pointers[..], tokens)
  }

  // ---------- lists of processes ----------

  /** `subserver` and `server` stand for the pointers to another process's `proc_id`. `args` and `argv` are only modelled
      for clients. `pidArgument` is the number that is printed over the argument of option -v. */
  class Proc {
    const args: string
    var next: Proc?
    var argv: Option<ArgVector>
    var procId: Pid
    var subserver: Proc?
    var server: Proc?
    var pidArgument: Pid

    constructor (text: string)
      ensures next == null && procId == -1 && subserver == null && server == null && args == text
    {
      args := text;
      next, argv, procId, subserver, server, pidArgument := null, None, -1, null, null, 0;
    }
  }

  class ProcHead {
    var first: Proc?
    var last: Proc?
    ghost var nodes: seq<Proc>
    ghost var repr: set<Proc>

    constructor ()
      ensures Valid() && nodes == [] && repr == {}
    {
      first, last, nodes, repr := null, null, [], {};
    }

    ghost function NodeAt(i: nat): Proc?
      reads this
    {
      if i < |nodes| then nodes[i] else null
    }

    ghost predicate Valid()
      reads this, repr`next
    {
      && (forall i :: 0 <= i < |nodes| ==> nodes[i] in repr)
      && first == NodeAt(0)
      && last == (if nodes == [] then null else nodes[|nodes| - 1])
      && (forall i {:trigger nodes[i].next} :: 0 <= i < |nodes| ==> nodes[i].next == NodeAt(i + 1))
      && (forall i, j :: 0 <= i < j < |nodes| ==> nodes[i] != nodes[j])
    }

    lemma LastIsNode()
      requires Valid()
      ensures last != null ==> last in repr
    {
    }

    /** procs_add. */
    method Add(p: Proc)
      requires Valid() && p !in repr
      modifies this, p`next, (if last == null then {} else {last})`next
      ensures Valid() && nodes == old(nodes) + [p] && repr == old(repr) + {p}
    {
      p.next := null;
      if first == null {
        first := p;
      }
      if last != null {
        last.next := p;
      }
      last := p;
      nodes := nodes + [p];
      repr := repr + {p};
    }
  }

  /** What is made for each client from the number of servers before it and what stands after its name. */
  function ForEach<T>(f: (nat, string) -> T, before: seq<nat>, rests: seq<string>): (ts: seq<T>)
    requires |before| == |rests|
    ensures |ts| == |before|
    decreases |before|
  {
    if before == [] then []
    else
      var n := |before| - 1;
      ForEach(f, before[..n], rests[..n]) + [f(before[n], rests[n])]
  }

  lemma {:induction false} ForEachAt<T>(f: (nat, string) -> T, before: seq<nat>, rests: seq<string>, i: nat)
    requires i < |before| == |rests|
    ensures ForEach(f, before, rests)[i] == f(before[i], rests[i])
    decreases |before|
  {
    var n := |before| - 1;
    if i < n {
      ForEachAt(f, before[..n], rests[..n], i);
    }
  }

  lemma ForEachAppend<T>(f: (nat, string) -> T, before: seq<nat>, rests: seq<string>, b: nat, rest: string)
    requires |before| == |rests|
    ensures ForEach(f, before + [b], rests + [rest]) == ForEach(f, before, rests) + [f(b, rest)]
  {
    var n := |before|;
    assert (before + [b])[..n] == before && (rests + [rest])[..n] == rests;
  }

  function TextFor(o: Options): (nat, string) -> string {
    (b: nat, rest: string) => ArgsOf(o, ClientSpec(b, rest))
  }

  function VectorFor(o: Options, pids: nat -> Pid): (nat, string) -> seq<string> {
    (b: nat, rest: string) => VectorOf(o, ClientSpec(b, rest), ServerPid(pids, ClientSpec(b, rest)))
  }

  /** The processes have these texts, which are C strings. The text of a process never changes. */
  ghost predicate HaveTexts(nodes: seq<Proc>, texts: seq<string>) {
    |nodes| == |texts| && forall i :: 0 <= i < |nodes| ==> HasText(nodes[i], texts[i])
  }

  ghost predicate HasText(p: Proc, text: string) {
    p.args == text && NoNul(p.args)
  }

  lemma TextsAppend(nodes: seq<Proc>, texts: seq<string>, p: Proc, text: string)
    requires HaveTexts(nodes, texts) && HasText(p, text)
    ensures HaveTexts(nodes + [p], texts + [text])
  {
  }

  /** The texts of all clients, and their vectors. */
  function Texts(o: Options, before: seq<nat>, rests: seq<string>): (texts: seq<string>)
    requires |before| == |rests|
    ensures |texts| == |before|
  {
    ForEach(TextFor(o), before, rests)
  }

  function Vectors(o: Options, pids: nat -> Pid, before: seq<nat>, rests: seq<string>): (vectors: seq<seq<string>>)
    requires |before| == |rests|
    ensures |vectors| == |before|
  {
    ForEach(VectorFor(o, pids), before, rests)
  }

  /** A client process with its argument text. */
  method ClientProc(o: Options, hasServer: bool, rest: string, ghost before: nat) returns (p: Proc)
    requires NoNul(rest) && (hasServer <==> before > 0)
    ensures fresh(p) && HasText(p, TextFor(o)(before, rest))
    ensures p.next == null && p.procId == -1 && p.subserver == null && p.server == null
  {
    ArgsHaveNoNul(o, ClientSpec(before, rest));
    p := new Proc(ProcArgv.ArgsText("client", rest, OptsOf(o, if hasServer then Some(0) else None)));
  }

  /** procs_make_argv on the text of a client: the vector has the tokens of the text, with all numbers filled in. */
  method MakeVector(p: Proc, o: Options, v: Option<nat>, ghost spec: ClientSpec) returns (vector: ArgVector)
    requires HasText(p, ArgsOf(o, spec)) && (v == None <==> spec.before == 0)
    ensures HasTokens(vector, VectorOf(o, spec, v))
  {
    TextBeforePid(o, spec, v);
    var buffer, pointers := ProcArgv.MakeArgv(p.args, v, Some(o.duration), o.start, o.stop);
    vector := ArgVector(buffer, pointers);
  }

  /** The same for the `k`-th client, which has its server's process ID. */
  method MakeVectorOf(p: Proc, o: Options, v: Option<nat>, ghost pids: nat -> Pid, ghost before: seq<nat>,
                      ghost rests: seq<string>, ghost k: nat) returns (vector: ArgVector)
    requires k < |before| == |rests| && HasText(p, Texts(o, before, rests)[k])
    requires v == ServerPid(pids, ClientSpec(before[k], rests[k])) && (v == None <==> before[k] == 0)
    ensures HasTokens(vector, Vectors(o, pids, before, rests)[k])
  {
    ForEachAt(TextFor(o), before, rests, k);
    ForEachAt(VectorFor(o, pids), before, rests, k);
    vector := MakeVector(p, o, v, ClientSpec(before[k], rests[k]));
  }

  // ---------- loading ----------

  class Driver {
    const servers: ProcHead
    const clients: ProcHead
    const options: Options
    var precedingServer: Proc?

    constructor (o: Options)
      ensures options == o
      ensures fresh(servers) && fresh(clients) && LoadedFrom([])
      ensures servers.repr == {} && clients.repr == {}
    {
      servers := new ProcHead();
      clients := new ProcHead();
      options := o;
      precedingServer := null;
    }

    /** The lists are those asked for: each server with a subserver refers to the server directly before it in the
        list, and each client to the last server before it in the configuration. No process has been started. */
    ghost predicate Loaded(kinds: seq<bool>, before: seq<nat>)
      reads this, servers, clients, servers.repr, clients.repr
    {
      && servers != clients && servers.Valid() && clients.Valid()
      && servers.repr !! clients.repr
      && precedingServer == servers.last
      && |servers.nodes| == |kinds| && |clients.nodes| == |before|
      && (forall i :: 0 <= i < |kinds| ==> ServerOk(kinds, i))
      && (forall i :: 0 <= i < |kinds| ==> servers.nodes[i].procId == -1)
      && (forall i :: 0 <= i < |before| ==> ClientOk(before, i))
    }

    ghost predicate ServerOk(kinds: seq<bool>, i: nat)
      requires i < |kinds|
      reads this, servers, servers.nodes`subserver
    {
      && |servers.nodes| == |kinds|
      && (kinds[i] ==> i > 0)
      && servers.nodes[i].subserver == (if kinds[i] then servers.nodes[i - 1] else null)
    }

    ghost predicate ClientOk(before: seq<nat>, i: nat)
      requires i < |before|
      reads this, servers, clients, clients.nodes`server
    {
      && |clients.nodes| == |before|
      && before[i] <= |servers.nodes|
      && clients.nodes[i].server == (if before[i] == 0 then null else servers.nodes[before[i] - 1])
    }

    /** The SERVER and SERVER_CLIENT cases of parse_config_file. */
    method AddServer(withSubserver: bool, ghost kinds: seq<bool>, ghost before: seq<nat>)
      requires Loaded(kinds, before) && (withSubserver ==> precedingServer != null)
      modifies this, servers, servers.repr
      ensures Loaded(kinds + [withSubserver], before)
      ensures clients.repr == old(clients.repr) && fresh(servers.repr - old(servers.repr))
    {
      var p := new Proc("");
      if withSubserver {
        p.subserver := precedingServer;
      }
      servers.LastIsNode();
      servers.Add(p);
      precedingServer := p;
      forall i | 0 <= i < |kinds| + 1
        ensures ServerOk(kinds + [withSubserver], i)
      {
        assert i < |kinds| ==> old(ServerOk(kinds, i));
      }
      forall i | 0 <= i < |before|
        ensures ClientOk(before, i)
      {
        assert old(ClientOk(before, i));
      }
    }

    /** The CLIENT case of parse_config_file. */
    method AddClient(p: Proc, ghost kinds: seq<bool>, ghost before: seq<nat>)
      requires Loaded(kinds, before) && p !in servers.repr && p !in clients.repr && p.server == null
      modifies clients, clients.repr, p
      ensures Loaded(kinds, before + [|kinds|])
      ensures clients.nodes == old(clients.nodes) + [p]
      ensures servers.repr == old(servers.repr) && clients.repr == old(clients.repr) + {p}
    {
      clients.LastIsNode();
      clients.Add(p);
      if precedingServer != null {
        p.server := precedingServer;
      }
      forall i | 0 <= i < |kinds|
        ensures ServerOk(kinds, i)
      {
        assert old(ServerOk(kinds, i));
      }
      forall i | 0 <= i < |before| + 1
        ensures ClientOk(before + [|kinds|], i)
      {
        assert i < |before| ==> old(ClientOk(before, i));
      }
    }

    /** The lines are acceptable, and the lists are those that they ask for. */
    ghost predicate LoadedFrom(lines: seq<Line>)
      reads this, servers, clients, servers.repr, clients.repr
    {
      && Acceptable(lines) && Loaded(ServerKinds(lines), ServersBeforeClients(lines))
      && |ServersBeforeClients(lines)| == |ClientRests(lines)|
      && HaveTexts(clients.nodes, Texts(options, ServersBeforeClients(lines), ClientRests(lines)))
    }

    /** parse_config_file: one line. */
    method ParseLine(line: Line, ghost lines: seq<Line>) returns (rc: int)
      requires LoadedFrom(lines) && (line.ClientLine? ==> NoNul(line.rest))
      modifies this, servers, clients, servers.repr, clients.repr
      ensures rc == (if Acceptable(lines + [line]) then 0 else -1)
      ensures rc == 0 ==> LoadedFrom(lines + [line])
      ensures fresh(servers.repr - old(servers.repr)) && fresh(clients.repr - old(clients.repr))
    {
      OneMoreLine(lines, line);
      OneMoreRest(lines, line);
      match line
      case Blank | OtherProgram => return 0;
      case Unrecognized => return -1;
      case ServerClientLine =>
        if precedingServer == null {
          return -1;
        }
        AddServer(true, ServerKinds(lines), ServersBeforeClients(lines));
        return 0;
      case ServerLine =>
        AddServer(false, ServerKinds(lines), ServersBeforeClients(lines));
        return 0;
      case ClientLine(rest) =>
        ParseClient(rest, ServerKinds(lines), ServersBeforeClients(lines), ClientRests(lines));
        return 0;
    }

    /** A client with its text. */
    method ParseClient(rest: string, ghost kinds: seq<bool>, ghost before: seq<nat>, ghost rests: seq<string>)
      requires Loaded(kinds, before) && NoNul(rest)
      requires |before| == |rests| && HaveTexts(clients.nodes, Texts(options, before, rests))
      modifies clients, clients.repr
      ensures Loaded(kinds, before + [|kinds|])
      ensures HaveTexts(clients.nodes, Texts(options, before + [|kinds|], rests + [rest]))
      ensures servers.repr == old(servers.repr) && fresh(clients.repr - old(clients.repr))
    {
      var p := ClientProc(options, precedingServer != null, rest, |kinds|);
      TextsAppend(clients.nodes, Texts(options, before, rests), p, TextFor(options)(|kinds|, rest));
      ForEachAppend(TextFor(options), before, rests, |kinds|, rest);
      AddClient(p, kinds, before);
    }

    /** Reading the configuration: the first line that is refused ends it. */
    method Load(lines: seq<Line>) returns (rc: int)
      requires LoadedFrom([]) && NoNulIn(lines)
      modifies this, servers, clients, servers.repr, clients.repr
      ensures rc == (if Acceptable(lines) then 0 else -1)
      ensures rc == 0 ==> LoadedFrom(lines)
      ensures fresh(servers.repr - old(servers.repr)) && fresh(clients.repr - old(clients.repr))
    {
      assert lines[..0] == [];
      for n := 0 to |lines|
        invariant LoadedFrom(lines[..n])
        invariant fresh(servers.repr - old(servers.repr)) && fresh(clients.repr - old(clients.repr))
      {
        rc := LoadLine(lines, n);
        if rc != 0 {
          return;
        }
      }
      TakeAll(lines);
      rc := 0;
    }

    /** The body of that loop. */
    method LoadLine(lines: seq<Line>, n: nat) returns (rc: int)
      requires n < |lines| && LoadedFrom(lines[..n]) && NoNulIn(lines)
      modifies this, servers, clients, servers.repr, clients.repr
      ensures rc == 0 || (rc == -1 && !Acceptable(lines))
      ensures rc == 0 ==> LoadedFrom(lines[..n + 1])
      ensures fresh(servers.repr - old(servers.repr)) && fresh(clients.repr - old(clients.repr))
    {
      NextPrefix(lines, n);
      rc := ParseLine(lines[n], lines[..n]);
    }

    /** procs_create on the servers: in list order, each first gets the process ID of its subserver as an argument and
        is then started. `pids(i)` is what fork returns to the driver for the i-th server, -1 if it fails. */
    method CreateServers(pids: nat -> Pid, ghost kinds: seq<bool>, ghost before: seq<nat>) returns (rc: int)
      requires Loaded(kinds, before)
      modifies servers.repr`procId, servers.repr`pidArgument
      ensures rc == (if exists i :: 0 <= i < |kinds| && pids(i) == -1 then -1 else 0)
      ensures rc == 0 ==> Started(pids, kinds, |kinds|)
      ensures forall i :: 0 <= i < |before| ==> ClientOk(before, i)
    {
      var itr := servers.first;
      var k := 0;
      while itr != null
        invariant k <= |kinds| && itr == servers.NodeAt(k)
        invariant servers.Valid() && |servers.nodes| == |kinds|
        invariant forall i :: 0 <= i < |kinds| ==> ServerOk(kinds, i)
        invariant Started(pids, kinds, k)
        decreases |kinds| - k
      {
        var ok := StartServer(itr, pids, kinds, k);
        if !ok {
          return -1;
        }
        itr := itr.next;
        k := k + 1;
      }
      return 0;
    }

    /** The body of that loop. */
    method StartServer(itr: Proc, pids: nat -> Pid, ghost kinds: seq<bool>, k: nat) returns (ok: bool)
      requires k < |kinds| == |servers.nodes| && itr == servers.nodes[k]
      requires (forall i :: 0 <= i < |kinds| ==> ServerOk(kinds, i)) && Started(pids, kinds, k)
      requires forall i, j :: 0 <= i < j < |kinds| ==> servers.nodes[i] != servers.nodes[j]
      modifies itr`procId, itr`pidArgument
      ensures ok == (pids(k) != -1)
      ensures ok ==> Started(pids, kinds, k + 1)
      ensures forall i :: 0 <= i < |kinds| ==> ServerOk(kinds, i)
    {
      assert ServerOk(kinds, k);
      if itr.subserver != null {
        itr.pidArgument := itr.subserver.procId;
      }
      itr.procId := pids(k);
      ok := itr.procId != -1;
      forall i | 0 <= i < |kinds|
        ensures ServerOk(kinds, i)
      {
        assert old(ServerOk(kinds, i));
      }
    }

    /** What the lists have to be for the arguments of the clients. */
    ghost predicate Ready(pids: nat -> Pid, kinds: seq<bool>, before: seq<nat>, rests: seq<string>)
      reads this, servers, clients, clients.repr`next, clients.nodes`server
      reads servers.nodes`procId, servers.nodes`pidArgument
    {
      && clients.Valid() && |clients.nodes| == |before| == |rests| && Started(pids, kinds, |kinds|)
      && servers.repr !! clients.repr && (forall i :: 0 <= i < |servers.nodes| ==> servers.nodes[i] in servers.repr)
      && (forall i :: 0 <= i < |before| ==> ClientOk(before, i))
      && HaveTexts(clients.nodes, Texts(options, before, rests))
    }

    /** The first `k` clients have the process IDs of their servers. */
    ghost predicate PidsUpTo(pids: nat -> Pid, kinds: seq<bool>, before: seq<nat>, k: nat)
      requires k <= |before|
      reads this, clients, clients.nodes`pidArgument
    {
      forall i :: 0 <= i < k ==> ArgumentOk(pids, kinds, before, i)
    }

    /** The first `k` clients have their vectors. */
    ghost predicate VectorsUpTo(pids: nat -> Pid, before: seq<nat>, rests: seq<string>, k: nat)
      requires k <= |before| == |rests|
      reads this, clients, clients.nodes`argv, Arrays()
    {
      HaveVectors(Vectors(options, pids, before, rests)[..k])
    }

    /** procs_make_argv on the clients, after the servers have been started: each client that was configured after a
        server gets the process ID of the last server before it, and each gets its vector. */
    method MakeClientArguments(pids: nat -> Pid, ghost kinds: seq<bool>, ghost before: seq<nat>, ghost rests: seq<string>)
      requires Ready(pids, kinds, before, rests)
      modifies clients.repr`pidArgument, clients.repr`argv
      ensures PidsUpTo(pids, kinds, before, |before|)
      ensures VectorsUpTo(pids, before, rests, |before|)
    {
      var itr := clients.first;
      ghost var k := 0;
      while itr != null
        invariant k <= |before| && Ready(pids, kinds, before, rests) && itr == clients.NodeAt(k)
        invariant PidsUpTo(pids, kinds, before, k) && VectorsUpTo(pids, before, rests, k)
        decreases |before| - k
      {
        itr := ClientArguments(itr, pids, kinds, before, rests, k);
        k := k + 1;
      }
    }

    /** The body of that loop. */
    method ClientArguments(itr: Proc, ghost pids: nat -> Pid, ghost kinds: seq<bool>, ghost before: seq<nat>,
                           ghost rests: seq<string>, ghost k: nat) returns (next: Proc?)
      requires Ready(pids, kinds, before, rests) && k < |before| && itr == clients.nodes[k]
      requires PidsUpTo(pids, kinds, before, k) && VectorsUpTo(pids, before, rests, k)
      modifies itr`pidArgument, itr`argv
      ensures Ready(pids, kinds, before, rests) && next == clients.NodeAt(k + 1)
      ensures PidsUpTo(pids, kinds, before, k + 1) && VectorsUpTo(pids, before, rests, k + 1)
    {
      SetClientArgument(itr, pids, kinds, before, rests, k);
      SetVector(itr, pids, kinds, before, rests, k);
      next := itr.next;
    }

    /** Each of the first `|vectors|` clients has its vector. */
    ghost predicate HaveVectors(vectors: seq<seq<string>>)
      reads this, clients, clients.nodes`argv, Arrays()
    {
      |vectors| <= |clients.nodes| && forall i :: 0 <= i < |vectors| ==> VectorOk(i, vectors[i])
    }

    ghost function Arrays(): set<object>
      reads this, clients, clients.nodes`argv
    {
      (set p | p in clients.nodes && p.argv != None :: p.argv.value.buffer)
      + (set p | p in clients.nodes && p.argv != None :: p.argv.value.pointers)
    }

    ghost predicate VectorOk(i: nat, tokens: seq<string>)
      requires i < |clients.nodes|
      reads this, clients, clients.nodes`argv, Arrays()
    {
      clients.nodes[i].argv != None && HasTokens(clients.nodes[i].argv.value, tokens)
    }

    /** First the process ID of its server. */
    method SetClientArgument(itr: Proc, ghost pids: nat -> Pid, ghost kinds: seq<bool>, ghost before: seq<nat>,
                             ghost rests: seq<string>, ghost k: nat)
      requires Ready(pids, kinds, before, rests) && k < |before| && itr == clients.nodes[k]
      requires PidsUpTo(pids, kinds, before, k)
      modifies itr`pidArgument
      ensures Ready(pids, kinds, before, rests) && PidsUpTo(pids, kinds, before, k + 1)
    {
      assert ClientOk(before, k);
      if itr.server != null {
        assert servers.nodes[before[k] - 1].procId == pids(before[k] - 1);
        itr.pidArgument := itr.server.procId;
      }
      forall i | 0 <= i < k
        ensures ArgumentOk(pids, kinds, before, i)
      {
        assert old(ArgumentOk(pids, kinds, before, i));
      }
    }

    /** Then its vector is made. */
    method SetVector(itr: Proc, ghost pids: nat -> Pid, ghost kinds: seq<bool>, ghost before: seq<nat>,
                     ghost rests: seq<string>, ghost k: nat)
      requires Ready(pids, kinds, before, rests) && k < |before| && itr == clients.nodes[k]
      requires PidsUpTo(pids, kinds, before, k + 1) && VectorsUpTo(pids, before, rests, k)
      modifies itr`argv
      ensures VectorsUpTo(pids, before, rests, k + 1)
    {
      assert ClientOk(before, k) && ArgumentOk(pids, kinds, before, k);
      var v := PidOf(itr, pids, kinds, before, rests, k);
      var vector := MakeVectorOf(itr, options, v, pids, before, rests, k);
      TakeOne(Vectors(options, pids, before, rests), k);
      StoreVector(itr, vector, k, Vectors(options, pids, before, rests)[..k], Vectors(options, pids, before, rests)[k]);
    }

    method PidOf(itr: Proc, ghost pids: nat -> Pid, ghost kinds: seq<bool>, ghost before: seq<nat>,
                 ghost rests: seq<string>, ghost k: nat) returns (v: Option<nat>)
      requires k < |clients.nodes| == |before| == |rests| && itr == clients.nodes[k]
      requires ClientOk(before, k) && ArgumentOk(pids, kinds, before, k)
      ensures v == ServerPid(pids, ClientSpec(before[k], rests[k])) && (v == None <==> before[k] == 0)
    {
      v := None;
      if itr.server != null {
        v := Some(itr.pidArgument);
      }
    }

    method StoreVector(itr: Proc, vector: ArgVector, ghost k: nat, ghost done: seq<seq<string>>, ghost tokens: seq<string>)
      requires k < |clients.nodes| && itr == clients.nodes[k] && HasTokens(vector, tokens)
      requires HaveVectors(done) && |done| == k
      requires forall i, j :: 0 <= i < j < |clients.nodes| ==> clients.nodes[i] != clients.nodes[j]
      modifies itr`argv
      ensures HaveVectors(done + [tokens])
    {
      itr.argv := Some(vector);
      forall i | 0 <= i < k + 1
        ensures VectorOk(i, (done + [tokens])[i])
      {
        assert i < k ==> old(VectorOk(i, done[i]));
      }
    }

    /** The `i`-th client has the process ID of its server, if it has one, and that server has been started. */
    ghost predicate ArgumentOk(pids: nat -> Pid, kinds: seq<bool>, before: seq<nat>, i: nat)
      requires i < |before|
      reads this, clients, clients.nodes`pidArgument
    {
      && |clients.nodes| == |before|
      && (before[i] > 0 ==>
            && before[i] <= |kinds| && pids(before[i] - 1) != -1
            && clients.nodes[i].pidArgument == pids(before[i] - 1))
    }

    /** The first `n` servers have been started, each with the process ID of the server before it if it has one. */
    ghost predicate Started(pids: nat -> Pid, kinds: seq<bool>, n: nat)
      requires n <= |kinds|
      reads this, servers, servers.nodes`procId, servers.nodes`pidArgument
    {
      && |servers.nodes| == |kinds|
      && (forall i :: 0 <= i < n ==> servers.nodes[i].procId == pids(i) && pids(i) != -1)
      && (forall i :: 0 < i < n && kinds[i] ==> servers.nodes[i].pidArgument == pids(i - 1))
    }
  }

  // ---------- the chains that result ----------

  /** The servers reached from server `i` by following subservers. */
  function Chain(kinds: seq<bool>, i: nat): (chain: seq<nat>)
    requires i < |kinds| && !kinds[0]
    ensures chain != [] && chain[0] == i
  {
    if kinds[i] then [i] + Chain(kinds, i - 1) else [i]
  }

  /** The subservers of any server are the servers just before it in the list, one by one, back to the nearest one
      without a subserver, where the chain ends. (An accepted configuration has no subserver for the first server.) */
  lemma {:induction false} ChainIsSegment(kinds: seq<bool>, i: nat)
    requires i < |kinds| && !kinds[0]
    ensures var chain := Chain(kinds, i);
            && |chain| <= i + 1
            && (forall k :: 0 <= k < |chain| ==> chain[k] == i - k)
            && (forall k :: 0 <= k < |chain| - 1 ==> kinds[chain[k]])
            && !kinds[chain[|chain| - 1]]
  {
    if kinds[i] {
      ChainIsSegment(kinds, i - 1);
    }
  }

  /** The vector of a client is as wanted, on every line that it can have. */
  lemma VectorIsWanted(o: Options, spec: ClientSpec, v: Option<nat>)
    ensures VectorOf(o, spec, v)
            == ["./client"] + ProcArgv.Tokens(spec.rest) + ProcArgv.ClientWanted(v, o.duration, o.start, o.stop)
            <==> ProcArgv.ClientFits(ProcArgv.Tokens(spec.rest), v, o.duration, o.start, o.stop)
  {
    ProcArgv.ClientVector(spec.rest, v, o.duration, o.start, o.stop);
  }

  /** From the configuration to the running processes: every process ID that is put into an argument list belongs to a
      process that has been started by then, and the vector of each client is filled in with that of its server. */
  method Drive(lines: seq<Line>, o: Options, pids: nat -> Pid) returns (rc: int, driver: Driver)
    requires NoNulIn(lines)
    ensures rc == 0 || rc == -1
    ensures rc == 0 <==> Acceptable(lines) && forall i :: 0 <= i < |ServerKinds(lines)| ==> pids(i) != -1
    ensures rc == 0 ==>
              var kinds, before := ServerKinds(lines), ServersBeforeClients(lines);
              && driver.options == o && driver.Started(pids, kinds, |kinds|)
              && |ClientRests(lines)| == |before|
              && driver.PidsUpTo(pids, kinds, before, |before|)
              && driver.VectorsUpTo(pids, before, ClientRests(lines), |before|)
  {
    driver := new Driver(o);
    rc := driver.Load(lines);
    if rc != 0 {
      return;
    }
    ghost var kinds, before := ServerKinds(lines), ServersBeforeClients(lines);
    rc := driver.CreateServers(pids, kinds, before);
    if rc != 0 {
      return;
    }
    driver.MakeClientArguments(pids, kinds, before, ClientRests(lines));
  }
}
