/** The SIGUSR1 handshake that takes a chain of servers into SCHED_FIFO and out of it again (sighand of
    bwi-client_server/server.c), and the client that drives its head (bwi-client_server/client.c).

    `servers[0]` is the head of the chain and `servers[i + 1]` is the subserver of `servers[i]`. SIGUSR1 is blocked while
    its handler runs, so a signal that arrives meanwhile is pending. The model stops when some process gives up with
    a fatal error.
 */
module FifoChain {
  const POLLS: nat := 500

  /** Where the signal handler of a server is. `leaving` is the branch taken on `old_scheduler_set`. */
  datatype Handler =
    | Idle
    | Signalling(leaving: bool)             // about to signal the subserver
    | Polling(leaving: bool, counter: nat)  // watching the subserver's scheduler
    | Switching(leaving: bool)              // about to change its own scheduler
    | Recording(leaving: bool)              // about to update old_scheduler_set

  /** `failed` is history: the last change of scheduler failed, which is only logged. */
  datatype Server = Server(fifo: bool, oldSchedulerSet: bool, pending: bool, handler: Handler, failed: bool)

  const OFF := Server(false, false, false, Idle, false)

  /** Where the client's measurement is. `Requesting` is the timed request. */
  datatype Client = Start | WaitingOn(counter: nat) | Requesting | WaitingOff(counter: nat)

  datatype State = State(client: Client, servers: seq<Server>, fatal: bool)

  ghost predicate Init(s: State) {
    && s.servers != [] && (forall i :: 0 <= i < |s.servers| ==> s.servers[i] == OFF)
    && s.client == Start && !s.fatal
  }

  // ---------- steps ----------

  function WithServer(s: State, i: nat, v: Server): State
    requires i < |s.servers|
  {
    s.(servers := s.servers[i := v])
  }

  /** kill(pid, SIGUSR1). */
  function Signal(s: State, i: nat): State
    requires i < |s.servers|
  {
    WithServer(s, i, s.servers[i].(pending := true))
  }

  /** One step of the handler of server `i`. */
  ghost predicate ServerStep(s: State, t: State, i: nat)
    requires i < |s.servers|
  {
    var v, last := s.servers[i], i + 1 == |s.servers|;
    match v.handler
    case Idle =>
      v.pending
      && t == WithServer(s, i, v.(pending := false, handler := if last then Switching(v.oldSchedulerSet)
                                                               else Signalling(v.oldSchedulerSet)))
    case Signalling(leaving) =>
      !last && t == Signal(WithServer(s, i, v.(handler := Polling(leaving, POLLS))), i + 1)
    case Polling(leaving, counter) =>
      !last
      && t == (if s.servers[i + 1].fifo == leaving && counter != 0 then
                 WithServer(s, i, v.(handler := Polling(leaving, counter - 1)))
               else if counter == 0 then s.(fatal := true)
               else WithServer(s, i, v.(handler := Switching(leaving))))
    case Switching(leaving) =>
      || t == WithServer(s, i, v.(fifo := !leaving, handler := Recording(leaving)))
      || t == WithServer(s, i, v.(handler := Idle, failed := true))
    case Recording(leaving) =>
      t == WithServer(s, i, v.(oldSchedulerSet := !leaving, handler := Idle))
  }

  /** One step of the client; a further measurement may follow a finished one. */
  ghost predicate ClientStep(s: State, t: State)
    requires s.servers != []
  {
    match s.client
    case Start => t == Signal(s, 0).(client := WaitingOn(POLLS))
    case WaitingOn(counter) =>
      t == (if !s.servers[0].fifo && counter != 0 then s.(client := WaitingOn(counter - 1))
            else if counter == 0 then s.(fatal := true)
            else s.(client := Requesting))
    case Requesting => t == Signal(s, 0).(client := WaitingOff(POLLS))
    case WaitingOff(counter) =>
      t == (if s.servers[0].fifo && counter != 0 then s.(client := WaitingOff(counter - 1))
            else if counter == 0 then s.(fatal := true)
            else s.(client := Start))
  }

  ghost predicate Next(s: State, t: State)
    requires s.servers != []
  {
    && !s.fatal
    && (ClientStep(s, t) || exists i :: 0 <= i < |s.servers| && ServerStep(s, t, i))
  }

  ghost predicate Run(run: seq<State>) {
    && run != [] && Init(run[0])
    && (forall i :: 0 <= i < |run| ==> run[i].servers != [])
    && (forall i :: 0 < i < |run| ==> Next(run[i - 1], run[i]))
  }

  // ---------- what one process relies on about the next ----------

  /** What a process has achieved with the part of the chain after it. */
  datatype View = AllOff | GoingOn | AllOn | GoingOff

  function ClientView(c: Client): View {
    match c
    case Start => AllOff
    case WaitingOn(_) => GoingOn
    case Requesting => AllOn
    case WaitingOff(_) => GoingOff
  }

  function ServerView(v: Server): View {
    match v.handler
    case Idle => if v.fifo == v.failed then AllOff else AllOn
    case Signalling(leaving) => if leaving then AllOn else AllOff
    case Polling(leaving, _) => if leaving then GoingOff else GoingOn
    case Switching(leaving) => if leaving then AllOff else AllOn
    case Recording(leaving) => if leaving then AllOff else AllOn
  }

  /** How the process before server `i` sees the chain from `i` on. */
  function ViewBefore(s: State, i: nat): View
    requires i < |s.servers|
  {
    if i == 0 then ClientView(s.client) else ServerView(s.servers[i - 1])
  }

  /** The fields of a server agree with where its handler is. */
  predicate Coherent(v: Server) {
    match v.handler
    case Idle => v.fifo == v.oldSchedulerSet
    case Recording(leaving) => v.oldSchedulerSet == leaving && v.fifo != leaving && !v.failed
    case _ => v.oldSchedulerSet == v.handler.leaving && v.fifo == v.handler.leaving && !v.failed
  }

  /** The server has done what it was last signalled to do: be in SCHED_FIFO or not. */
  predicate Settled(v: Server, on: bool) {
    v.fifo == on && !v.failed && (v.handler == Idle || v.handler == Recording(!on))
  }

  /** A server that was signalled to go `on` or off: the signal is pending, or the handler runs, or it failed. */
  predicate UnderWay(v: Server, on: bool) {
    || (v.pending && Settled(v, !on))
    || (!v.pending && v.fifo != on && !v.failed
        && v.handler != Idle && !v.handler.Recording? && v.handler.leaving == !on)
    || (!v.pending && v.fifo != on && v.failed && v.handler == Idle)
  }

  predicate Linked(view: View, v: Server) {
    match view
    case AllOff => Settled(v, false) && !v.pending
    case AllOn => Settled(v, true) && !v.pending
    case GoingOn => (Settled(v, true) && !v.pending) || UnderWay(v, true)
    case GoingOff => (Settled(v, false) && !v.pending) || UnderWay(v, false)
  }

  ghost predicate LinkAt(s: State, i: nat)
    requires i < |s.servers|
  {
    Coherent(s.servers[i]) && Linked(ViewBefore(s, i), s.servers[i])
  }

  ghost predicate Inv(s: State) {
    s.servers != [] && forall i :: 0 <= i < |s.servers| ==> LinkAt(s, i)
  }

  /** The link to the server that makes the step: its handler moves within what was asked of it. */
  lemma StepKeepsOwnLink(s: State, t: State, i: nat)
    requires Inv(s) && i < |s.servers| && ServerStep(s, t, i)
    ensures |t.servers| == |s.servers| && LinkAt(t, i)
  {
    assert LinkAt(s, i);
    if i + 1 < |s.servers| {
      assert LinkAt(s, i + 1);
    }
  }

  /** The link to its subserver: it is signalled only when settled, and left only when it has done what it was asked. */
  lemma StepKeepsNextLink(s: State, t: State, i: nat)
    requires Inv(s) && i + 1 < |s.servers| && ServerStep(s, t, i)
    ensures |t.servers| == |s.servers| && LinkAt(t, i + 1)
  {
    assert LinkAt(s, i);
    assert LinkAt(s, i + 1);
  }

  /** A step of a server changes itself and at most the pending bit of its subserver. */
  lemma StepFrame(s: State, t: State, i: nat, j: nat)
    requires i < |s.servers| && ServerStep(s, t, i) && j < |s.servers| && j != i
    ensures |t.servers| == |s.servers| && t.client == s.client
    ensures t.servers[j] == s.servers[j] || (j == i + 1 && t.servers[j] == s.servers[j].(pending := true))
  {
  }

  lemma StepKeepsOtherLinks(s: State, t: State, i: nat, j: nat)
    requires Inv(s) && i < |s.servers| && ServerStep(s, t, i)
    requires j < |s.servers| && j != i && j != i + 1
    ensures |t.servers| == |s.servers| && LinkAt(t, j)
  {
    assert LinkAt(s, j);
    StepFrame(s, t, i, j);
    if j > 0 {
      StepFrame(s, t, i, j - 1);
    }
    SameLink(s, t, j);
  }

  lemma SameLink(s: State, t: State, j: nat)
    requires j < |s.servers| == |t.servers| && s.client == t.client && s.servers[j] == t.servers[j] && LinkAt(s, j)
    requires j > 0 ==> t.servers[j - 1].(pending := true) == s.servers[j - 1].(pending := true)
    ensures LinkAt(t, j)
  {
  }

  lemma ServerStepKeepsInv(s: State, t: State, i: nat)
    requires Inv(s) && i < |s.servers| && ServerStep(s, t, i)
    ensures Inv(t)
  {
    StepKeepsOwnLink(s, t, i);
    forall j | 0 <= j < |t.servers|
      ensures LinkAt(t, j)
    {
      if j == i + 1 {
        StepKeepsNextLink(s, t, i);
      } else if j != i {
        StepKeepsOtherLinks(s, t, i, j);
      }
    }
  }

  lemma ClientStepKeepsInv(s: State, t: State)
    requires Inv(s) && ClientStep(s, t)
    ensures Inv(t)
  {
    forall j | 0 <= j < |t.servers|
      ensures LinkAt(t, j)
    {
      assert LinkAt(s, j);
    }
  }

  lemma NextKeepsInv(s: State, t: State)
    requires Inv(s) && Next(s, t)
    ensures Inv(t)
  {
    if ClientStep(s, t) {
      ClientStepKeepsInv(s, t);
    } else {
      var i :| 0 <= i < |s.servers| && ServerStep(s, t, i);
      ServerStepKeepsInv(s, t, i);
    }
  }

  lemma {:induction false} InvHolds(run: seq<State>, k: nat)
    requires Run(run) && k < |run|
    ensures Inv(run[k])
  {
    if k > 0 {
      InvHolds(run, k - 1);
      assert Next(run[k - 1], run[k]);
      NextKeepsInv(run[k - 1], run[k]);
    }
  }

  // ---------- the set of servers in SCHED_FIFO ----------

  /** What a server passes on of what the process before it has achieved. */
  lemma ViewPassesOn(s: State, i: nat)
    requires Inv(s) && i < |s.servers|
    ensures var before, v, after := ViewBefore(s, i), s.servers[i], ServerView(s.servers[i]);
            && (before == AllOff ==> !v.fifo && after == AllOff)
            && (before == AllOn ==> v.fifo && after == AllOn)
            && (before == GoingOn ==> after != GoingOff && (v.fifo ==> after == AllOn))
            && (before == GoingOff ==> after != GoingOn && (!v.fifo ==> after == AllOff))
    ensures i + 1 < |s.servers| ==> ViewBefore(s, i + 1) == ServerView(s.servers[i])
  {
    assert LinkAt(s, i);
  }

  /** From `i` on all servers are in SCHED_FIFO, or none is, as the process before them has achieved. */
  lemma {:induction false} AllAlike(s: State, i: nat, j: nat)
    requires Inv(s) && i <= j < |s.servers|
    requires ViewBefore(s, i) in {AllOff, AllOn}
    ensures s.servers[j].fifo == (ViewBefore(s, i) == AllOn)
    decreases j - i
  {
    ViewPassesOn(s, i);
    if i < j {
      AllAlike(s, i + 1, j);
    }
  }

  /** While servers go on, those from `i` on that are in SCHED_FIFO are the last ones. */
  lemma {:induction false} OnesAreLast(s: State, i: nat, j: nat, k: nat)
    requires Inv(s) && i <= j <= k < |s.servers|
    requires ViewBefore(s, i) != GoingOff
    ensures s.servers[j].fifo ==> s.servers[k].fifo
    decreases k - i
  {
    ViewPassesOn(s, i);
    if ViewBefore(s, i) != GoingOn {
      AllAlike(s, i, j);
      AllAlike(s, i, k);
    } else if i < j {
      OnesAreLast(s, i + 1, j, k);
    } else if i < k && s.servers[i].fifo {
      AllAlike(s, i + 1, k);
    }
  }

  /** While servers go off, those from `i` on that are still in SCHED_FIFO are the first ones. */
  lemma {:induction false} OnesAreFirst(s: State, i: nat, j: nat, k: nat)
    requires Inv(s) && i <= j <= k < |s.servers|
    requires ViewBefore(s, i) != GoingOn
    ensures s.servers[k].fifo ==> s.servers[j].fifo
    decreases k - i
  {
    ViewPassesOn(s, i);
    if ViewBefore(s, i) != GoingOff {
      AllAlike(s, i, j);
      AllAlike(s, i, k);
    } else if i < j {
      OnesAreFirst(s, i + 1, j, k);
    } else if i < k && !s.servers[i].fifo {
      AllAlike(s, i + 1, k);
    }
  }

  /** In a chain of any length, whatever steps are interleaved: while the client makes its timed request every server is
      in SCHED_FIFO, and when it has not begun or has finished none is. */
  lemma EveryServerIsFifoDuringRequest(run: seq<State>, k: nat, j: nat)
    requires Run(run) && k < |run| && j < |run[k].servers|
    ensures run[k].client == Requesting ==> run[k].servers[j].fifo
    ensures run[k].client == Start ==> !run[k].servers[j].fifo
  {
    InvHolds(run, k);
    if run[k].client in {Requesting, Start} {
      AllAlike(run[k], 0, j);
    }
  }

  /** While the chain enters SCHED_FIFO, the servers that are in it form a suffix of the chain. */
  lemma EnteringIsSuffix(run: seq<State>, k: nat, i: nat, j: nat)
    requires Run(run) && k < |run| && i <= j < |run[k].servers|
    requires run[k].client.WaitingOn?
    ensures run[k].servers[i].fifo ==> run[k].servers[j].fifo
  {
    InvHolds(run, k);
    OnesAreLast(run[k], 0, i, j);
  }

  /** While the chain leaves SCHED_FIFO, the servers that are still in it form a prefix of the chain. */
  lemma LeavingIsPrefix(run: seq<State>, k: nat, i: nat, j: nat)
    requires Run(run) && k < |run| && i <= j < |run[k].servers|
    requires run[k].client.WaitingOff?
    ensures run[k].servers[j].fifo ==> run[k].servers[i].fifo
  {
    InvHolds(run, k);
    OnesAreFirst(run[k], 0, i, j);
  }

  // ---------- the handshake can succeed ----------

  /** A server at rest, in SCHED_FIFO or not. */
  function AtRest(on: bool): Server {
    Server(on, on, false, Idle, false)
  }

  /** Steps that lead from the first state to the last. */
  ghost predicate Path(path: seq<State>) {
    && path != []
    && (forall i :: 0 <= i < |path| ==> path[i].servers != [])
    && (forall i :: 0 < i < |path| ==> Next(path[i - 1], path[i]))
  }

  ghost predicate Leads(path: seq<State>, s: State, t: State) {
    Path(path) && path[0] == s && path[|path| - 1] == t
  }

  lemma PathStep(path: seq<State>, s: State, t: State, u: State, i: nat)
    requires Leads(path, s, t) && !t.fatal && u.servers != []
    requires i < |t.servers| && ServerStep(t, u, i)
    ensures Leads(path + [u], s, u)
  {
    assert Next(t, u);
  }

  lemma PathJoin(a: seq<State>, b: seq<State>, s: State, t: State, u: State)
    requires Leads(a, s, t) && Leads(b, t, u)
    ensures Leads(a + b[1..], s, u)
  {
    var c := a + b[1..];
    forall i | 0 < i < |c|
      ensures Next(c[i - 1], c[i])
    {
      if i >= |a| {
        assert c[i] == b[i - |a| + 1] && c[i - 1] == b[i - |a|];
      }
    }
  }

  /** `s` with all servers from `i` on at rest, in SCHED_FIFO or not. */
  function AllFrom(s: State, i: nat, on: bool): State
    requires i <= |s.servers|
  {
    s.(servers := s.servers[..i] + seq(|s.servers| - i, _ => AtRest(on)))
  }

  /** A server that is to change its scheduler, and whose subservers have done so already, does it. */
  lemma Switch(s: State, i: nat, on: bool) returns (path: seq<State>)
    requires !s.fatal && i < |s.servers| && s.servers[i] == AtRest(!on).(handler := Switching(!on))
    requires forall j :: i < j < |s.servers| ==> s.servers[j] == AtRest(on)
    ensures Leads(path, s, AllFrom(s, i, on))
  {
    var v := s.servers[i];
    var t := WithServer(s, i, v.(fifo := on, handler := Recording(!on)));
    var u := WithServer(t, i, AtRest(on));
    PathStep([s], s, s, t, i);
    PathStep([s] + [t], s, t, u, i);
    path := [s] + [t] + [u];
    assert u.servers == AllFrom(s, i, on).servers;
  }

  /** A server that watches its subserver, which has changed already, does so too. */
  lemma PollThenSwitch(s: State, i: nat, on: bool) returns (path: seq<State>)
    requires !s.fatal && i + 1 < |s.servers| && s.servers[i] == AtRest(!on).(handler := Polling(!on, POLLS))
    requires forall j :: i < j < |s.servers| ==> s.servers[j] == AtRest(on)
    ensures Leads(path, s, AllFrom(s, i, on))
  {
    var t := WithServer(s, i, AtRest(!on).(handler := Switching(!on)));
    PathStep([s], s, s, t, i);
    var rest := Switch(t, i, on);
    assert AllFrom(t, i, on).servers == AllFrom(s, i, on).servers;
    PathJoin([s] + [t], rest, s, t, AllFrom(s, i, on));
    path := [s] + [t] + rest[1..];
  }

  /** The last server of the chain, once it is signalled, changes. */
  lemma LastChanges(s: State, i: nat, on: bool) returns (path: seq<State>)
    requires !s.fatal && i + 1 == |s.servers| && s.servers[i] == AtRest(!on).(pending := true)
    ensures Leads(path, s, AllFrom(s, i, on))
  {
    var t := WithServer(s, i, AtRest(!on).(handler := Switching(!on)));
    PathStep([s], s, s, t, i);
    var rest := Switch(t, i, on);
    assert AllFrom(t, i, on).servers == AllFrom(s, i, on).servers;
    PathJoin([s] + [t], rest, s, t, AllFrom(s, i, on));
    path := [s] + [t] + rest[1..];
  }

  /** A server with a subserver, once it is signalled, signals that and starts to watch it. */
  lemma SignalsNext(s: State, i: nat, on: bool) returns (path: seq<State>, u: State)
    requires !s.fatal && i + 1 < |s.servers| && s.servers[i] == AtRest(!on).(pending := true)
    ensures u == Signal(WithServer(s, i, AtRest(!on).(handler := Polling(!on, POLLS))), i + 1)
    ensures Leads(path, s, u)
  {
    var t := WithServer(s, i, AtRest(!on).(handler := Signalling(!on)));
    u := Signal(WithServer(t, i, AtRest(!on).(handler := Polling(!on, POLLS))), i + 1);
    PathStep([s], s, s, t, i);
    PathStep([s] + [t], s, t, u, i);
    path := [s] + [t] + [u];
    assert u.servers == Signal(WithServer(s, i, AtRest(!on).(handler := Polling(!on, POLLS))), i + 1).servers;
  }

  /** A signalled server whose subservers are all off, or all on, takes itself and them into SCHED_FIFO, or out of it, if
      nothing fails. */
  lemma {:induction false} ChainChanges(s: State, i: nat, on: bool) returns (path: seq<State>)
    requires !s.fatal && i < |s.servers| && s.servers[i] == AtRest(!on).(pending := true)
    requires forall j :: i < j < |s.servers| ==> s.servers[j] == AtRest(!on)
    ensures Leads(path, s, AllFrom(s, i, on))
    decreases |s.servers| - i
  {
    if i + 1 == |s.servers| {
      path := LastChanges(s, i, on);
    } else {
      var front, u := SignalsNext(s, i, on);
      var below := ChainChanges(u, i + 1, on);
      var v := AllFrom(u, i + 1, on);
      PathJoin(front, below, s, u, v);
      var rest := PollThenSwitch(v, i, on);
      assert AllFrom(v, i, on).servers == AllFrom(s, i, on).servers;
      PathJoin(front + below[1..], rest, s, v, AllFrom(s, i, on));
      path := front + below[1..] + rest[1..];
    }
  }

  /** A chain of `n` servers that are all at rest, and where the client is. */
  function Chain(n: nat, on: bool, client: Client): State {
    State(client, seq(n, _ => AtRest(on)), false)
  }

  /** The client signals the head of such a chain and waits until it has changed. */
  lemma HandshakeSucceeds(n: nat, on: bool) returns (path: seq<State>)
    requires n >= 1
    ensures Leads(path, Chain(n, !on, if on then Start else Requesting), Chain(n, on, if on then Requesting else Start))
  {
    var s, t := Chain(n, !on, if on then Start else Requesting), Chain(n, on, if on then Requesting else Start);
    var u := Signal(s, 0).(client := if on then WaitingOn(POLLS) else WaitingOff(POLLS));
    assert ClientStep(s, u) && Next(s, u);
    var changing := ChainChanges(u, 0, on);
    var v := AllFrom(u, 0, on);
    PathJoin([s, u], changing, s, u, v);
    assert v.servers == t.servers;
    assert ClientStep(v, t) && Next(v, t);
    PathJoin([s, u] + changing[1..], [v, t], s, v, t);
    path := [s, u] + changing[1..] + [v, t][1..];
  }

  /** One whole measurement; the timed request is made at `request`. */
  lemma MeasurementSucceeds(n: nat) returns (path: seq<State>, request: nat)
    requires n >= 1
    ensures Leads(path, Chain(n, false, Start), Chain(n, false, Start))
    ensures request + 1 < |path| && path[request].client == Requesting
  {
    var s, t := Chain(n, false, Start), Chain(n, true, Requesting);
    var entering := HandshakeSucceeds(n, true);
    var leaving := HandshakeSucceeds(n, false);
    PathJoin(entering, leaving, s, t, s);
    path, request := entering + leaving[1..], |entering| - 1;
    assert |leaving| > 1;
  }

  /** In the run the client makes its request at `requests`, and at `ends` it has finished each measurement. */
  ghost predicate Measures(run: seq<State>, requests: seq<nat>, ends: seq<nat>) {
    && |requests| == |ends|
    && forall k :: 0 <= k < |ends| ==>
         && requests[k] < ends[k] < |run|
         && run[requests[k]].client == Requesting && run[ends[k]].client == Start
         && (k > 0 ==> ends[k - 1] <= requests[k])
  }

  /** For a chain of any length there is a run with any number of measurements. */
  lemma {:induction false} RequestsCanRepeat(n: nat, times: nat)
      returns (run: seq<State>, requests: seq<nat>, ends: seq<nat>)
    requires n >= 1
    ensures Run(run) && Leads(run, Chain(n, false, Start), Chain(n, false, Start))
    ensures Measures(run, requests, ends) && |ends| == times
  {
    var s := Chain(n, false, Start);
    if times == 0 {
      run, requests, ends := [s], [], [];
    } else {
      var before, rs, es := RequestsCanRepeat(n, times - 1);
      var path, request := MeasurementSucceeds(n);
      PathJoin(before, path, s, s, s);
      run := before + path[1..];
      requests, ends := rs + [|before| - 1 + request], es + [|run| - 1];
      assert request > 0;
      assert run[|before| - 1 + request] == path[request];
    }
  }

  lemma RequestIsReachable(n: nat) returns (run: seq<State>)
    requires n >= 1
    ensures Run(run) && |run[|run| - 1].servers| == n && run[|run| - 1].client == Requesting
  {
    run := HandshakeSucceeds(n, true);
  }
}
