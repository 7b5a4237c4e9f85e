/** Which features are enabled, and who may connect: the capture context and its client
    manager, as one machine of connection events and API calls. */
module CaptureContext {
  import opened CaptureApi
  import opened CStrings
  import B = Blocklist
  import opened Wrappers

  datatype Feature = UnknownFeature | Profiling | MemoryTrace | Raytracing | CrashAnalysis

  /** The features an adapter was created for. */
  const ADAPTERS: set<Feature> := {Profiling, MemoryTrace, Raytracing, CrashAnalysis}

  const PROCESS_PATH_SIZE: nat := 1024

  // ---------------------------------------------------------------- features

  /** The enabled features, and the adapters that are switched on. */
  datatype Features = Features(enabled: set<Feature>, on: set<Feature>)

  /** What the driver side answers to an enable request: to the configuration, and to
      setting the driver's feature flag, if its interface is there at all. */
  datatype Driver = Driver(configured: CaptureResult, present: bool, flagSet: bool)

  predicate Configurable(f: Feature) {
    f != MemoryTrace
  }

  /** Memory traces need no driver flag, but the interface. */
  predicate DriverEnabled(f: Feature, d: Driver) {
    d.present && (f == MemoryTrace || d.flagSet)
  }

  /** Why an enable request is turned down before anything happens. */
  function Refusal(s: Features, pid: nat, f: Feature): Option<CaptureResult> {
    if f !in ADAPTERS then Some(InvalidParams)
    else if pid != 0 || f in s.enabled then Some(NotReady)
    else if (f == CrashAnalysis && s.enabled != {}) || CrashAnalysis in s.enabled then Some(NotReady)
    else None
  }

  function Enabled(s: Features, pid: nat, f: Feature, d: Driver): (Features, CaptureResult) {
    if Refusal(s, pid, f).Some? then (s, Refusal(s, pid, f).value)
    else
      var on := s.(on := s.on + {f});
      if Configurable(f) && d.configured != Success then (on, d.configured)
      else if !DriverEnabled(f, d) then (s.(on := s.on - {f}), Failure)
      else (on.(enabled := s.enabled + {f}), Success)
  }

  function Disabled(s: Features, pid: nat, f: Feature): (Features, CaptureResult) {
    if f !in ADAPTERS then (s, InvalidParams)
    else if pid != 0 || f !in s.enabled then (s, NotReady)
    else (Features(s.enabled - {f}, s.on - {f}), Success)
  }

  /** Crash analysis is enabled only alone, and what is enabled has its adapter on. */
  ghost predicate FeaturesInv(s: Features) {
    && (CrashAnalysis in s.enabled ==> s.enabled == {CrashAnalysis})
    && s.enabled <= s.on <= ADAPTERS
  }

  /** A request succeeds exactly when nothing is connected, the feature is new and gets on
      with the enabled ones, and configuration and driver agree; it changes the enabled set
      exactly then, by that feature. */
  lemma EnableSucceedsIff(s: Features, pid: nat, f: Feature, d: Driver)
    requires FeaturesInv(s)
    ensures Enabled(s, pid, f, d).1 == Success <==>
            && f != UnknownFeature && pid == 0 && f !in s.enabled &&
               (s.enabled == {} || CrashAnalysis !in s.enabled + {f})
            && (f == MemoryTrace || d.configured == Success) && DriverEnabled(f, d)
    ensures Enabled(s, pid, f, d).0.enabled == if Enabled(s, pid, f, d).1 == Success then s.enabled + {f} else s.enabled
  {
    assert f == UnknownFeature || f in ADAPTERS;
  }

  /** What a request to enable is answered, and leaves, in each case: a refused one nothing, a
      failed configuration the adapter on, a failing driver the adapter off. */
  lemma EnableByCases(s: Features, pid: nat, f: Feature, d: Driver)
    ensures var (t, result) := Enabled(s, pid, f, d);
            var clash := f != CrashAnalysis && CrashAnalysis in s.enabled;
            if f == UnknownFeature then t == s && result == InvalidParams
            else if pid != 0 || f in s.enabled || (f == CrashAnalysis && s.enabled != {}) || clash then
              t == s && result == NotReady
            else if f != MemoryTrace && d.configured != Success then
              t.enabled == s.enabled && t.on == s.on + {f} && result == d.configured
            else if !d.present || (f != MemoryTrace && !d.flagSet) then
              t.enabled == s.enabled && t.on == s.on - {f} && result == Failure
            else t.enabled == s.enabled + {f} && t.on == s.on + {f} && result == Success
  {
    assert f == UnknownFeature || f in ADAPTERS;
  }

  /** A request to disable succeeds exactly when nothing is connected and the feature is
      enabled; otherwise it changes nothing and says which of its reasons it has. */
  lemma DisableSucceedsIff(s: Features, pid: nat, f: Feature)
    ensures var (t, result) := Disabled(s, pid, f);
            && (result == Success <==> f != UnknownFeature && pid == 0 && f in s.enabled)
            && (result == Success ==> t.enabled == s.enabled - {f} && t.on == s.on - {f})
            && (result != Success ==> t == s && result == if f == UnknownFeature then InvalidParams else NotReady)
  {
    assert f == UnknownFeature || f in ADAPTERS;
  }

  /** Enabling then disabling a feature restores the enabled set. */
  lemma DisableUndoesEnable(s: Features, f: Feature, d: Driver)
    requires Enabled(s, 0, f, d).1 == Success
    ensures Disabled(Enabled(s, 0, f, d).0, 0, f).1 == Success
    ensures Disabled(Enabled(s, 0, f, d).0, 0, f).0.enabled == s.enabled
  {
  }

  /** The adapter is on although the feature is not enabled. */
  predicate Stranded(s: Features, g: Feature) {
    g in s.on && g !in s.enabled
  }

  /** In any state, a request that gets past the refusals strands its adapter exactly when
      the configuration fails, and frees an adapter stranded before when it does not; no
      other request, and no other adapter, is affected. */
  lemma AdapterStrandedIff(s: Features, pid: nat, f: Feature, d: Driver, g: Feature)
    ensures Stranded(Enabled(s, pid, f, d).0, g) <==>
            if g == f && Refusal(s, pid, f).None? then Configurable(f) && d.configured != Success else Stranded(s, g)
    ensures Stranded(Disabled(s, pid, f).0, g) <==> Stranded(s, g)
  {
  }

  // ---------------------------------------------------------------- connections

  datatype Client = Client(umd: nat, pid: nat, path: string)

  datatype Process = Process(pid: nat, path: string)

  const NO_PROCESS: Process := Process(0, [])

  /** The connected process, and the live UMD connections with their clients. */
  datatype Connections = Connections(process: Process, live: map<nat, Client>)

  /** The path of a process as it is recorded: cut to fit, or a stand-in. */
  function RecordedPath(raw: Option<string>): (path: string)
    ensures |path| < PROCESS_PATH_SIZE
  {
    if raw.None? then "Unknown" else
      var p := CStr(raw.value);
      if |p| < PROCESS_PATH_SIZE then p else p[..PROCESS_PATH_SIZE - 1]
  }

  /** The blocklist sees as much of the path's front as fits, so the whole path exactly when
      that does. */
  lemma RecordedPathIsWholeIff(raw: string)
    ensures RecordedPath(Some(raw)) <= CStr(raw) && RecordedPath(None) == "Unknown"
    ensures |RecordedPath(Some(raw))| == if |CStr(raw)| < 1024 then |CStr(raw)| else 1023
    ensures RecordedPath(Some(raw)) == CStr(raw) <==> |CStr(raw)| < 1024
  {
  }

  /** The fixed part: how the context was set up. */
  datatype Config = Config(caseSensitive: bool, ownPid: nat, hasFilter: bool)

  /** Whether a client is turned away, given the user filter's verdict on it. */
  predicate Ignored(cfg: Config, process: Process, patterns: seq<string>, c: Client, verdict: bool) {
    if process.pid != 0 && process.pid != c.pid then true
    else if B.Blocks(cfg.caseSensitive, patterns, c.path) then true
    else if cfg.hasFilter then !verdict
    else cfg.ownPid != c.pid
  }

  ghost predicate SomePatternMatches(cs: bool, patterns: seq<string>, path: string) {
    B.Basename(path) != [] && exists p :: p in patterns && B.EntryBlocks(cs, p, B.Basename(path))
  }

  lemma BlocksIffSomePattern(cs: bool, patterns: seq<string>, path: string)
    ensures B.Blocks(cs, patterns, path) <==> SomePatternMatches(cs, patterns, path)
  {
    B.BlocksIffSomeEntry(cs, patterns, B.Basename(path));
  }

  /** A client is accepted exactly when it fits the connected process, no blocklist pattern
      matches its file name, and the filter (or, without one, its being this process)
      speaks for it. */
  lemma AcceptedIff(cfg: Config, process: Process, patterns: seq<string>, c: Client, verdict: bool)
    ensures !Ignored(cfg, process, patterns, c, verdict) <==>
            && (process.pid == 0 || process.pid == c.pid)
            && !SomePatternMatches(cfg.caseSensitive, patterns, c.path)
            && (if cfg.hasFilter then verdict else c.pid == cfg.ownPid)
  {
    BlocksIffSomePattern(cfg.caseSensitive, patterns, c.path);
  }

  function Connect(conns: Connections, c: Client): Connections {
    Connections(if conns.process.pid == 0 then Process(c.pid, c.path) else conns.process, conns.live[c.umd := c])
  }

  function Disconnect(conns: Connections, umd: nat): Connections {
    var live := conns.live - {umd};
    Connections(if live == map[] then NO_PROCESS else conns.process, live)
  }

  /** What the manager assumes of a client that connects. */
  predicate Asserted(conns: Connections, c: Client) {
    conns.process.pid == 0 || conns.process.pid == c.pid
  }

  // ---------------------------------------------------------------- the machine

  /** An accepted client, and the blocklist it was accepted under. */
  datatype Acceptance = Acceptance(client: Client, patterns: seq<string>, verdict: bool)

  /** `pending` are the clients accepted but not yet connected. */
  datatype State = State(conns: Connections, features: Features, patterns: seq<string>,
                         pending: set<Client>, accepted: seq<Acceptance>)

  datatype Event =
    | Ask(client: Client, verdict: bool)
    | Connected(client: Client)
    | Disconnected(umd: nat)
    | Enable(feature: Feature, driver: Driver)
    | Disable(feature: Feature)
    | EditBlocklist(patterns: seq<string>)

  function Initial(patterns: seq<string>): State {
    State(Connections(NO_PROCESS, map[]), Features({}, {}), patterns, {}, [])
  }

  /** One event; only accepted clients connect. */
  function Step(cfg: Config, s: State, e: Event): State {
    match e
    case Ask(c, verdict) =>
      if Ignored(cfg, s.conns.process, s.patterns, c, verdict) then s
      else s.(pending := s.pending + {c}, accepted := s.accepted + [Acceptance(c, s.patterns, verdict)])
    case Connected(c) =>
      if c in s.pending then s.(conns := Connect(s.conns, c), pending := s.pending - {c}) else s
    case Disconnected(umd) => s.(conns := Disconnect(s.conns, umd))
    case Enable(f, d) => s.(features := Enabled(s.features, s.conns.process.pid, f, d).0)
    case Disable(f) => s.(features := Disabled(s.features, s.conns.process.pid, f).0)
    case EditBlocklist(patterns) => s.(patterns := patterns)
  }

  function Run(cfg: Config, s: State, es: seq<Event>): State {
    if es == [] then s else Step(cfg, Run(cfg, s, es[..|es| - 1]), es[|es| - 1])
  }

  /** Process ids are never zero. */
  ghost predicate RealPids(es: seq<Event>) {
    forall i :: 0 <= i < |es| && es[i].Ask? ==> es[i].client.pid != 0
  }

  lemma EnableKeeps(s: Features, pid: nat, f: Feature, d: Driver)
    requires FeaturesInv(s)
    ensures FeaturesInv(Enabled(s, pid, f, d).0)
  {
    if f == CrashAnalysis && s.enabled == {} {
      assert s.enabled + {f} == {CrashAnalysis};
    }
  }

  lemma DisableKeeps(s: Features, pid: nat, f: Feature)
    requires FeaturesInv(s)
    ensures FeaturesInv(Disabled(s, pid, f).0)
  {
  }

  /** In every run crash analysis is enabled only alone. */
  lemma {:induction false} CrashAnalysisIsExclusive(cfg: Config, patterns: seq<string>, es: seq<Event>)
    ensures FeaturesInv(Run(cfg, Initial(patterns), es).features)
  {
    if es != [] {
      var s := Run(cfg, Initial(patterns), es[..|es| - 1]);
      CrashAnalysisIsExclusive(cfg, patterns, es[..|es| - 1]);
      match es[|es| - 1]
      case Enable(f, d) => EnableKeeps(s.features, s.conns.process.pid, f, d);
      case Disable(f) => DisableKeeps(s.features, s.conns.process.pid, f);
      case _ =>
    }
  }

  /** A process is recorded exactly while some UMD connection is live. */
  ghost predicate PidInv(s: State) {
    && (s.conns.process.pid != 0 <==> s.conns.live != map[])
    && forall c :: c in s.pending ==> c.pid != 0
  }

  lemma PidStep(cfg: Config, s: State, e: Event)
    requires PidInv(s) && (e.Ask? ==> e.client.pid != 0)
    ensures PidInv(Step(cfg, s, e))
  {
    if e.Connected? {
      assert e.client.umd in Connect(s.conns, e.client).live;
    }
    if e.Disconnected? && s.conns.live == map[] {
      assert s.conns.live - {e.umd} == map[];
    }
  }

  lemma {:induction false} ProcessIffConnection(cfg: Config, patterns: seq<string>, es: seq<Event>)
    requires RealPids(es)
    ensures PidInv(Run(cfg, Initial(patterns), es))
  {
    if es != [] {
      ProcessIffConnection(cfg, patterns, es[..|es| - 1]);
      PidStep(cfg, Run(cfg, Initial(patterns), es[..|es| - 1]), es[|es| - 1]);
    }
  }

  // ---------------------------------------------------------------- the state, read off the events

  /** Each event touches its own part of the state: decisions who waits, connections who is
      live, requests the features, and edits the blocklist. */
  lemma EventsTouch(cfg: Config, s: State, e: Event)
    ensures var t := Step(cfg, s, e);
            && t.patterns == (if e.EditBlocklist? then e.patterns else s.patterns)
            && (!e.Enable? && !e.Disable? ==> t.features == s.features)
            && (!e.Connected? && !e.Disconnected? ==> t.conns == s.conns)
            && (!e.Ask? ==> t.accepted == s.accepted && t.pending <= s.pending)
  {
  }

  /** The state after the first `n` events. */
  function After(cfg: Config, patterns: seq<string>, es: seq<Event>, n: nat): State
    requires n <= |es|
  {
    if n == 0 then Initial(patterns) else Step(cfg, After(cfg, patterns, es, n - 1), es[n - 1])
  }

  lemma {:induction false} AfterPrefix(cfg: Config, patterns: seq<string>, es: seq<Event>, n: nat, k: nat)
    requires k <= n <= |es|
    ensures After(cfg, patterns, es[..n], k) == After(cfg, patterns, es, k)
  {
    hide Step;
    if k > 0 {
      AfterPrefix(cfg, patterns, es, n, k - 1);
    }
  }

  /** It is where the run of those events ends. */
  lemma {:induction false} AfterIsRun(cfg: Config, patterns: seq<string>, es: seq<Event>)
    ensures After(cfg, patterns, es, |es|) == Run(cfg, Initial(patterns), es)
  {
    hide Step;
    if es != [] {
      var n := |es| - 1;
      AfterIsRun(cfg, patterns, es[..n]);
      AfterPrefix(cfg, patterns, es, n, n);
    }
  }

  /** The event did not happen between the `k`th and the `n`th. */
  predicate NotSince(es: seq<Event>, k: nat, n: nat, e: Event)
    requires n <= |es|
  {
    forall j :: k < j < n ==> es[j] != e
  }

  /** At `k` the client was accepted. */
  predicate AcceptedAt(cfg: Config, patterns: seq<string>, es: seq<Event>, k: nat, c: Client)
    requires k < |es|
  {
    && es[k].Ask? && es[k].client == c
    && var now := After(cfg, patterns, es, k);
       !Ignored(cfg, now.conns.process, now.patterns, c, es[k].verdict)
  }

  /** At `k` a client that waited for it made the connection. */
  predicate ConnectedAt(cfg: Config, patterns: seq<string>, es: seq<Event>, k: nat, umd: nat)
    requires k < |es|
  {
    && es[k].Connected? && es[k].client.umd == umd
    && es[k].client in After(cfg, patterns, es, k).pending
  }

  lemma {:induction false} WaitingWasAccepted(cfg: Config, patterns: seq<string>, es: seq<Event>, n: nat, c: Client)
    returns (k: nat)
    requires n <= |es| && c in After(cfg, patterns, es, n).pending
    ensures k < n && AcceptedAt(cfg, patterns, es, k, c) && NotSince(es, k, n, Connected(c))
  {
    hide B.Blocks;
    if AcceptedAt(cfg, patterns, es, n - 1, c) {
      k := n - 1;
    } else {
      k := WaitingWasAccepted(cfg, patterns, es, n - 1, c);
    }
  }

  lemma {:induction false} AcceptedWaits(cfg: Config, patterns: seq<string>, es: seq<Event>, k: nat, n: nat, c: Client)
    requires k < n <= |es| && AcceptedAt(cfg, patterns, es, k, c) && NotSince(es, k, n, Connected(c))
    ensures c in After(cfg, patterns, es, n).pending
  {
    hide B.Blocks;
    if k < n - 1 {
      AcceptedWaits(cfg, patterns, es, k, n - 1, c);
    }
  }

  /** A client waits to connect exactly when it was accepted and has not connected since. */
  lemma WaitingIff(cfg: Config, patterns: seq<string>, es: seq<Event>, n: nat, c: Client)
    requires n <= |es|
    ensures c in After(cfg, patterns, es, n).pending <==>
            exists k :: 0 <= k < n && AcceptedAt(cfg, patterns, es, k, c) && NotSince(es, k, n, Connected(c))
  {
    if c in After(cfg, patterns, es, n).pending {
      var k := WaitingWasAccepted(cfg, patterns, es, n, c);
    }
    forall k | 0 <= k < n && AcceptedAt(cfg, patterns, es, k, c) && NotSince(es, k, n, Connected(c))
      ensures c in After(cfg, patterns, es, n).pending
    {
      AcceptedWaits(cfg, patterns, es, k, n, c);
    }
  }

  lemma {:induction false} LiveWasConnected(cfg: Config, patterns: seq<string>, es: seq<Event>, n: nat, umd: nat)
    returns (k: nat)
    requires n <= |es| && umd in After(cfg, patterns, es, n).conns.live
    ensures k < n && ConnectedAt(cfg, patterns, es, k, umd) && NotSince(es, k, n, Disconnected(umd))
    ensures After(cfg, patterns, es, n).conns.live[umd] == es[k].client
  {
    hide B.Blocks;
    if ConnectedAt(cfg, patterns, es, n - 1, umd) {
      k := n - 1;
    } else {
      k := LiveWasConnected(cfg, patterns, es, n - 1, umd);
    }
  }

  lemma {:induction false} ConnectedIsLive(cfg: Config, patterns: seq<string>, es: seq<Event>, k: nat, n: nat, umd: nat)
    requires k < n <= |es| && ConnectedAt(cfg, patterns, es, k, umd) && NotSince(es, k, n, Disconnected(umd))
    ensures umd in After(cfg, patterns, es, n).conns.live
  {
    hide B.Blocks;
    if k < n - 1 {
      ConnectedIsLive(cfg, patterns, es, k, n - 1, umd);
    }
  }

  /** A connection is live exactly when a client that waited has made it and it has not ended
      since, whatever became of the others. */
  lemma LiveIff(cfg: Config, patterns: seq<string>, es: seq<Event>, n: nat, umd: nat)
    requires n <= |es|
    ensures umd in After(cfg, patterns, es, n).conns.live <==>
            exists k :: 0 <= k < n && ConnectedAt(cfg, patterns, es, k, umd) && NotSince(es, k, n, Disconnected(umd))
  {
    if umd in After(cfg, patterns, es, n).conns.live {
      var k := LiveWasConnected(cfg, patterns, es, n, umd);
    }
    forall k | 0 <= k < n && ConnectedAt(cfg, patterns, es, k, umd) && NotSince(es, k, n, Disconnected(umd))
      ensures umd in After(cfg, patterns, es, n).conns.live
    {
      ConnectedIsLive(cfg, patterns, es, k, n, umd);
    }
  }

  lemma {:induction false} AfterPids(cfg: Config, patterns: seq<string>, es: seq<Event>, n: nat)
    requires n <= |es| && RealPids(es)
    ensures PidInv(After(cfg, patterns, es, n))
  {
    hide B.Blocks;
    if n > 0 {
      AfterPids(cfg, patterns, es, n - 1);
      PidStep(cfg, After(cfg, patterns, es, n - 1), es[n - 1]);
    }
  }

  /** The recorded process is the one whose connection came when there was none; some
      connection has been live ever since. */
  lemma {:induction false} ProcessIsTheFirst(cfg: Config, patterns: seq<string>, es: seq<Event>, n: nat)
    returns (k: nat)
    requires RealPids(es) && n <= |es| && After(cfg, patterns, es, n).conns.live != map[]
    ensures k < n && es[k].Connected? && ConnectedAt(cfg, patterns, es, k, es[k].client.umd)
    ensures After(cfg, patterns, es, k).conns.live == map[]
    ensures forall i :: k < i <= n ==> After(cfg, patterns, es, i).conns.live != map[]
    ensures After(cfg, patterns, es, n).conns.process == Process(es[k].client.pid, es[k].client.path)
  {
    hide B.Blocks;
    AfterPids(cfg, patterns, es, n - 1);
    if After(cfg, patterns, es, n - 1).conns.live == map[] {
      k := n - 1;
    } else {
      k := ProcessIsTheFirst(cfg, patterns, es, n - 1);
    }
  }

  // ---------------------------------------------------------------- frozen features

  /** Some connection is live before, and after every event of, `es`. */
  ghost predicate StaysConnected(cfg: Config, s: State, es: seq<Event>) {
    Run(cfg, s, es).conns.live != map[] && (es != [] ==> StaysConnected(cfg, s, es[..|es| - 1]))
  }

  lemma {:induction false} FrozenFrom(cfg: Config, s: State, es: seq<Event>)
    requires PidInv(s) && RealPids(es) && StaysConnected(cfg, s, es)
    ensures PidInv(Run(cfg, s, es)) && Run(cfg, s, es).features == s.features
  {
    if es != [] {
      var front := es[..|es| - 1];
      FrozenFrom(cfg, s, front);
      PidStep(cfg, Run(cfg, s, front), es[|es| - 1]);
    }
  }

  /** From the first connection of a process until its last connection is gone, whatever
      is requested, the features stay as they are. */
  lemma FeaturesFrozenWhileConnected(cfg: Config, patterns: seq<string>, before: seq<Event>, es: seq<Event>)
    requires RealPids(before) && RealPids(es)
    requires StaysConnected(cfg, Run(cfg, Initial(patterns), before), es)
    ensures Run(cfg, Run(cfg, Initial(patterns), before), es).features == Run(cfg, Initial(patterns), before).features
  {
    ProcessIffConnection(cfg, patterns, before);
    FrozenFrom(cfg, Run(cfg, Initial(patterns), before), es);
  }

  /** After the first `i` events some connection had been made and not ended. */
  ghost predicate SomeoneConnected(cfg: Config, patterns: seq<string>, es: seq<Event>, i: nat)
    requires i <= |es|
  {
    exists k, umd :: 0 <= k < i && ConnectedAt(cfg, patterns, es, k, umd) && NotSince(es, k, i, Disconnected(umd))
  }

  /** The same on the events alone: the features are after `n` events what they were after
      `m` if from then on, at every moment, some connection had been made by a client that
      waited for it and had not ended yet. */
  lemma {:induction false} FrozenUntilAllHaveLeft(cfg: Config, patterns: seq<string>, es: seq<Event>, m: nat, n: nat)
    requires RealPids(es) && m <= n <= |es| && forall i :: m <= i < n ==> SomeoneConnected(cfg, patterns, es, i)
    ensures After(cfg, patterns, es, n).features == After(cfg, patterns, es, m).features
    decreases n
  {
    hide B.Blocks, Enabled, Disabled;
    if m < n {
      FrozenUntilAllHaveLeft(cfg, patterns, es, m, n - 1);
      assert SomeoneConnected(cfg, patterns, es, n - 1);
      var k, umd :|
        0 <= k < n - 1 && ConnectedAt(cfg, patterns, es, k, umd) && NotSince(es, k, n - 1, Disconnected(umd));
      ConnectedIsLive(cfg, patterns, es, k, n - 1, umd);
      AfterPids(cfg, patterns, es, n - 1);
      FrozenByOne(cfg, After(cfg, patterns, es, n - 1), es[n - 1]);
    }
  }

  lemma FrozenByOne(cfg: Config, s: State, e: Event)
    requires PidInv(s) && s.conns.live != map[]
    ensures Step(cfg, s, e).features == s.features
  {
  }

  // ---------------------------------------------------------------- one process at a time

  ghost predicate OneProcess(conns: Connections) {
    forall u :: u in conns.live ==> conns.live[u].pid == conns.process.pid
  }

  /** A new connection keeps to the one process exactly when the manager's assumption
      about it holds. */
  lemma OneProcessIffAsserted(conns: Connections, c: Client)
    requires OneProcess(conns) && c.pid != 0 && c.umd !in conns.live
    requires conns.process.pid != 0 <==> conns.live != map[]
    ensures OneProcess(Connect(conns, c)) <==> Asserted(conns, c)
  {
    var after := Connect(conns, c);
    assert after.live[c.umd] == c;
    if Asserted(conns, c) {
      forall u | u in after.live ensures after.live[u].pid == after.process.pid {
        if u != c.umd {
          assert conns.live != map[];
        }
      }
    }
  }

  /** The assumption held at every connection of the run. */
  ghost predicate AlwaysAsserted(cfg: Config, s: State, es: seq<Event>) {
    es != [] ==>
      var front, e := es[..|es| - 1], es[|es| - 1];
      && AlwaysAsserted(cfg, s, front)
      && (e.Connected? && e.client in Run(cfg, s, front).pending ==> Asserted(Run(cfg, s, front).conns, e.client))
  }

  lemma {:induction false} AllLiveAreOneProcess(cfg: Config, patterns: seq<string>, es: seq<Event>)
    requires RealPids(es) && AlwaysAsserted(cfg, Initial(patterns), es)
    ensures OneProcess(Run(cfg, Initial(patterns), es).conns)
  {
    if es != [] {
      var front, e := es[..|es| - 1], es[|es| - 1];
      var s := Run(cfg, Initial(patterns), front);
      AllLiveAreOneProcess(cfg, patterns, front);
      ProcessIffConnection(cfg, patterns, front);
      if e.Connected? && e.client in s.pending {
        ConnectKeepsOneProcess(s.conns, e.client);
      }
    }
  }

  lemma ConnectKeepsOneProcess(conns: Connections, c: Client)
    requires OneProcess(conns) && Asserted(conns, c)
    requires conns.process.pid != 0 <==> conns.live != map[]
    ensures OneProcess(Connect(conns, c))
  {
    var after := Connect(conns, c);
    forall u | u in after.live ensures after.live[u].pid == after.process.pid {
      if u != c.umd {
        assert conns.live != map[];
      }
    }
  }

  /** The waiting clients fit the connected process, and are of one process themselves. */
  ghost predicate Agree(s: State) {
    forall c :: c in s.pending ==> Asserted(s.conns, c) && forall d :: d in s.pending ==> d.pid == c.pid
  }

  /** Nobody new is decided on. */
  ghost predicate NoAsk(es: seq<Event>) {
    forall i :: 0 <= i < |es| ==> !es[i].Ask?
  }

  lemma ConnectAgrees(conns: Connections, c: Client, d: Client)
    requires Asserted(conns, c) && d.pid == c.pid
    ensures Asserted(Connect(conns, c), d)
  {
  }

  lemma AgreeStep(cfg: Config, s: State, e: Event)
    requires Agree(s) && !e.Ask?
    ensures Agree(Step(cfg, s, e))
  {
    if e.Connected? && e.client in s.pending {
      forall d | d in s.pending ensures Asserted(Connect(s.conns, e.client), d) {
        ConnectAgrees(s.conns, e.client, d);
      }
    }
  }

  lemma {:induction false} AgreeRun(cfg: Config, s: State, es: seq<Event>)
    requires Agree(s) && NoAsk(es)
    ensures Agree(Run(cfg, s, es)) && AlwaysAsserted(cfg, s, es)
  {
    if es != [] {
      AgreeRun(cfg, s, es[..|es| - 1]);
      AgreeStep(cfg, Run(cfg, s, es[..|es| - 1]), es[|es| - 1]);
    }
  }

  lemma RunSnoc(cfg: Config, s: State, es: seq<Event>, e: Event)
    ensures Run(cfg, s, es + [e]) == Step(cfg, Run(cfg, s, es), e)
  {
    assert (es + [e])[..|es|] == es;
  }

  /** Clients that do not agree have an order of connecting that breaks the assumption,
      with the last connection of the run. */
  lemma DisagreementClashes(cfg: Config, s: State) returns (es: seq<Event>, last: Client)
    requires !Agree(s) && forall c :: c in s.pending ==> c.pid != 0
    ensures NoAsk(es) && last in Run(cfg, s, es).pending && !Asserted(Run(cfg, s, es).conns, last)
  {
    es := [];
    if c :| c in s.pending && !Asserted(s.conns, c) {
      last := c;
    } else {
      var c, d :| c in s.pending && d in s.pending && d.pid != c.pid;
      RunSnoc(cfg, s, [], Connected(c));
      es, last := [] + [Connected(c)], d;
    }
  }

  lemma ClashIsNotAsserted(cfg: Config, s: State, es: seq<Event>, last: Client)
    requires last in Run(cfg, s, es).pending && !Asserted(Run(cfg, s, es).conns, last)
    ensures !AlwaysAsserted(cfg, s, es + [Connected(last)])
  {
    assert (es + [Connected(last)])[..|es|] == es;
  }

  /** However the accepted clients now connect and disconnect, the manager's assumption
      holds, exactly when they agree. */
  lemma AssertedIffAgree(cfg: Config, s: State)
    requires forall c :: c in s.pending ==> c.pid != 0
    ensures (forall es :: NoAsk(es) ==> AlwaysAsserted(cfg, s, es)) <==> Agree(s)
  {
    if Agree(s) {
      forall es | NoAsk(es) ensures AlwaysAsserted(cfg, s, es) {
        AgreeRun(cfg, s, es);
      }
    } else {
      var es, last := DisagreementClashes(cfg, s);
      ClashIsNotAsserted(cfg, s, es, last);
      assert NoAsk(es + [Connected(last)]);
    }
  }

  /** A decision keeps the clients in agreement exactly when it turns the client away or the
      client is of the process that those waiting are of. */
  lemma DecisionAgreesIff(cfg: Config, s: State, c: Client, verdict: bool)
    requires Agree(s)
    ensures Agree(Step(cfg, s, Ask(c, verdict))) <==>
            Ignored(cfg, s.conns.process, s.patterns, c, verdict) || forall d :: d in s.pending ==> d.pid == c.pid
  {
    var t := Step(cfg, s, Ask(c, verdict));
    if !Ignored(cfg, s.conns.process, s.patterns, c, verdict) {
      assert c in t.pending && Asserted(s.conns, c) && forall d :: d in t.pending ==> d in s.pending || d == c;
      assert forall d :: d in s.pending ==> d in t.pending;
    }
  }

  /** Every decision of the run was of that kind. */
  ghost predicate DecidedAlike(cfg: Config, s: State, es: seq<Event>) {
    es != [] ==>
      var front, e := es[..|es| - 1], es[|es| - 1];
      var now := Run(cfg, s, front);
      && DecidedAlike(cfg, s, front)
      && (e.Ask? ==>
            || Ignored(cfg, now.conns.process, now.patterns, e.client, e.verdict)
            || forall d :: d in now.pending ==> d.pid == e.client.pid)
  }

  /** The waiting clients agreed throughout the run. */
  ghost predicate AlwaysAgreed(cfg: Config, s: State, es: seq<Event>) {
    Agree(Run(cfg, s, es)) && (es != [] ==> AlwaysAgreed(cfg, s, es[..|es| - 1]))
  }

  /** The waiting clients agree throughout a run exactly when each client accepted is of the
      process that those then waiting are of. */
  lemma {:induction false} AgreedIffDecidedAlike(cfg: Config, patterns: seq<string>, es: seq<Event>)
    ensures AlwaysAgreed(cfg, Initial(patterns), es) <==> DecidedAlike(cfg, Initial(patterns), es)
  {
    if es != [] {
      var front, e := es[..|es| - 1], es[|es| - 1];
      var now := Run(cfg, Initial(patterns), front);
      AgreedIffDecidedAlike(cfg, patterns, front);
      if Agree(now) {
        if e.Ask? {
          DecisionAgreesIff(cfg, now, e.client, e.verdict);
        } else {
          AgreeStep(cfg, now, e);
        }
      }
    }
  }

  lemma {:induction false} AgreedIsAsserted(cfg: Config, s: State, es: seq<Event>)
    requires AlwaysAgreed(cfg, s, es)
    ensures AlwaysAsserted(cfg, s, es)
  {
    if es != [] {
      AgreedIsAsserted(cfg, s, es[..|es| - 1]);
    }
  }

  /** In every run decided that way what the manager assumes of a client holds, at each
      connection so far and however the clients accepted connect from then on. */
  lemma DecidedAlikeSuffices(cfg: Config, patterns: seq<string>, es: seq<Event>, more: seq<Event>)
    requires DecidedAlike(cfg, Initial(patterns), es) && NoAsk(more)
    ensures AlwaysAsserted(cfg, Initial(patterns), es)
    ensures AlwaysAsserted(cfg, Run(cfg, Initial(patterns), es), more)
  {
    AgreedIffDecidedAlike(cfg, patterns, es);
    AgreedIsAsserted(cfg, Initial(patterns), es);
    AgreeRun(cfg, Run(cfg, Initial(patterns), es), more);
  }

  lemma {:induction false} AgreeKeepsOneProcess(cfg: Config, s: State, es: seq<Event>)
    requires Agree(s) && NoAsk(es) && OneProcess(s.conns) && PidInv(s)
    ensures OneProcess(Run(cfg, s, es).conns) && PidInv(Run(cfg, s, es))
  {
    if es != [] {
      var front, e := es[..|es| - 1], es[|es| - 1];
      var now := Run(cfg, s, front);
      AgreeKeepsOneProcess(cfg, s, front);
      AgreeRun(cfg, s, es);
      PidStep(cfg, now, e);
      if e.Connected? && e.client in now.pending {
        ConnectKeepsOneProcess(now.conns, e.client);
      }
    }
  }

  lemma ClashIsTwoProcesses(conns: Connections, c: Client)
    requires !Asserted(conns, c)
    ensures !OneProcess(Connect(conns, c))
  {
    assert Connect(conns, c).live[c.umd] == c;
  }

  /** From a state with one process, the accepted clients can bring a connection of another
      process in exactly when they do not agree. */
  lemma TwoProcessesIff(cfg: Config, s: State)
    requires OneProcess(s.conns) && PidInv(s)
    ensures (exists es :: NoAsk(es) && !OneProcess(Run(cfg, s, es).conns)) <==> !Agree(s)
  {
    if Agree(s) {
      forall es | NoAsk(es) ensures OneProcess(Run(cfg, s, es).conns) {
        AgreeKeepsOneProcess(cfg, s, es);
      }
    } else {
      var es, last := DisagreementClashes(cfg, s);
      RunSnoc(cfg, s, es, Connected(last));
      ClashIsTwoProcesses(Run(cfg, s, es).conns, last);
      assert NoAsk(es + [Connected(last)]);
    }
  }

  /** Two processes, both accepted before either connected, are live together. */
  lemma TwoProcessesCanBeLive(cfg: Config, a: Client, b: Client) returns (es: seq<Event>)
    requires cfg.hasFilter && a.pid != 0 && b.pid != 0 && a.pid != b.pid && a.umd != b.umd
    ensures RealPids(es) && !OneProcess(Run(cfg, Initial([]), es).conns)
  {
    var s := Initial([]);
    var s1 := s.(pending := {a}, accepted := [Acceptance(a, [], true)]);
    var s2 := s1.(pending := {a, b}, accepted := [Acceptance(a, [], true), Acceptance(b, [], true)]);
    var s3 := s2.(pending := {b}, conns := Connections(Process(a.pid, a.path), map[a.umd := a]));
    es := [Ask(a, true)];
    RunSnoc(cfg, s, [], Ask(a, true));
    assert [] + [Ask(a, true)] == es && Run(cfg, s, es) == s1;
    RunSnoc(cfg, s, es, Ask(b, true));
    es := es + [Ask(b, true)];
    assert Run(cfg, s, es) == s2;
    RunSnoc(cfg, s, es, Connected(a));
    es := es + [Connected(a)];
    assert {a, b} - {a} == {b};
    assert Run(cfg, s, es) == s3;
    RunSnoc(cfg, s, es, Connected(b));
    es := es + [Connected(b)];
    assert Run(cfg, s, es).conns == Connections(Process(a.pid, a.path), map[a.umd := a, b.umd := b]);
    assert Run(cfg, s, es).conns.live[b.umd] == b;
  }

  // ---------------------------------------------------------------- nobody blocked is accepted

  /** `c` was accepted, under a blocklist that did not match it. */
  ghost predicate Cleared(cfg: Config, accepted: seq<Acceptance>, c: Client) {
    accepted != [] &&
    var last := accepted[|accepted| - 1];
    (last.client == c && !B.Blocks(cfg.caseSensitive, last.patterns, c.path) &&
     (if cfg.hasFilter then last.verdict else c.pid == cfg.ownPid))
    || Cleared(cfg, accepted[..|accepted| - 1], c)
  }

  lemma ClearedSnoc(cfg: Config, accepted: seq<Acceptance>, a: Acceptance, c: Client)
    requires Cleared(cfg, accepted, c)
    ensures Cleared(cfg, accepted + [a], c)
  {
    assert (accepted + [a])[..|accepted|] == accepted;
  }

  ghost predicate AllCleared(cfg: Config, s: State) {
    && (forall c :: c in s.pending ==> Cleared(cfg, s.accepted, c))
    && (forall u :: u in s.conns.live ==> Cleared(cfg, s.accepted, s.conns.live[u]))
  }

  lemma AskKeepsCleared(cfg: Config, s: State, c: Client, verdict: bool)
    requires AllCleared(cfg, s)
    ensures AllCleared(cfg, Step(cfg, s, Ask(c, verdict)))
  {
    var a := Acceptance(c, s.patterns, verdict);
    forall d | Cleared(cfg, s.accepted, d) ensures Cleared(cfg, s.accepted + [a], d) {
      ClearedSnoc(cfg, s.accepted, a, d);
    }
  }

  /** Every connection that is live, or waiting to be, was accepted at a moment when no
      blocklist pattern matched its file name. */
  lemma {:induction false} NobodyBlockedConnects(cfg: Config, patterns: seq<string>, es: seq<Event>)
    ensures AllCleared(cfg, Run(cfg, Initial(patterns), es))
  {
    if es != [] {
      var s, e := Run(cfg, Initial(patterns), es[..|es| - 1]), es[|es| - 1];
      NobodyBlockedConnects(cfg, patterns, es[..|es| - 1]);
      if e.Ask? {
        AskKeepsCleared(cfg, s, e.client, e.verdict);
      }
    }
  }

  /** The acceptances are the decisions that did not turn the client away, each with the
      blocklist of its moment. */
  lemma {:induction false} AcceptancesAreDecisions(cfg: Config, patterns: seq<string>, es: seq<Event>, n: nat, i: nat)
    returns (k: nat)
    requires n <= |es| && i < |After(cfg, patterns, es, n).accepted|
    ensures var a := After(cfg, patterns, es, n).accepted[i];
            && k < n && AcceptedAt(cfg, patterns, es, k, a.client)
            && a.patterns == After(cfg, patterns, es, k).patterns && a.verdict == es[k].verdict
  {
    hide B.Blocks;
    if i < |After(cfg, patterns, es, n - 1).accepted| {
      k := AcceptancesAreDecisions(cfg, patterns, es, n - 1, i);
    } else {
      k := n - 1;
    }
  }

  /** The same on the events alone: for every live connection there was a decision on its
      client at which no pattern of the blocklist matched its file name and the filter agreed. */
  lemma LiveWereCleared(cfg: Config, patterns: seq<string>, es: seq<Event>, n: nat, umd: nat) returns (k: nat)
    requires n <= |es| && umd in After(cfg, patterns, es, n).conns.live
    ensures k < n && es[k].Ask? && es[k].client == After(cfg, patterns, es, n).conns.live[umd]
    ensures !SomePatternMatches(cfg.caseSensitive, After(cfg, patterns, es, k).patterns, es[k].client.path)
    ensures if cfg.hasFilter then es[k].verdict else es[k].client.pid == cfg.ownPid
  {
    var at := LiveWasConnected(cfg, patterns, es, n, umd);
    k := WaitingWasAccepted(cfg, patterns, es, at, es[at].client);
    var now := After(cfg, patterns, es, k);
    AcceptedIff(cfg, now.conns.process, now.patterns, es[k].client, es[k].verdict);
  }

  /** The same, over the patterns themselves. */
  lemma ClearedMeansNoPatternMatched(cfg: Config, accepted: seq<Acceptance>, c: Client) returns (k: nat)
    requires Cleared(cfg, accepted, c)
    ensures k < |accepted| && accepted[k].client == c
    ensures B.Basename(c.path) != [] ==>
      forall i :: 0 <= i < |accepted[k].patterns| ==>
        !B.EntryBlocks(cfg.caseSensitive, accepted[k].patterns[i], B.Basename(c.path))
  {
    var last := accepted[|accepted| - 1];
    if Cleared(cfg, accepted[..|accepted| - 1], c) {
      k := ClearedMeansNoPatternMatched(cfg, accepted[..|accepted| - 1], c);
    } else {
      k := |accepted| - 1;
      B.BlocksIffSomeEntry(cfg.caseSensitive, last.patterns, B.Basename(c.path));
    }
  }

  // ---------------------------------------------------------------- the classes

  class ClientManager {
    const cfg: Config
    const blocklist: B.ApiBlocklist?
    var process: Process
    var umdConnections: set<nat>
    var blockedNotices: seq<(string, nat)>  // calls of the blocked callback so far

    ghost function Patterns(): seq<string>
      reads this, blocklist
    {
      if blocklist == null then [] else blocklist.patterns
    }

    ghost predicate Valid()
      reads this
    {
      blocklist != null ==> blocklist.caseSensitive == cfg.caseSensitive
    }

    constructor (cfg: Config, blocklist: B.ApiBlocklist?)
      requires blocklist != null ==> blocklist.caseSensitive == cfg.caseSensitive
      ensures this.cfg == cfg && this.blocklist == blocklist && Valid()
      ensures process == NO_PROCESS && umdConnections == {} && blockedNotices == []
    {
      this.cfg, this.blocklist := cfg, blocklist;
      process, umdConnections, blockedNotices := NO_PROCESS, {}, [];
    }

    /** The connection filter; `verdict` is what the user's filter, if any, says. */
    method ShouldClientBeIgnored(umd: nat, pid: nat, rawPath: Option<string>, verdict: bool) returns (ignored: bool)
      requires Valid()
      modifies this`blockedNotices
      ensures var c := Client(umd, pid, RecordedPath(rawPath));
        && (ignored <==> Ignored(cfg, process, Patterns(), c, verdict))
        && blockedNotices == old(blockedNotices) +
             (if (process.pid == 0 || process.pid == pid) && B.Blocks(cfg.caseSensitive, Patterns(), c.path)
              then [(c.path, pid)] else [])
    {
      if process.pid != 0 && process.pid != pid {
        return true;
      }
      var path := RecordedPath(rawPath);
      var blocked := false;
      if blocklist != null {
        blocked := blocklist.Contains(path);
      }
      if blocked {
        blockedNotices := blockedNotices + [(path, pid)];
        return true;
      }
      if cfg.hasFilter {
        return !verdict;
      }
      return cfg.ownPid != pid;
    }

    method OnDriverConnected(umd: nat, pid: nat, rawPath: Option<string>)
      modifies this`process, this`umdConnections
      ensures umdConnections == old(umdConnections) + {umd}
      ensures process == if old(process).pid == 0 then Process(pid, RecordedPath(rawPath)) else old(process)
      ensures forall live: map<nat, Client> :: live.Keys == old(umdConnections) ==>
        var after := Connect(Connections(old(process), live), Client(umd, pid, RecordedPath(rawPath)));
        process == after.process && umdConnections == after.live.Keys
    {
      if process.pid == 0 {
        process := Process(pid, RecordedPath(rawPath));
      }
      umdConnections := umdConnections + {umd};
    }

    method OnDriverDisconnected(umd: nat)
      modifies this`process, this`umdConnections
      ensures umdConnections == old(umdConnections) - {umd}
      ensures process == if umdConnections == {} then NO_PROCESS else old(process)
      ensures forall live: map<nat, Client> :: live.Keys == old(umdConnections) ==>
        var after := Disconnect(Connections(old(process), live), umd);
        process == after.process && umdConnections == after.live.Keys
    {
      umdConnections := umdConnections - {umd};
      if umdConnections == {} {
        process := NO_PROCESS;
      }
    }
  }

  class RdpCaptureContext {
    const manager: ClientManager
    var enabledFeatures: set<Feature>
    var adaptersOn: set<Feature>

    ghost function State(): Features
      reads this
    {
      Features(enabledFeatures, adaptersOn)
    }

    constructor (manager: ClientManager)
      ensures this.manager == manager && State() == Features({}, {})
    {
      this.manager := manager;
      enabledFeatures, adaptersOn := {}, {};
    }

    method EnableFeature(feature: Option<Feature>, driver: Driver) returns (result: CaptureResult)
      modifies this
      ensures feature.None? ==> result == InvalidParams && State() == old(State())
      ensures feature.Some? ==> (State(), result) == Enabled(old(State()), manager.process.pid, feature.value, driver)
    {
      if feature.None? {
        return InvalidParams;
      }
      var f := feature.value;
      if f !in ADAPTERS {
        return InvalidParams;
      }
      if manager.process.pid != 0 || f in enabledFeatures {
        return NotReady;
      }
      if (f == CrashAnalysis && enabledFeatures != {}) || CrashAnalysis in enabledFeatures {
        return NotReady;
      }
      result := EnableAdapter(f, driver.configured);
      if result != Success {
        return result;
      }
      if !DriverEnabled(f, driver) {
        assert old(adaptersOn) + {f} - {f} == old(adaptersOn) - {f};
        adaptersOn := adaptersOn - {f};
        return Failure;
      }
      enabledFeatures := enabledFeatures + {f};
    }

    /** Switches the adapter on, then configures it; a failure does not switch it off. */
    method EnableAdapter(f: Feature, configured: CaptureResult) returns (result: CaptureResult)
      modifies this`adaptersOn
      ensures adaptersOn == old(adaptersOn) + {f}
      ensures result == if Configurable(f) then configured else Success
    {
      adaptersOn := adaptersOn + {f};
      return if Configurable(f) then configured else Success;
    }

    method DisableFeature(f: Feature) returns (result: CaptureResult)
      modifies this
      ensures (State(), result) == Disabled(old(State()), manager.process.pid, f)
    {
      if f !in ADAPTERS {
        return InvalidParams;
      }
      if manager.process.pid != 0 || f !in enabledFeatures {
        return NotReady;
      }
      adaptersOn := adaptersOn - {f};
      enabledFeatures := enabledFeatures - {f};
      return Success;
    }
  }
}
