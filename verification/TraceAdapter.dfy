/** The adapter between a trace source and the API's user: which stage changes the user is
    told of, and what becomes of the bytes of a finished trace. */
module TraceAdapter {
  import opened CaptureApi
  import S = Stages
  import T = TraceIo
  import opened CStrings
  import opened Wrappers

  // ---------------------------------------------------------------- stages

  datatype SourceStage =
    | Disconnected | Idle | WaitingToBegin | Capturing | Dumping | Processing
    | Done | Disabled | Error | Busy | OtherStage

  datatype Reason =
    | Enabled | EncounteredError | HardwareUnsupported | OsUnsupported
    | DriverUnsupported | ApiUnsupported | OtherReason

  datatype Status = Status(stage: SourceStage, reason: Reason)

  function DisabledStage(reason: Reason): S.FeatureStage {
    match reason
    case EncounteredError => S.FeatureStage.DisabledFromError
    case HardwareUnsupported => S.FeatureStage.HardwareUnsupported
    case OsUnsupported => S.FeatureStage.OsUnsupported
    case DriverUnsupported => S.FeatureStage.DriverUnsupported
    case ApiUnsupported => S.FeatureStage.ApiUnsupported
    case Enabled | OtherReason => S.FeatureStage.Disabled
  }

  function CaptureStage(status: Status): S.FeatureStage {
    match status.stage
    case Disconnected => S.FeatureStage.Disconnected
    case Idle => S.FeatureStage.ReadyForCapture
    case WaitingToBegin => S.FeatureStage.WaitingToBeginCapture
    case Capturing | Dumping | Processing => S.FeatureStage.Capturing
    case Done => S.FeatureStage.Done
    case Disabled => DisabledStage(status.reason)
    case Error => S.FeatureStage.EncounteredError
    case Busy => S.FeatureStage.Busy
    case OtherStage => S.FeatureStage.Unknown
  }

  function DetailedCaptureStage(status: Status): S.DetailedStage {
    match status.stage
    case Disconnected => S.DetailedStage.Disconnected
    case Idle => S.DetailedStage.ReadyForCapture
    case WaitingToBegin => S.DetailedStage.WaitingToBeginCapture
    case Capturing => S.DetailedStage.Capturing
    case Dumping => S.DetailedStage.Dumping
    case Processing => S.DetailedStage.Processing
    case Done => S.DetailedStage.Done
    case Disabled =>
      (match status.reason
       case EncounteredError => S.DetailedStage.DisabledFromError
       case HardwareUnsupported => S.DetailedStage.HardwareUnsupported
       case OsUnsupported => S.DetailedStage.OsUnsupported
       case DriverUnsupported => S.DetailedStage.DriverUnsupported
       case ApiUnsupported => S.DetailedStage.ApiUnsupported
       case Enabled | OtherReason => S.DetailedStage.Disabled)
    case Error => S.DetailedStage.EncounteredError
    case Busy => S.DetailedStage.Busy
    case OtherStage => S.DetailedStage.Unknown
  }

  /** The coarse stage a detailed stage belongs to. */
  function Coarse(d: S.DetailedStage): S.FeatureStage {
    match d
    case Unknown => S.FeatureStage.Unknown
    case Disconnected => S.FeatureStage.Disconnected
    case ReadyForCapture => S.FeatureStage.ReadyForCapture
    case WaitingToBeginCapture => S.FeatureStage.WaitingToBeginCapture
    case Capturing | Dumping | Processing => S.FeatureStage.Capturing
    case Done => S.FeatureStage.Done
    case EncounteredError => S.FeatureStage.EncounteredError
    case Busy => S.FeatureStage.Busy
    case Disabled => S.FeatureStage.Disabled
    case DisabledFromError => S.FeatureStage.DisabledFromError
    case HardwareUnsupported => S.FeatureStage.HardwareUnsupported
    case OsUnsupported => S.FeatureStage.OsUnsupported
    case DriverUnsupported => S.FeatureStage.DriverUnsupported
    case ApiUnsupported => S.FeatureStage.ApiUnsupported
  }

  /** The two conversions agree for every status. */
  lemma StagesAgree(status: Status)
    ensures CaptureStage(status) == Coarse(DetailedCaptureStage(status))
  {
    match status.stage
    case Disabled => match status.reason { case _ => }
    case _ =>
  }

  /** Which statuses each coarse stage is reported for. */
  lemma CoarseStageIs(status: Status)
    ensures var c, stage, off := CaptureStage(status), status.stage, status.stage.Disabled?;
            && (c.Disconnected? <==> stage.Disconnected?) && (c.ReadyForCapture? <==> stage.Idle?)
            && (c.WaitingToBeginCapture? <==> stage.WaitingToBegin?)
            && (c.Capturing? <==> stage.Capturing? || stage.Dumping? || stage.Processing?)
            && (c.Done? <==> stage.Done?) && (c.EncounteredError? <==> stage.Error?) && (c.Busy? <==> stage.Busy?)
            && (c.Unknown? <==> stage.OtherStage?)
            && (c.DisabledFromError? <==> off && status.reason.EncounteredError?)
            && (c.HardwareUnsupported? <==> off && status.reason.HardwareUnsupported?)
            && (c.OsUnsupported? <==> off && status.reason.OsUnsupported?)
            && (c.DriverUnsupported? <==> off && status.reason.DriverUnsupported?)
            && (c.ApiUnsupported? <==> off && status.reason.ApiUnsupported?)
            && (c.Disabled? <==> off && (status.reason.Enabled? || status.reason.OtherReason?))
  {
  }

  /** The detailed stages tell capturing, dumping and processing apart, and nothing else more. */
  lemma DetailedStageIs(status: Status)
    ensures var c, d, stage := CaptureStage(status), DetailedCaptureStage(status), status.stage;
            && (d.Capturing? <==> stage.Capturing?) && (d.Dumping? <==> stage.Dumping?)
            && (d.Processing? <==> stage.Processing?)
            && (d.Disconnected? <==> c.Disconnected?) && (d.ReadyForCapture? <==> c.ReadyForCapture?)
            && (d.WaitingToBeginCapture? <==> c.WaitingToBeginCapture?)
            && (d.Done? <==> c.Done?) && (d.EncounteredError? <==> c.EncounteredError?) && (d.Busy? <==> c.Busy?)
            && (d.Unknown? <==> c.Unknown?) && (d.Disabled? <==> c.Disabled?)
            && (d.DisabledFromError? <==> c.DisabledFromError?)
            && (d.HardwareUnsupported? <==> c.HardwareUnsupported?) && (d.OsUnsupported? <==> c.OsUnsupported?)
            && (d.DriverUnsupported? <==> c.DriverUnsupported?) && (d.ApiUnsupported? <==> c.ApiUnsupported?)
  {
  }

  // ---------------------------------------------------------------- what a callback hears

  datatype Note = Note(callback: nat, now: S.DetailedStage, before: S.DetailedStage)

  datatype StatusEvent = Status(status: Status) | SetCallback(callback: Option<nat>)

  datatype Relay = Relay(coarse: S.FeatureStage, detailed: S.DetailedStage, callback: Option<nat>, notes: seq<Note>)

  const FRESH: Relay := Relay(S.FeatureStage.Unknown, S.DetailedStage.Unknown, None, [])

  function StatusStep(r: Relay, e: StatusEvent): Relay {
    match e
    case SetCallback(cb) => r.(callback := cb)
    case Status(status) =>
      var d := DetailedCaptureStage(status);
      r.(coarse := CaptureStage(status), detailed := d,
         notes := if d != r.detailed && r.callback.Some?
                  then r.notes + [Note(r.callback.value, d, r.detailed)] else r.notes)
  }

  function StatusRun(r: Relay, es: seq<StatusEvent>): Relay {
    if es == [] then r else StatusStep(StatusRun(r, es[..|es| - 1]), es[|es| - 1])
  }

  /** Whatever happened, the polled stage is the abstraction of the detailed one. */
  lemma {:induction false} PolledStageIsCoarse(es: seq<StatusEvent>)
    ensures StatusRun(FRESH, es).coarse == Coarse(StatusRun(FRESH, es).detailed)
  {
    if es != [] {
      PolledStageIsCoarse(es[..|es| - 1]);
      match es[|es| - 1]
      case Status(status) => StagesAgree(status);
      case SetCallback(_) =>
    }
  }

  /** Notes that lead from `start` to `end`: each starts where the one before ended, and
      ends elsewhere. */
  ghost predicate Chain(start: S.DetailedStage, notes: seq<Note>, end: S.DetailedStage) {
    if notes == [] then start == end else
      var last := notes[|notes| - 1];
      last.now == end && last.before != end && Chain(start, notes[..|notes| - 1], last.before)
  }

  /** The links of a chain. */
  lemma {:induction false} ChainLinks(start: S.DetailedStage, notes: seq<Note>, end: S.DetailedStage)
    requires Chain(start, notes, end)
    ensures notes != [] ==> notes[0].before == start && notes[|notes| - 1].now == end
    ensures forall i :: 0 <= i < |notes| ==> notes[i].before != notes[i].now
    ensures forall i :: 0 < i < |notes| ==> notes[i].before == notes[i - 1].now
  {
    if notes != [] {
      var front := notes[..|notes| - 1];
      ChainLinks(start, front, notes[|notes| - 1].before);
      forall i | 0 < i < |notes| ensures notes[i].before == notes[i - 1].now {
        if i < |front| {
          assert notes[i] == front[i] && notes[i - 1] == front[i - 1];
        } else {
          assert i >= 1 && front[|front| - 1] == notes[i - 1];
        }
      }
    }
  }

  /** How often the detailed stage changed on the way. */
  function Changes(d: S.DetailedStage, es: seq<StatusEvent>): nat {
    if es == [] then 0 else
      var e := es[|es| - 1];
      var front := es[..|es| - 1];
      Changes(d, front) +
      if e.Status? && DetailedCaptureStage(e.status) != Last(d, front) then 1 else 0
  }

  /** The detailed stage of the last status in `es`, `d` if there is none. */
  function Last(d: S.DetailedStage, es: seq<StatusEvent>): S.DetailedStage {
    if es == [] then d
    else match es[|es| - 1]
      case Status(status) => DetailedCaptureStage(status)
      case SetCallback(_) => Last(d, es[..|es| - 1])
  }

  /** While one callback stays registered it is told of every change, and of nothing else:
      its notes lead in a chain from the stage it started in to the current one. */
  lemma {:induction false} NotesFormAChain(r: Relay, es: seq<StatusEvent>, cb: nat) returns (heard: seq<Note>)
    requires r.callback == Some(cb)
    requires forall i :: 0 <= i < |es| ==> es[i].Status?
    ensures var end := StatusRun(r, es);
      && end.notes == r.notes + heard && end.callback == r.callback && end.detailed == Last(r.detailed, es)
      && Chain(r.detailed, heard, end.detailed)
      && |heard| == Changes(r.detailed, es)
      && (forall i :: 0 <= i < |heard| ==> heard[i].callback == cb)
  {
    if es == [] {
      heard := [];
    } else {
      var front := es[..|es| - 1];
      heard := NotesFormAChain(r, front, cb);
      var s := StatusRun(r, front);
      var d := DetailedCaptureStage(es[|es| - 1].status);
      if d != s.detailed {
        assert (heard + [Note(cb, d, s.detailed)])[..|heard|] == heard;
        heard := heard + [Note(cb, d, s.detailed)];
      }
    }
  }

  /** Without a callback nobody is told anything, though the stage moves on. */
  lemma {:induction false} SilentWithoutCallback(r: Relay, es: seq<StatusEvent>)
    requires r.callback == None
    requires forall i :: 0 <= i < |es| ==> es[i].Status?
    ensures StatusRun(r, es).notes == r.notes && StatusRun(r, es).callback == None
    ensures StatusRun(r, es).detailed == Last(r.detailed, es)
  {
    if es != [] {
      SilentWithoutCallback(r, es[..|es| - 1]);
    }
  }

  // ---------------------------------------------------------------- blocks of finished traces

  datatype Completion = Completed | CompletionError | CompletionAborted | OtherCompletion

  function ResultOf(status: Completion): CaptureResult {
    match status
    case Completed => Success
    case CompletionError => Failure
    case CompletionAborted => Aborted
    case OtherCompletion => Unknown
  }

  /** One call of the trace-finished callback. */
  datatype Report = Report(result: CaptureResult, data: Option<Bytes>)

  datatype Block = Block(id: nat, capacity: nat)

  /** The allocator's view of the buffers: which block each stream holds, who holds each
      block, and how often each block was released. */
  datatype Blocks = Blocks(held: map<string, Block>, owner: map<nat, string>, next: nat, released: multiset<nat>)

  datatype Ledger = Ledger(streams: T.Streams, blocks: Blocks, registered: bool, reports: seq<Report>)

  datatype Op =
    | Create
    | Open(path: string)
    | Close(path: string)
    | Write(path: string, at: nat, src: Bytes)
    | Register(on: bool)
    | Complete(status: Completion, path: string)

  const EMPTY: Ledger := Ledger(T.Streams(map[], 0, [], []), Blocks(map[], map[], 0, multiset{}), false, [])

  predicate Writable(s: T.Streams, path: string, at: nat) {
    path in s.entries && s.entries[path].open && at <= |s.entries[path].bytes|
  }

  predicate Consumable(s: T.Streams, path: string) {
    path in s.entries && !s.entries[path].open
  }

  function Allocate(b: Blocks, path: string): Blocks {
    b.(held := b.held[path := Block(b.next, T.INITIAL_BUFFER_SIZE)],
       owner := b.owner[b.next := path], next := b.next + 1)
  }

  /** `realloc` moves a stream to a new block and releases the old one. */
  function Move(b: Blocks, path: string, capacity: nat): Blocks
    requires path in b.held
  {
    Blocks(b.held[path := Block(b.next, capacity)], (b.owner - {b.held[path].id})[b.next := path], b.next + 1,
           b.released + multiset{b.held[path].id})
  }

  /** Room for `end` bytes and one more. */
  function Reserve(b: Blocks, path: string, end: nat): Blocks
    requires path in b.held
  {
    if end < b.held[path].capacity || b.held[path].capacity == 0 then b
    else Move(b, path, T.Grown(b.held[path].capacity, end))
  }

  function Release(b: Blocks, path: string): Blocks
    requires path in b.held
  {
    b.(held := b.held - {path}, owner := b.owner - {b.held[path].id},
       released := b.released + multiset{b.held[path].id})
  }

  /** A completed trace: nothing at all without a callback; without success, just a report;
      else the stream's bytes go to the callback, and its block back to the allocator. */
  function OnCompletion(l: Ledger, status: Completion, path: string): Ledger {
    if !l.registered then l
    else if ResultOf(status) != Success then l.(reports := l.reports + [Report(ResultOf(status), None)])
    else if path in l.blocks.held && Consumable(l.streams, path) then
      l.(streams := T.Apply(l.streams, T.Consume(path)), blocks := Release(l.blocks, path),
         reports := l.reports + [Report(Success, Some(l.streams.entries[path].bytes))])
    else l
  }

  /** What the callback is told of each kind of end. */
  lemma CompletionReports(l: Ledger, status: Completion, path: string)
    requires l.blocks.held.Keys == l.streams.entries.Keys
    ensures var told := OnCompletion(l, status, path).reports;
            var closed := path in l.streams.entries && !l.streams.entries[path].open;
            && (!l.registered ==> told == l.reports)
            && (l.registered && status == CompletionError ==> told == l.reports + [Report(Failure, None)])
            && (l.registered && status == CompletionAborted ==> told == l.reports + [Report(Aborted, None)])
            && (l.registered && status == OtherCompletion ==> told == l.reports + [Report(Unknown, None)])
            && (l.registered && status == Completed && !closed ==> told == l.reports)
            && (l.registered && status == Completed && closed ==>
                  told == l.reports + [Report(Success, Some(l.streams.entries[path].bytes))])
  {
  }

  function Step(l: Ledger, op: Op): Ledger {
    match op
    case Create => l.(streams := T.Apply(l.streams, T.Create),
        blocks := Allocate(l.blocks, Decimal(l.streams.nextIndex)))
    case Open(path) => l.(streams := T.Apply(l.streams, T.Open(path)))
    case Close(path) => l.(streams := T.Apply(l.streams, T.Close(path)))
    case Write(path, at, src) =>
      if path in l.blocks.held && Writable(l.streams, path, at) then
        l.(streams := T.Apply(l.streams, T.Write(path, at, src)), blocks := Reserve(l.blocks, path, at + |src|))
      else l
    case Register(on) => l.(registered := on)
    case Complete(status, path) => OnCompletion(l, status, path)
  }

  function Run(ops: seq<Op>): Ledger {
    if ops == [] then EMPTY else Step(Run(ops[..|ops| - 1]), ops[|ops| - 1])
  }

  /** A callback is registered exactly when the last registration says so. */
  lemma {:induction false} RegisteredIff(ops: seq<Op>)
    ensures Run(ops).registered <==>
            exists k :: 0 <= k < |ops| && ops[k] == Register(true) && forall j :: k < j < |ops| ==> !ops[j].Register?
  {
    hide OnCompletion;
    if ops != [] {
      var n := |ops| - 1;
      RegisteredIff(ops[..n]);
      OnlyRegistrationRegisters(Run(ops[..n]), ops[n]);
      if ops[n].Register? {
        assert ops[n] == Register(true) ==> Run(ops).registered;
      } else {
        if k :| 0 <= k < n && ops[..n][k] == Register(true) && forall j :: k < j < n ==> !ops[..n][j].Register? {
          assert ops[k] == Register(true) && forall j :: k < j < |ops| ==> j < n ==> ops[j] == ops[..n][j];
        }
        if k :| 0 <= k < |ops| && ops[k] == Register(true) && forall j :: k < j < |ops| ==> !ops[j].Register? {
          assert ops[..n][k] == Register(true) && forall j :: k < j < n ==> ops[..n][j] == ops[j];
        }
      }
    }
  }

  lemma OnlyRegistrationRegisters(l: Ledger, op: Op)
    ensures Step(l, op).registered == if op.Register? then op.on else l.registered
  {
  }

  /** The operation a step performs on the streams, if any. */
  function StreamOp(l: Ledger, op: Op): (o: seq<T.Op>)
    ensures |o| <= 1
  {
    match op
    case Create => [T.Create]
    case Open(path) => [T.Open(path)]
    case Close(path) => [T.Close(path)]
    case Write(path, at, src) => [T.Write(path, at, src)]
    case Register(_) => []
    case Complete(status, path) => if l.registered && status == Completed then [T.Consume(path)] else []
  }

  lemma StepOnStreams(l: Ledger, op: Op)
    requires l.blocks.held.Keys == l.streams.entries.Keys
    ensures var o := StreamOp(l, op); Step(l, op).streams == if o == [] then l.streams else T.Apply(l.streams, o[0])
  {
  }

  /** Streams and live blocks correspond one to one. */
  ghost predicate Paired(b: Blocks) {
    && (forall p :: p in b.held ==> b.held[p].id in b.owner && b.owner[b.held[p].id] == p)
    && (forall id :: id in b.owner ==> b.owner[id] in b.held && b.held[b.owner[id]].id == id)
  }

  /** Every block ever allocated is live, or was released exactly once. */
  ghost predicate Balanced(b: Blocks) {
    && (forall id :: id in b.owner ==> id < b.next)
    && forall id: nat :: b.released[id] == if id < b.next && id !in b.owner then 1 else 0
  }

  /** Every buffer has room for one byte more than was written, by doubling the initial one. */
  ghost predicate Roomy(held: map<string, Block>, entries: map<string, T.Entry>) {
    && held.Keys == entries.Keys
    && forall p :: p in held ==> Fits(held[p].capacity, |entries[p].bytes|)
  }

  ghost predicate Fits(capacity: nat, size: nat) {
    T.IsCapacity(capacity) && size < capacity && (capacity == T.INITIAL_BUFFER_SIZE || capacity <= 2 * size)
  }

  ghost predicate Accounted(b: Blocks, entries: map<string, T.Entry>) {
    Paired(b) && Balanced(b) && Roomy(b.held, entries)
  }

  lemma AllocateKeeps(b: Blocks, path: string)
    requires Paired(b) && Balanced(b) && path !in b.held
    ensures Paired(Allocate(b, path)) && Balanced(Allocate(b, path))
  {
  }

  lemma MoveKeeps(b: Blocks, path: string, capacity: nat)
    requires Paired(b) && Balanced(b) && path in b.held
    ensures Paired(Move(b, path, capacity)) && Balanced(Move(b, path, capacity))
  {
  }

  lemma ReleaseKeeps(b: Blocks, path: string)
    requires Paired(b) && Balanced(b) && path in b.held
    ensures Paired(Release(b, path)) && Balanced(Release(b, path))
  {
  }

  lemma GrownFits(capacity: nat, size: nat, end: nat)
    requires Fits(capacity, size)
    ensures capacity > 0 && Fits(T.Grown(capacity, end), if end > size then end else size)
  {
    T.GrownIsCapacity(capacity, end);
  }

  lemma CreateKeeps(b: Blocks, entries: map<string, T.Entry>, path: string)
    requires Accounted(b, entries) && path !in entries
    ensures Accounted(Allocate(b, path), entries[path := T.Entry([], true)])
  {
    AllocateKeeps(b, path);
    assert T.INITIAL_BUFFER_SIZE == T.INITIAL_BUFFER_SIZE * T.Pow2(0);
  }

  lemma StillRoomy(held: map<string, Block>, entries: map<string, T.Entry>, path: string, block: Block, entry: T.Entry)
    requires Roomy(held, entries) && path in held && Fits(block.capacity, |entry.bytes|)
    ensures Roomy(held[path := block], entries[path := entry])
  {
  }

  lemma ReserveKeeps(b: Blocks, path: string, end: nat)
    requires Paired(b) && Balanced(b) && path in b.held && b.held[path].capacity > 0
    ensures var c := Reserve(b, path, end);
      Paired(c) && Balanced(c) && path in c.held && c.held == b.held[path := c.held[path]] &&
      c.held[path].capacity == T.Grown(b.held[path].capacity, end)
  {
    MoveKeeps(b, path, T.Grown(b.held[path].capacity, end));
  }

  /** A write takes a new block exactly when the bytes and one more do not fit the old one,
      and leaves the blocks of all other streams where they are. */
  lemma WriteMovesIff(b: Blocks, entries: map<string, T.Entry>, path: string, end: nat)
    requires Accounted(b, entries) && path in b.held
    ensures var c := Reserve(b, path, end);
            && c.held.Keys == b.held.Keys
            && (c.held[path].id != b.held[path].id <==> end >= b.held[path].capacity)
            && (forall q :: q in b.held && q != path ==> c.held[q] == b.held[q])
  {
    GrownFits(b.held[path].capacity, |entries[path].bytes|, end);
  }

  lemma WriteKeeps(b: Blocks, entries: map<string, T.Entry>, path: string, end: nat, written: T.Entry)
    requires Accounted(b, entries) && path in b.held
    requires |written.bytes| == if end > |entries[path].bytes| then end else |entries[path].bytes|
    ensures Accounted(Reserve(b, path, end), entries[path := written])
  {
    GrownFits(b.held[path].capacity, |entries[path].bytes|, end);
    ReserveKeeps(b, path, end);
    StillRoomy(b.held, entries, path, Reserve(b, path, end).held[path], written);
  }

  lemma OpenCloseKeeps(b: Blocks, entries: map<string, T.Entry>, path: string, open: bool)
    requires Accounted(b, entries) && path in entries
    ensures Accounted(b, entries[path := entries[path].(open := open)])
  {
  }

  lemma CompletionKeeps(b: Blocks, entries: map<string, T.Entry>, path: string)
    requires Accounted(b, entries) && path in b.held
    ensures Accounted(Release(b, path), entries - {path})
  {
    ReleaseKeeps(b, path);
  }

  lemma CompletedIsAccounted(l: Ledger, status: Completion, path: string)
    requires Accounted(l.blocks, l.streams.entries)
    ensures Accounted(OnCompletion(l, status, path).blocks, OnCompletion(l, status, path).streams.entries)
  {
    if path in l.blocks.held {
      CompletionKeeps(l.blocks, l.streams.entries, path);
    }
  }

  lemma WrittenIsAccounted(l: Ledger, op: Op)
    requires Accounted(l.blocks, l.streams.entries) && op.Write? && Writable(l.streams, op.path, op.at)
    ensures Accounted(Step(l, op).blocks, Step(l, op).streams.entries)
  {
    WriteKeeps(l.blocks, l.streams.entries, op.path, op.at + |op.src|,
               T.Apply(l.streams, T.Write(op.path, op.at, op.src)).entries[op.path]);
  }

  lemma OpenedIsAccounted(l: Ledger, op: Op)
    requires Accounted(l.blocks, l.streams.entries) && (op.Open? || op.Close?)
    ensures Accounted(Step(l, op).blocks, Step(l, op).streams.entries)
  {
    if op.path in l.streams.entries {
      OpenCloseKeeps(l.blocks, l.streams.entries, op.path, op.Open?);
    }
  }

  lemma BlocksKept(l: Ledger, op: Op)
    requires Accounted(l.blocks, l.streams.entries) && Decimal(l.streams.nextIndex) !in l.streams.entries
    ensures Accounted(Step(l, op).blocks, Step(l, op).streams.entries)
  {
    match op
    case Create => CreateKeeps(l.blocks, l.streams.entries, Decimal(l.streams.nextIndex));
    case Open(_) => OpenedIsAccounted(l, op);
    case Close(_) => OpenedIsAccounted(l, op);
    case Register(_) =>
    case Write(path, at, _) => if Writable(l.streams, path, at) { WrittenIsAccounted(l, op); }
    case Complete(status, path) => CompletedIsAccounted(l, status, path);
  }

  lemma PathsKept(l: Ledger, op: Op)
    requires T.PathsInv(l.streams) && l.blocks.held.Keys == l.streams.entries.Keys
    ensures T.PathsInv(Step(l, op).streams)
  {
    StepOnStreams(l, op);
    if StreamOp(l, op) != [] {
      T.PathsStep(l.streams, StreamOp(l, op)[0]);
    }
  }

  /** In every run, whatever the order of creations, writes, completions and callback
      registrations: each block ever allocated is either the one block of one stream, or
      was released, and then exactly once. */
  lemma {:induction false} BlocksAreAccountedFor(ops: seq<Op>)
    ensures T.PathsInv(Run(ops).streams) && Accounted(Run(ops).blocks, Run(ops).streams.entries)
  {
    if ops != [] {
      BlocksAreAccountedFor(ops[..|ops| - 1]);
      PathsKept(Run(ops[..|ops| - 1]), ops[|ops| - 1]);
      T.NextPathIsNew(Run(ops[..|ops| - 1]).streams.nextIndex);
      BlocksKept(Run(ops[..|ops| - 1]), ops[|ops| - 1]);
    }
  }

  /** No block is lost exactly when no stream is left. */
  lemma NothingLostIffNoStreamLeft(ops: seq<Op>)
    ensures var l := Run(ops);
      (forall id: nat :: id < l.blocks.next ==> l.blocks.released[id] == 1) <==> l.streams.entries.Keys == {}
  {
    BlocksAreAccountedFor(ops);
    var b := Run(ops).blocks;
    if p :| p in b.held {
      assert b.released[b.held[p].id] == 0;
    }
    forall id: nat | id < b.next && b.released[id] != 1 ensures b.owner[id] in b.held {
    }
  }

  /** A completed trace gives its buffer back exactly when a callback is registered, the
      trace succeeded, and its stream is closed; otherwise the buffer stays. */
  lemma CompletionReleasesIff(ops: seq<Op>, status: Completion, path: string)
    requires path in Run(ops).blocks.held && path in Run(ops).streams.entries
    ensures var l := Run(ops);
      Run(ops + [Complete(status, path)]).blocks.released[l.blocks.held[path].id] == 1 <==>
      l.registered && status == Completed && !l.streams.entries[path].open
  {
    BlocksAreAccountedFor(ops);
    assert (ops + [Complete(status, path)])[..|ops|] == ops;
  }

  function StreamOps(ops: seq<Op>): seq<T.Op> {
    if ops == [] then [] else
      StreamOps(ops[..|ops| - 1]) + StreamOp(Run(ops[..|ops| - 1]), ops[|ops| - 1])
  }

  lemma RunMore(ops: seq<T.Op>, more: seq<T.Op>)
    requires |more| <= 1
    ensures T.Run(ops + more) == if more == [] then T.Run(ops) else T.Apply(T.Run(ops), more[0])
  {
    if more == [] {
      assert ops + more == ops;
    } else {
      assert (ops + more)[..|ops|] == ops;
    }
  }

  /** The ledger only adds bookkeeping: its streams are those of the provider's machine. */
  lemma {:induction false} StreamsAreTheProviders(ops: seq<Op>)
    ensures Run(ops).streams == T.Run(StreamOps(ops))
  {
    if ops != [] {
      var front, op := ops[..|ops| - 1], ops[|ops| - 1];
      StreamsAreTheProviders(front);
      BlocksAreAccountedFor(front);
      StepOnStreams(Run(front), op);
      RunMore(StreamOps(front), StreamOp(Run(front), op));
    }
  }

  /** What the successful reports among `reports` delivered. */
  function Delivered(reports: seq<Report>): seq<Bytes> {
    if reports == [] then [] else
      var r := reports[|reports| - 1];
      Delivered(reports[..|reports| - 1]) + if r.data.Some? then [r.data.value] else []
  }

  lemma DeliveredSnoc(reports: seq<Report>, r: Report)
    ensures Delivered(reports + [r]) == Delivered(reports) + if r.data.Some? then [r.data.value] else []
  {
    assert (reports + [r])[..|reports|] == reports;
  }

  function Payloads(consumed: seq<(string, Bytes)>): (r: seq<Bytes>)
    ensures |r| == |consumed| && forall i :: 0 <= i < |r| ==> r[i] == consumed[i].1
  {
    seq(|consumed|, i requires 0 <= i < |consumed| => consumed[i].1)
  }

  lemma PayloadsSnoc(consumed: seq<(string, Bytes)>, path: string, bytes: Bytes)
    ensures Payloads(consumed + [(path, bytes)]) == Payloads(consumed) + [bytes]
  {
  }

  lemma StepDelivers(l: Ledger, op: Op)
    requires Delivered(l.reports) == Payloads(l.streams.consumed)
    ensures Delivered(Step(l, op).reports) == Payloads(Step(l, op).streams.consumed)
  {
    if op.Complete? {
      DeliveredSnoc(l.reports, Report(ResultOf(op.status), None));
      if Consumable(l.streams, op.path) {
        var bytes := l.streams.entries[op.path].bytes;
        DeliveredSnoc(l.reports, Report(Success, Some(bytes)));
        PayloadsSnoc(l.streams.consumed, op.path, bytes);
      }
    } else {
      assert Step(l, op).reports == l.reports && Step(l, op).streams.consumed == l.streams.consumed;
    }
  }

  /** The successful reports are the consumed streams, one report for each, in order. */
  lemma {:induction false} ReportsAreConsumptions(ops: seq<Op>)
    ensures Delivered(Run(ops).reports) == Payloads(Run(ops).streams.consumed)
  {
    if ops != [] {
      ReportsAreConsumptions(ops[..|ops| - 1]);
      StepDelivers(Run(ops[..|ops| - 1]), ops[|ops| - 1]);
    }
  }

  /** The k-th successful report carries exactly the bytes that the writes to one closed
      stream had made by the time its trace completed, and no other report is of that
      stream. */
  lemma ReportDeliversTheTrace(ops: seq<Op>, k: nat) returns (path: string, m: nat)
    requires k < |Delivered(Run(ops).reports)|
    ensures m < |StreamOps(ops)| && StreamOps(ops)[m] == T.Consume(path)
    ensures T.View(path, StreamOps(ops)[..m]) == Some(T.Entry(Delivered(Run(ops).reports)[k], false))
    ensures var consumed := Run(ops).streams.consumed;
      k < |consumed| && forall j :: 0 <= j < |consumed| ==> (consumed[j].0 == path <==> j == k)
  {
    ReportsAreConsumptions(ops);
    StreamsAreTheProviders(ops);
    BlocksAreAccountedFor(ops);
    path := Run(ops).streams.consumed[k].0;
    m := T.ConsumptionDelivers(StreamOps(ops), k);
  }

  // ---------------------------------------------------------------- the class

  /** What the adapter knows of traces: the streams and their buffers, whether a callback is
      registered, its calls so far, and the buffers freed after them. */
  datatype View = View(entries: map<string, T.Entry>, buffers: map<string, array<Byte>>, nextIndex: nat,
                       registered: bool, reports: seq<Report>, freed: set<array<Byte>>)

  predicate Lends(v: View, status: Completion, path: string) {
    v.registered && status == Completed && path in v.entries && !v.entries[path].open && path in v.buffers
  }

  ghost function Lent(v: View, path: string): View
    requires path in v.entries && path in v.buffers
  {
    v.(entries := v.entries - {path}, buffers := v.buffers - {path}, freed := v.freed + {v.buffers[path]},
       reports := v.reports + [Report(Success, Some(v.entries[path].bytes))])
  }

  ghost function ViewAfter(v: View, status: Completion, path: string): View {
    if Lends(v, status, path) then Lent(v, path)
    else if v.registered && status != Completed then v.(reports := v.reports + [Report(ResultOf(status), None)])
    else v
  }

  /** `l` is a ledger of what is seen, `ids` naming the buffers: the same streams, callback and
      reports, the blocks the streams hold, and a release noted for every buffer freed. */
  ghost predicate Represents(l: Ledger, ids: map<array<Byte>, nat>, v: View) {
    && l.registered == v.registered && l.reports == v.reports
    && l.streams.entries == v.entries && l.streams.nextIndex == v.nextIndex
    && v.buffers.Keys == l.blocks.held.Keys == v.entries.Keys
    && (forall p :: p in v.buffers ==> v.buffers[p] in ids && ids[v.buffers[p]] == l.blocks.held[p].id)
    && (forall b :: b in v.freed ==> b in ids && l.blocks.released[ids[b]] > 0)
  }

  lemma LendingFollowsLedger(l: Ledger, ids: map<array<Byte>, nat>, v: View, path: string)
    requires Represents(l, ids, v) && Lends(v, Completed, path)
    ensures Represents(OnCompletion(l, Completed, path), ids, ViewAfter(v, Completed, path))
  {
    var t, w := OnCompletion(l, Completed, path), ViewAfter(v, Completed, path);
    forall p | p in w.buffers ensures w.buffers[p] in ids && ids[w.buffers[p]] == t.blocks.held[p].id {
      assert p in v.buffers;
    }
    forall b | b in w.freed ensures b in ids && t.blocks.released[ids[b]] > 0 {
      assert b in v.freed || b == v.buffers[path];
    }
  }

  /** A completion at the adapter is the ledger's completion: what a ledger represented
      before, the ledger after the completion represents after it. */
  lemma CompletionFollowsLedger(l: Ledger, ids: map<array<Byte>, nat>, v: View, status: Completion, path: string)
    requires Represents(l, ids, v)
    ensures Represents(OnCompletion(l, status, path), ids, ViewAfter(v, status, path))
  {
    if Lends(v, status, path) {
      LendingFollowsLedger(l, ids, v, path);
    } else if v.registered && status == Completed {
      assert OnCompletion(l, status, path) == l;
    }
  }

  class TraceSourceAdapter {
    const streamProvider: T.MemoryReadWriteStreamProvider
    var currentStage: S.FeatureStage
    var currentDetailedStage: S.DetailedStage
    var statusCallback: Option<nat>
    var finishedCallback: bool
    var notes: seq<Note>       // calls of status callbacks so far
    var reports: seq<Report>   // calls of the trace-finished callback so far
    ghost var freed: set<array<Byte>>

    /** No stream uses a buffer that was freed. */
    ghost predicate Valid()
      reads this, streamProvider, streamProvider.data.Values
    {
      streamProvider.Valid() && forall d :: d in streamProvider.data.Values ==> d.buffer !in freed
    }

    ghost function Buffers(): map<string, array<Byte>>
      reads streamProvider, streamProvider.data.Values
    {
      map p | p in streamProvider.data :: streamProvider.data[p].buffer
    }

    ghost function Seen(): View
      requires Valid()
      reads this, streamProvider, streamProvider.data.Values, set d | d in streamProvider.data.Values :: d.buffer
    {
      View(streamProvider.Abs(), Buffers(), streamProvider.streamIndex, finishedCallback, reports, freed)
    }

    ghost function RelayState(): Relay
      reads this
    {
      Relay(currentStage, currentDetailedStage, statusCallback, notes)
    }

    constructor (provider: T.MemoryReadWriteStreamProvider)
      requires provider.Valid()
      ensures Valid() && streamProvider == provider && RelayState() == FRESH && reports == [] && !finishedCallback
    {
      streamProvider := provider;
      currentStage, currentDetailedStage := S.FeatureStage.Unknown, S.DetailedStage.Unknown;
      statusCallback, finishedCallback := None, false;
      notes, reports, freed := [], [], {};
    }

    /** Registers or takes back the callback for finished traces. */
    method SetTraceFinishedCallback(registered: bool)
      requires Valid()
      modifies this`finishedCallback
      ensures Valid() && Seen() == old(Seen()).(registered := registered)
    {
      finishedCallback := registered;
      AllStay();
    }

    twostate lemma AllStay()
      requires old(streamProvider.Valid()) && streamProvider.Valid() && streamProvider.data == old(streamProvider.data)
      requires forall d :: d in old(streamProvider.data).Values ==> unchanged(d) && unchanged(d.buffer)
      ensures streamProvider.Abs() == old(streamProvider.Abs()) && Buffers() == old(Buffers())
    {
    }

    /** The streams that stay are untouched when one is consumed. */
    twostate lemma OthersStay(path: string)
      requires old(streamProvider.Valid()) && streamProvider.Valid()
      requires streamProvider.data == old(streamProvider.data) - {path}
      requires forall d :: d in old(streamProvider.data).Values ==> unchanged(d) && unchanged(d.buffer)
      ensures streamProvider.Abs() == old(streamProvider.Abs()) - {path}
    {
      assert forall p :: p in streamProvider.data ==> streamProvider.data[p] in old(streamProvider.data).Values;
    }

    twostate lemma OtherBuffersStay(path: string)
      requires streamProvider.data == old(streamProvider.data) - {path}
      requires forall d :: d in old(streamProvider.data).Values ==> unchanged(d)
      ensures Buffers() == old(Buffers()) - {path}
    {
      assert forall p :: p in streamProvider.data ==> streamProvider.data[p] in old(streamProvider.data).Values;
    }

    method SetStatusCallback(callback: Option<nat>)
      modifies this`statusCallback
      ensures RelayState() == StatusStep(old(RelayState()), SetCallback(callback))
    {
      statusCallback := callback;
    }

    method OnTraceStatusEvent(status: Status)
      modifies this`currentStage, this`currentDetailedStage, this`notes
      ensures RelayState() == StatusStep(old(RelayState()), StatusEvent.Status(status))
    {
      var newDetailedStage := DetailedCaptureStage(status);
      var oldDetailedStage := currentDetailedStage;
      currentStage := CaptureStage(status);
      currentDetailedStage := newDetailedStage;
      if newDetailedStage != oldDetailedStage {
        if statusCallback.Some? {
          notes := notes + [Note(statusCallback.value, newDetailedStage, oldDetailedStage)];
        }
      }
    }

    /** A block may be freed only once. */
    method ApiFree(block: array<Byte>)
      requires block !in freed
      modifies this`freed
      ensures freed == old(freed) + {block}
    {
      freed := freed + {block};
    }

    /** The bytes of a closed stream are lent to the callback, and freed after it. */
    method HandOverStream(path: string) returns (ok: bool)
      requires Valid()
      modifies this`reports, this`freed, streamProvider
      ensures Valid()
      ensures ok <==> path in old(streamProvider.data) && !old(streamProvider.data[path].open)
      ensures ok ==> reports == old(reports) + [Report(Success, Some(old(streamProvider.data[path].Abs()).bytes))]
      ensures ok ==> freed == old(freed) + {old(streamProvider.data[path].buffer)}
      ensures ok ==> old(streamProvider.data[path].buffer) !in old(freed)
      ensures !ok ==> reports == old(reports) && freed == old(freed)
      ensures streamProvider.data == if ok then old(streamProvider.data) - {path} else old(streamProvider.data)
      ensures streamProvider.streamIndex == old(streamProvider.streamIndex)
    {
      var size, data;
      ok, size, data := streamProvider.ConsumeStream(path);
      if ok {
        reports := reports + [Report(Success, Some(data[..size]))];
        ApiFree(data);
      }
    }

    method LendStream(path: string) returns (ok: bool)
      requires Valid()
      modifies this`reports, this`freed, streamProvider
      ensures Valid()
      ensures ok <==> path in old(streamProvider.data) && !old(streamProvider.data[path].open)
      ensures ok ==> old(streamProvider.data[path].buffer) !in old(freed)
      ensures streamProvider.data == if ok then old(streamProvider.data) - {path} else old(streamProvider.data)
      ensures Seen() == if ok then Lent(old(Seen()), path) else old(Seen())
    {
      ok := HandOverStream(path);
      if ok {
        OthersStay(path);
        OtherBuffersStay(path);
      } else {
        AllStay();
      }
    }

    method ReportFailure(result: CaptureResult)
      requires Valid()
      modifies this`reports
      ensures Valid() && Seen() == old(Seen()).(reports := old(reports) + [Report(result, None)])
      ensures reports == old(reports) + [Report(result, None)]
    {
      reports := reports + [Report(result, None)];
      AllStay();
    }

    /** The user is told of the end of a trace, if a callback is registered: of a failure
        without data, of a success with the bytes of its stream, whose buffer is then freed. */
    method OnTraceCompletionEvent(status: Completion, path: string) returns (ghost lent: bool)
      requires Valid()
      modifies this`reports, this`freed, streamProvider
      ensures Valid()
      ensures lent <==> finishedCallback && status == Completed &&
                        path in old(streamProvider.data) && !old(streamProvider.data[path].open)
      ensures lent ==> reports == old(reports) + [Report(Success, Some(old(streamProvider.data[path].Abs()).bytes))]
      ensures lent ==> freed == old(freed) + {old(streamProvider.data[path].buffer)}
      ensures lent ==> old(streamProvider.data[path].buffer) !in old(freed)
      ensures !lent ==> freed == old(freed)
      ensures !lent && finishedCallback && status != Completed ==>
                reports == old(reports) + [Report(if status == CompletionError then Failure
                                                  else if status == CompletionAborted then Aborted else Unknown, None)]
      ensures !lent && (!finishedCallback || status == Completed) ==> reports == old(reports)
      ensures streamProvider.data == if lent then old(streamProvider.data) - {path} else old(streamProvider.data)
      ensures Seen() == ViewAfter(old(Seen()), status, path)
    {
      lent := false;
      if !finishedCallback {
        return;
      }
      var result := ResultOf(status);
      if result != Success {
        ReportFailure(result);
        return;
      }
      var ok := LendStream(path);
      lent := ok;
    }
  }
}
